/** The per-device error history of libata-eh.c and the speed-down verdict drawn from it.
  *
  * The ring is an array with a cursor; an entry with an empty error mask is unused.  Everything is
  * stated over `History()`, the recorded errors with the newest first.  A mask is a set of bits.
  */
module ErrorRings {
  import opened Libata
  import opened Remainders

  datatype EFlag = IsIo | DubiousXfer
  datatype Entry = Entry(eflags: set<EFlag>, errMask: set<Err>, timestamp: nat)
  datatype Verdict = NcqOff | SpeedDown | FallbackToPio | KeepErrors

  const UNUSED := Entry({}, {}, 0)

  const ECAT_NONE: nat := 0
  const ECAT_ATA_BUS: nat := 1
  const ECAT_TOUT_HSM: nat := 2
  const ECAT_UNK_DEV: nat := 3
  const ECAT_DUBIOUS_NONE: nat := 4
  const ECAT_DUBIOUS_ATA_BUS: nat := 5
  const ECAT_DUBIOUS_TOUT_HSM: nat := 6
  const ECAT_DUBIOUS_UNK_DEV: nat := 7
  const ECAT_NR: nat := 8

  // ---------------------------------------------------------------------------------------------
  // The history as a sequence

  /** The slot holding the i-th newest entry of a ring of n slots. */
  function Back(cursor: nat, i: nat, n: nat): (slot: nat)
    requires cursor < n && i < n
    ensures slot < n
  {
    if i <= cursor then cursor - i else cursor + n - i
  }

  /** One slot back is the next older entry, or the newest again once around. */
  lemma BackOne(cursor: nat, i: nat, n: nat)
    requires cursor < n && i < n
    ensures
      var slot := Back(cursor, i, n);
      var back := if slot == 0 then n - 1 else slot - 1;
      if i + 1 < n then back == Back(cursor, i + 1, n) && back != cursor else back == cursor
  {}

  function NewestFirst(ring: seq<Entry>, cursor: nat): seq<Entry>
    requires cursor < |ring|
  {
    seq(|ring|, i requires 0 <= i < |ring| => ring[Back(cursor, i, |ring|)])
  }

  /** The entries before the first unused one. */
  function Recorded(all: seq<Entry>): (h: seq<Entry>)
    ensures |h| <= |all| && h == all[..|h|]
    ensures forall i :: 0 <= i < |h| ==> h[i].errMask != {}
    ensures |h| < |all| ==> all[|h|].errMask == {}
  {
    if all == [] || all[0].errMask == {} then []
    else
      assert all == [all[0]] + all[1..];
      [all[0]] + Recorded(all[1..])
  }

  function AtMost<T>(s: seq<T>, n: nat): seq<T> {
    if |s| <= n then s else s[..n]
  }

  lemma {:induction false} RecordedPrefix(all: seq<Entry>, n: nat)
    requires n <= |all|
    ensures Recorded(all[..n]) == AtMost(Recorded(all), n)
  {
    if n > 0 && all[0].errMask != {} {
      RecordedPrefix(all[1..], n - 1);
      assert all[..n][1..] == all[1..][..n - 1];
    }
  }

  /** Overwriting the oldest slot and stepping the cursor pushes an entry on the front. */
  lemma RingPush(ring: seq<Entry>, cursor: nat, e: Entry)
    requires cursor < |ring|
    ensures
      var next := (cursor + 1) % |ring|;
      && next < |ring|
      && NewestFirst(ring[next := e], next) == [e] + NewestFirst(ring, cursor)[..|ring| - 1]
  {
    var n := |ring|;
    if cursor + 1 == n {
      RemainderIs(cursor + 1, n, 1, 0);
    } else {
      RemainderIs(cursor + 1, n, 0, cursor + 1);
    }
    var next := (cursor + 1) % n;
    var after := NewestFirst(ring[next := e], next);
    forall i | 0 < i < n
      ensures after[i] == NewestFirst(ring, cursor)[i - 1]
    {
      assert Back(next, i, n) == Back(cursor, i - 1, n) && Back(next, i, n) != next;
    }
  }

  /** The history after one more error, of at most n. */
  function Push(h: seq<Entry>, e: Entry, n: nat): seq<Entry>
    requires n > 0
  {
    [e] + AtMost(h, n - 1)
  }

  lemma RecordedPush(all: seq<Entry>, e: Entry)
    requires all != []
    ensures Recorded([e] + all[..|all| - 1]) == if e.errMask == {} then [] else Push(Recorded(all), e, |all|)
  {
    RecordedPrefix(all, |all| - 1);
    assert ([e] + all[..|all| - 1])[1..] == all[..|all| - 1];
  }

  lemma HistoryPush(ring: seq<Entry>, cursor: nat, e: Entry)
    requires cursor < |ring|
    ensures
      var next := (cursor + 1) % |ring|;
      && next < |ring|
      && Recorded(NewestFirst(ring[next := e], next))
         == if e.errMask == {} then [] else Push(Recorded(NewestFirst(ring, cursor)), e, |ring|)
  {
    RingPush(ring, cursor, e);
    RecordedPush(NewestFirst(ring, cursor), e);
  }

  lemma PushElements(h: seq<Entry>, e: Entry, n: nat)
    requires n > 0 && |h| <= n
    ensures
      var p := Push(h, e, n);
      && |p| == (if |h| < n then |h| + 1 else n)
      && forall i :: 0 <= i < |p| ==> p[i] == if i == 0 then e else h[i - 1]
  {}

  /** The history after recording `log`, oldest first, into an empty ring of n slots. */
  function PushAll(log: seq<Entry>, n: nat): seq<Entry>
    requires n > 0
  {
    if log == [] then [] else Push(PushAll(log[..|log| - 1], n), log[|log| - 1], n)
  }

  /** A ring of n slots holds exactly the last n errors, newest first. */
  lemma {:induction false} HistoryIsNewestErrors(log: seq<Entry>, n: nat)
    requires n > 0
    ensures |PushAll(log, n)| == if |log| <= n then |log| else n
    ensures forall i :: 0 <= i < |PushAll(log, n)| ==> PushAll(log, n)[i] == log[|log| - 1 - i]
  {
    if log != [] {
      var before := log[..|log| - 1];
      HistoryIsNewestErrors(before, n);
      PushElements(PushAll(before, n), log[|log| - 1], n);
      forall i | 0 <= i < |PushAll(log, n)|
        ensures PushAll(log, n)[i] == log[|log| - 1 - i]
      {
        if i > 0 {
          assert PushAll(log, n)[i] == PushAll(before, n)[i - 1] == before[|before| - 1 - (i - 1)];
        }
      }
    }
  }

  // ---------------------------------------------------------------------------------------------
  // Categories

  /** The category of an error, given that the transfer is still unverified (`dubious`). */
  function Category(e: Entry, dubious: bool): (cat: nat)
    ensures cat < ECAT_NR
    ensures cat != ECAT_NONE ==> e.errMask != {} && (dubious <==> cat > ECAT_DUBIOUS_NONE)
  {
    var base := if dubious then ECAT_DUBIOUS_NONE else ECAT_NONE;
    if AtaBus in e.errMask then base + ECAT_ATA_BUS
    else if Timeout in e.errMask then base + ECAT_TOUT_HSM
    else if IsIo in e.eflags && Hsm in e.errMask then base + ECAT_TOUT_HSM
    else if IsIo in e.eflags && e.errMask * {Dev, Media, Invalid} == {Dev} then base + ECAT_UNK_DEV
    else ECAT_NONE
  }

  /** The newest errors up to the first one older than `since`. */
  function Scanned(h: seq<Entry>, since: nat): (k: nat)
    ensures k <= |h|
    ensures forall i :: 0 <= i < k ==> h[i].timestamp >= since
    ensures k < |h| ==> h[k].timestamp < since
  {
    if h == [] || h[0].timestamp < since then 0 else 1 + Scanned(h[1..], since)
  }

  /** The k newest errors all happened on an unverified transfer. */
  predicate DubiousRun(h: seq<Entry>, k: nat)
    requires k <= |h|
  {
    forall j :: 0 <= j < k ==> DubiousXfer in h[j].eflags
  }

  /** How many of the k newest errors fall into a category. */
  function Count(h: seq<Entry>, k: nat, cat: nat): nat
    requires k <= |h|
  {
    if k == 0 then 0
    else Count(h, k - 1, cat) + (if Category(h[k - 1], DubiousRun(h, k)) == cat then 1 else 0)
  }

  function Since(now: nat, minutes: nat, hz: nat): nat {
    var span := minutes * 60 * hz;
    if now < span then 0 else now - span
  }

  /** Errors from then on are those at most so many minutes of `hz` ticks a second old. */
  lemma SinceMeans(now: nat, minutes: nat, hz: nat, t: nat)
    ensures t >= Since(now, minutes, hz) <==> t + minutes * 60 * hz >= now
  {}

  function CountSince(h: seq<Entry>, since: nat, cat: nat): nat {
    Count(h, Scanned(h, since), cat)
  }

  /** The errors behind verdicts of the dubious kind: only the newest unbroken dubious run counts. */
  lemma {:induction false} DubiousRunOnly(h: seq<Entry>, k: nat, j: nat, cat: nat)
    requires j <= k <= |h| && cat > ECAT_DUBIOUS_NONE
    requires j < |h| && DubiousXfer !in h[j].eflags
    ensures Count(h, k, cat) == Count(h, j, cat)
    decreases k
  {
    if j < k {
      DubiousRunOnly(h, k - 1, j, cat);
      assert !DubiousRun(h, k);
    }
  }

  lemma {:induction false} CountGrows(h: seq<Entry>, j: nat, k: nat, cat: nat)
    requires j <= k <= |h|
    ensures Count(h, j, cat) <= Count(h, k, cat)
    decreases k
  {
    if j < k {
      CountGrows(h, j, k - 1, cat);
    }
  }

  lemma {:induction false} ScannedGrows(h: seq<Entry>, early: nat, late: nat)
    requires early <= late
    ensures Scanned(h, late) <= Scanned(h, early)
  {}

  /** What the callback accumulates: the counts, and whether a verified transfer was met. */
  datatype Counters = Counters(nr: seq<nat>, xferOk: bool)

  const ZERO := Counters([0, 0, 0, 0, 0, 0, 0, 0], false)

  function Tallied(arg: Counters, e: Entry): (r: Counters)
    requires |arg.nr| == ECAT_NR
    ensures |r.nr| == ECAT_NR
  {
    var xferOk := arg.xferOk || DubiousXfer !in e.eflags;
    var cat := Category(e, !xferOk);
    Counters(arg.nr[cat := arg.nr[cat] + 1], xferOk)
  }

  function CountersAfter(h: seq<Entry>, k: nat): (r: Counters)
    requires k <= |h|
    ensures |r.nr| == ECAT_NR
  {
    if k == 0 then ZERO else Tallied(CountersAfter(h, k - 1), h[k - 1])
  }

  /** Accumulating with a flag that is never reset is counting by category. */
  lemma {:induction false} CountersMean(h: seq<Entry>, k: nat)
    requires k <= |h|
    ensures CountersAfter(h, k).xferOk <==> !DubiousRun(h, k)
    ensures forall c :: 0 <= c < ECAT_NR ==> CountersAfter(h, k).nr[c] == Count(h, k, c)
  {
    if k > 0 {
      CountersMean(h, k - 1);
      assert DubiousRun(h, k) <==> DubiousRun(h, k - 1) && DubiousXfer in h[k - 1].eflags;
    }
  }

  /** The scan of the recorded entries, seen from the k-th slot back. */
  lemma ScanStep(all: seq<Entry>, h: seq<Entry>, since: nat, end: nat, k: nat, e: Entry)
    requires k < |all| && h == Recorded(all) && end == Scanned(h, since) && k <= end && e == all[k]
    ensures end <= |all|
    ensures e.errMask == {} ==> k == end
    ensures e.errMask != {} ==> k < |h| && h[k] == e
    ensures e.errMask != {} && e.timestamp < since ==> k == end
    ensures e.errMask != {} && e.timestamp >= since ==> k < end
  {}

  // ---------------------------------------------------------------------------------------------
  // Clock order

  /** Time stamps never increase from newer to older. */
  predicate Chronological(h: seq<Entry>) {
    forall i, j :: 0 <= i < j < |h| ==> h[i].timestamp >= h[j].timestamp
  }

  /** On a chronological history the scan is the time window: it stops at no error too early. */
  lemma ScanIsWindow(h: seq<Entry>, since: nat)
    requires Chronological(h)
    ensures forall i :: 0 <= i < |h| ==> (h[i].timestamp >= since <==> i < Scanned(h, since))
  {}

  /** With a clock that never runs backwards every history is chronological. */
  lemma HistoryIsChronological(log: seq<Entry>, n: nat)
    requires n > 0
    requires forall i, j :: 0 <= i < j < |log| ==> log[i].timestamp <= log[j].timestamp
    ensures Chronological(PushAll(log, n))
  {
    HistoryIsNewestErrors(log, n);
  }

  // ---------------------------------------------------------------------------------------------
  // The verdict over a history

  predicate DubiousSpeedRule(h: seq<Entry>, t5: nat) {
    CountSince(h, t5, ECAT_DUBIOUS_ATA_BUS) + CountSince(h, t5, ECAT_DUBIOUS_TOUT_HSM) > 1
  }

  predicate DubiousNcqRule(h: seq<Entry>, t5: nat) {
    CountSince(h, t5, ECAT_DUBIOUS_TOUT_HSM) + CountSince(h, t5, ECAT_DUBIOUS_UNK_DEV) > 1
  }

  predicate PioRule(h: seq<Entry>, t5: nat) {
    CountSince(h, t5, ECAT_ATA_BUS) + CountSince(h, t5, ECAT_TOUT_HSM) + CountSince(h, t5, ECAT_UNK_DEV) > 6
  }

  predicate NcqRule(h: seq<Entry>, t10: nat) {
    CountSince(h, t10, ECAT_TOUT_HSM) + CountSince(h, t10, ECAT_UNK_DEV) > 3
  }

  predicate SpeedRule(h: seq<Entry>, t10: nat) {
    || CountSince(h, t10, ECAT_ATA_BUS) + CountSince(h, t10, ECAT_TOUT_HSM) > 3
    || CountSince(h, t10, ECAT_UNK_DEV) > 6
  }

  /** The speed-down verdict over a history: the errors of the last five and ten minutes. */
  predicate IsVerdict(v: set<Verdict>, h: seq<Entry>, t5: nat, t10: nat) {
    && (NcqOff in v <==> DubiousNcqRule(h, t5) || NcqRule(h, t10))
    && (SpeedDown in v <==> DubiousSpeedRule(h, t5) || SpeedRule(h, t10))
    && (FallbackToPio in v <==> DubiousSpeedRule(h, t5) || PioRule(h, t5))
    && (KeepErrors in v <==> DubiousSpeedRule(h, t5) || DubiousNcqRule(h, t5))
  }

  // ---------------------------------------------------------------------------------------------
  // What the rules count, error by error

  /** An ATA bus error of any command; else a timeout of any command or an HSM violation of an I/O
    * command; else an I/O command the device rejects without a reason. */
  datatype Kind = Bus | ToutHsm | UnkDev

  predicate OfKind(e: Entry, kind: Kind) {
    match kind
    case Bus => AtaBus in e.errMask
    case ToutHsm => AtaBus !in e.errMask && (Timeout in e.errMask || (IsIo in e.eflags && Hsm in e.errMask))
    case UnkDev =>
      && AtaBus !in e.errMask && Timeout !in e.errMask && Hsm !in e.errMask
      && Dev in e.errMask && Media !in e.errMask && Invalid !in e.errMask && IsIo in e.eflags
  }

  predicate OfAny(e: Entry, kinds: set<Kind>) {
    || (Bus in kinds && OfKind(e, Bus)) || (ToutHsm in kinds && OfKind(e, ToutHsm))
    || (UnkDev in kinds && OfKind(e, UnkDev))
  }

  /** Neither error i nor a newer one is older than `since`. */
  predicate Within(h: seq<Entry>, since: nat, i: nat)
    requires i < |h|
  {
    forall j :: 0 <= j <= i ==> h[j].timestamp >= since
  }

  /** The errors of these kinds among the k newest: of the dubious ones, which happened before any
    * transfer was verified, or of the others. */
  function Among(h: seq<Entry>, k: nat, dubious: bool, kinds: set<Kind>): set<nat>
    requires k <= |h|
  {
    set i | 0 <= i < k && (DubiousRun(h, i + 1) <==> dubious) && OfAny(h[i], kinds)
  }

  /** ... and among those within the time, up to the first that is not. */
  function Seen(h: seq<Entry>, since: nat, dubious: bool, kinds: set<Kind>): set<nat> {
    set i | 0 <= i < |h| && Within(h, since, i) && (DubiousRun(h, i + 1) <==> dubious)
            && OfAny(h[i], kinds)
  }

  function Number(dubious: bool, kind: Kind): nat {
    (if dubious then 4 else 0) + match kind case Bus => 1 case ToutHsm => 2 case UnkDev => 3
  }

  lemma KindIsCategory(e: Entry, dubious: bool, kind: Kind)
    ensures OfKind(e, kind) <==> Category(e, dubious) == Number(dubious, kind)
    ensures Category(e, dubious) != Number(!dubious, kind)
  {
    var rejected := e.errMask * {Dev, Media, Invalid};
    assert Dev in e.errMask && Media !in e.errMask && Invalid !in e.errMask ==> rejected == {Dev};
    assert rejected == {Dev} ==> Dev in rejected && Media !in rejected && Invalid !in rejected;
  }

  lemma AnyKind(e: Entry, dubious: bool)
    ensures Category(e, dubious) != ECAT_NONE <==> OfAny(e, {Bus, ToutHsm, UnkDev})
  {
    KindIsCategory(e, dubious, Bus);
    KindIsCategory(e, dubious, ToutHsm);
    KindIsCategory(e, dubious, UnkDev);
  }

  function CountOf(h: seq<Entry>, k: nat, dubious: bool, kinds: set<Kind>, kind: Kind): nat
    requires k <= |h|
  {
    if kind in kinds then Count(h, k, Number(dubious, kind)) else 0
  }

  /** The k-th newest error is one of these. */
  predicate Hit(h: seq<Entry>, k: nat, dubious: bool, kinds: set<Kind>)
    requires 0 < k <= |h|
  {
    (DubiousRun(h, k) <==> dubious) && OfAny(h[k - 1], kinds)
  }

  lemma AmongNext(h: seq<Entry>, k: nat, dubious: bool, kinds: set<Kind>)
    requires 0 < k <= |h|
    ensures |Among(h, k, dubious, kinds)|
      == |Among(h, k - 1, dubious, kinds)| + if Hit(h, k, dubious, kinds) then 1 else 0
  {
    var before, now := Among(h, k - 1, dubious, kinds), Among(h, k, dubious, kinds);
    assert forall i :: i in now <==> i in before || (i == k - 1 && Hit(h, k, dubious, kinds));
    assert now == if Hit(h, k, dubious, kinds) then before + {k - 1} else before;
  }

  lemma CountNext(h: seq<Entry>, k: nat, dubious: bool, kind: Kind)
    requires 0 < k <= |h|
    ensures Count(h, k, Number(dubious, kind))
      == Count(h, k - 1, Number(dubious, kind))
         + if (DubiousRun(h, k) <==> dubious) && OfKind(h[k - 1], kind) then 1 else 0
  {
    KindIsCategory(h[k - 1], DubiousRun(h, k), kind);
  }

  /** Adding up counts of categories is counting the errors. */
  lemma {:induction false} Tally(h: seq<Entry>, k: nat, dubious: bool, kinds: set<Kind>)
    requires k <= |h|
    ensures |Among(h, k, dubious, kinds)|
      == CountOf(h, k, dubious, kinds, Bus) + CountOf(h, k, dubious, kinds, ToutHsm)
         + CountOf(h, k, dubious, kinds, UnkDev)
  {
    if k > 0 {
      Tally(h, k - 1, dubious, kinds);
      AmongNext(h, k, dubious, kinds);
      CountNext(h, k, dubious, Bus);
      CountNext(h, k, dubious, ToutHsm);
      CountNext(h, k, dubious, UnkDev);
    } else {
      assert Among(h, k, dubious, kinds) == {};
    }
  }

  function SinceOf(h: seq<Entry>, since: nat, dubious: bool, kinds: set<Kind>, kind: Kind): nat {
    if kind in kinds then CountSince(h, since, Number(dubious, kind)) else 0
  }

  lemma SeenCounts(h: seq<Entry>, since: nat, dubious: bool, kinds: set<Kind>)
    ensures |Seen(h, since, dubious, kinds)|
      == SinceOf(h, since, dubious, kinds, Bus) + SinceOf(h, since, dubious, kinds, ToutHsm)
         + SinceOf(h, since, dubious, kinds, UnkDev)
  {
    assert Seen(h, since, dubious, kinds) == Among(h, Scanned(h, since), dubious, kinds);
    Tally(h, Scanned(h, since), dubious, kinds);
  }

  /** There are more than so many of these errors. */
  predicate MoreThan(n: nat, h: seq<Entry>, since: nat, dubious: bool, kinds: set<Kind>) {
    |Seen(h, since, dubious, kinds)| > n
  }

  /** The rules of the verdict over the errors themselves. */
  predicate ByErrors(v: set<Verdict>, h: seq<Entry>, t5: nat, t10: nat) {
    && (NcqOff in v <==>
          MoreThan(1, h, t5, true, {ToutHsm, UnkDev}) || MoreThan(3, h, t10, false, {ToutHsm, UnkDev}))
    && (SpeedDown in v <==>
          || MoreThan(1, h, t5, true, {Bus, ToutHsm})
          || MoreThan(3, h, t10, false, {Bus, ToutHsm}) || MoreThan(6, h, t10, false, {UnkDev}))
    && (FallbackToPio in v <==>
          MoreThan(1, h, t5, true, {Bus, ToutHsm}) || MoreThan(6, h, t5, false, {Bus, ToutHsm, UnkDev}))
    && (KeepErrors in v <==>
          MoreThan(1, h, t5, true, {Bus, ToutHsm}) || MoreThan(1, h, t5, true, {ToutHsm, UnkDev}))
  }

  /** The sums of the rules for the last five minutes are numbers of errors. */
  lemma RecentRulesMean(h: seq<Entry>, t5: nat)
    ensures DubiousSpeedRule(h, t5) <==> MoreThan(1, h, t5, true, {Bus, ToutHsm})
    ensures DubiousNcqRule(h, t5) <==> MoreThan(1, h, t5, true, {ToutHsm, UnkDev})
    ensures PioRule(h, t5) <==> MoreThan(6, h, t5, false, {Bus, ToutHsm, UnkDev})
  {
    SeenCounts(h, t5, true, {Bus, ToutHsm});
    SeenCounts(h, t5, true, {ToutHsm, UnkDev});
    SeenCounts(h, t5, false, {Bus, ToutHsm, UnkDev});
  }

  /** ... and those for the last ten. */
  lemma LongRulesMean(h: seq<Entry>, t10: nat)
    ensures NcqRule(h, t10) <==> MoreThan(3, h, t10, false, {ToutHsm, UnkDev})
    ensures SpeedRule(h, t10) <==>
      MoreThan(3, h, t10, false, {Bus, ToutHsm}) || MoreThan(6, h, t10, false, {UnkDev})
  {
    SeenCounts(h, t10, false, {ToutHsm, UnkDev});
    SeenCounts(h, t10, false, {Bus, ToutHsm});
    SeenCounts(h, t10, false, {UnkDev});
  }

  lemma VerdictMeans(v: set<Verdict>, h: seq<Entry>, t5: nat, t10: nat)
    requires IsVerdict(v, h, t5, t10)
    ensures ByErrors(v, h, t5, t10)
  {
    RecentRulesMean(h, t5);
    LongRulesMean(h, t10);
  }

  /** A verdict that falls back to PIO also turns NCQ off or slows down. */
  lemma PioVerdict(v: set<Verdict>, h: seq<Entry>, t5: nat, t10: nat)
    requires t10 <= t5 && IsVerdict(v, h, t5, t10) && FallbackToPio in v
    ensures NcqOff in v || SpeedDown in v
  {
    if PioRule(h, t5) {
      PioNeverAlone(h, t5, t10);
    }
  }

  /** Rule 3 never decides alone: the errors that call for PIO within 5 minutes also call for
    * turning NCQ off or for slowing down within 10 minutes. */
  lemma PioNeverAlone(h: seq<Entry>, t5: nat, t10: nat)
    requires t10 <= t5 && PioRule(h, t5)
    ensures NcqRule(h, t10) || SpeedRule(h, t10)
  {
    ScannedGrows(h, t10, t5);
    CountGrows(h, Scanned(h, t5), Scanned(h, t10), ECAT_ATA_BUS);
    CountGrows(h, Scanned(h, t5), Scanned(h, t10), ECAT_TOUT_HSM);
    CountGrows(h, Scanned(h, t5), Scanned(h, t10), ECAT_UNK_DEV);
  }

  /** The threshold of rule 3 is 6, not the 8 of the rule list: seven recent I/O timeouts after a
    * verified transfer suffice. */
  lemma SevenTimeoutsSuffice(e: Entry, now: nat, hz: nat)
    requires e.errMask == {Timeout} && e.eflags == {IsIo} && e.timestamp == now
    ensures PioRule([e, e, e, e, e, e, e], Since(now, 5, hz))
    ensures !PioRule([e, e, e, e, e, e], Since(now, 5, hz))
  {
    AllTimeouts(e, Since(now, 5, hz), 7);
    AllTimeouts(e, Since(now, 5, hz), 6);
    assert seq(7, _ => e) == [e, e, e, e, e, e, e];
    assert seq(6, _ => e) == [e, e, e, e, e, e];
  }

  lemma {:induction false} AllTimeouts(e: Entry, since: nat, n: nat)
    requires e.errMask == {Timeout} && e.eflags == {IsIo} && e.timestamp >= since
    ensures
      var h := seq(n, _ => e);
      && Scanned(h, since) == n && Count(h, n, ECAT_TOUT_HSM) == n
      && Count(h, n, ECAT_ATA_BUS) == 0 && Count(h, n, ECAT_UNK_DEV) == 0
  {
    ScannedAll(seq(n, _ => e), since);
    TimeoutCounts(e, n, n);
  }

  lemma {:induction false} ScannedAll(h: seq<Entry>, since: nat)
    requires forall i :: 0 <= i < |h| ==> h[i].timestamp >= since
    ensures Scanned(h, since) == |h|
  {}

  lemma {:induction false} TimeoutCounts(e: Entry, n: nat, k: nat)
    requires e.errMask == {Timeout} && e.eflags == {IsIo} && k <= n
    ensures
      var h := seq(n, _ => e);
      Count(h, k, ECAT_TOUT_HSM) == k && Count(h, k, ECAT_ATA_BUS) == 0 && Count(h, k, ECAT_UNK_DEV) == 0
  {
    if k > 0 {
      TimeoutCounts(e, n, k - 1);
      assert !DubiousRun(seq(n, _ => e), k) by { assert DubiousXfer !in seq(n, _ => e)[0].eflags; }
    }
  }

  class ErrorRing {
    var cursor: nat
    const ring: array<Entry>

    ghost predicate Valid()
      reads this
    {
      cursor < ring.Length
    }

    ghost function History(): seq<Entry>
      reads this, ring
      requires Valid()
    {
      Recorded(NewestFirst(ring[..], cursor))
    }

    constructor (size: nat)
      requires size > 0
      ensures Valid() && fresh(ring) && ring.Length == size && History() == []
    {
      cursor := 0;
      ring := new Entry[size](_ => UNUSED);
    }

    /** ata_ering_clear. */
    method Clear()
      requires Valid()
      modifies this, ring
      ensures Valid() && History() == []
    {
      cursor := 0;
      for i := 0 to ring.Length
        invariant cursor == 0
        invariant forall j :: 0 <= j < i ==> ring[j] == UNUSED
      {
        ring[i] := UNUSED;
      }
    }

    /** ata_ering_record.  Recording an empty mask, which the driver warns about, loses the history. */
    method Record(eflags: set<EFlag>, errMask: set<Err>, now: nat)
      requires Valid()
      modifies this, ring
      ensures Valid()
      ensures errMask != {} ==> History() == Push(old(History()), Entry(eflags, errMask, now), ring.Length)
      ensures errMask == {} ==> History() == []
    {
      var e := Entry(eflags, errMask, now);
      ghost var h, n := History(), ring.Length;
      HistoryPush(ring[..], cursor, e);
      StepAndStore(e);
      assert History() == if errMask == {} then [] else Push(h, e, n);
    }

    /** The cursor steps to the oldest slot, which is overwritten. */
    method StepAndStore(e: Entry)
      requires Valid()
      modifies this, ring
      ensures cursor == (old(cursor) + 1) % ring.Length < ring.Length && ring[..] == old(ring[..])[cursor := e]
    {
      cursor := cursor + 1;
      cursor := cursor % ring.Length;
      ring[cursor] := e;
    }

    /** ata_ering_top, and the clearing of its dubious flag once a transfer is verified. */
    method VerifyTop() returns (found: bool)
      requires Valid()
      modifies ring
      ensures Valid() && cursor == old(cursor)
      ensures found <==> old(History()) != []
      ensures History() == if !found then old(History()) else
        var e := old(History())[0];
        [e.(eflags := e.eflags - {DubiousXfer})] + old(History())[1..]
    {
      var e := ring[cursor];
      ghost var all := NewestFirst(ring[..], cursor);
      ghost var slots := ring[..];
      found := e.errMask != {};
      if found {
        var cleared := e.(eflags := e.eflags - {DubiousXfer});
        ring[cursor] := cleared;
        assert ring[..] == slots[cursor := cleared];
        assert NewestFirst(ring[..], cursor) == [cleared] + all[1..];
        assert ([cleared] + all[1..])[1..] == all[1..];
      }
    }

    /** The counting scan of the verdict. */
    method CountErrors(since: nat) returns (nr: seq<nat>)
      requires Valid()
      ensures |nr| == ECAT_NR
      ensures forall c :: 0 <= c < ECAT_NR ==> nr[c] == CountSince(History(), since, c)
    {
      ghost var h := History();
      var arg := MapRing(since, NewestFirst(ring[..], cursor), h, Scanned(h, since));
      CountersMean(h, Scanned(h, since));
      nr := arg.nr;
    }

    /** ata_ering_map with the counting callback; `all` is the ring with the newest slot first, `h`
      * the recorded entries and `end` the number of those that are not too old. */
    method MapRing(since: nat, ghost all: seq<Entry>, ghost h: seq<Entry>, ghost end: nat) returns (arg: Counters)
      requires Valid() && |all| == ring.Length && h == Recorded(all) && end == Scanned(h, since)
      requires forall k :: 0 <= k < ring.Length ==> all[k] == ring[Back(cursor, k, ring.Length)]
      ensures arg == CountersAfter(h, end)
    {
      arg := ZERO;
      var idx := cursor;
      ghost var k := 0;
      while true
        invariant 0 <= k < |all| && idx == Back(cursor, k, |all|)
        invariant k <= end && arg == CountersAfter(h, k)
        decreases |all| - k
      {
        var stop;
        stop, arg := MapEntry(ring[idx], since, arg, all, h, end, k);
        if stop {
          break;
        }
        BackOne(cursor, k, |all|);
        idx := PreviousSlot(idx, ring.Length);
        k := k + 1;
        if idx == cursor {
          break;
        }
      }
      assert k == end;
    }

    /** ata_eh_speed_down_verdict. */
    method Verdict(now: nat, hz: nat) returns (v: set<Verdict>)
      requires Valid()
      ensures IsVerdict(v, History(), Since(now, 5, hz), Since(now, 10, hz))
      ensures ByErrors(v, History(), Since(now, 5, hz), Since(now, 10, hz))
    {
      v := RecentVerdict(Since(now, 5, hz));
      var more := LongVerdict(Since(now, 10, hz));
      v := v + more;
      VerdictMeans(v, History(), Since(now, 5, hz), Since(now, 10, hz));
    }

    /** The half of the verdict drawn from the last ten minutes. */
    method LongVerdict(t10: nat) returns (v: set<Verdict>)
      requires Valid()
      ensures v <= {NcqOff, SpeedDown}
      ensures NcqOff in v <==> NcqRule(History(), t10)
      ensures SpeedDown in v <==> SpeedRule(History(), t10)
    {
      v := {};
      var nr := CountErrors(t10);
      if nr[ECAT_TOUT_HSM] + nr[ECAT_UNK_DEV] > 3 {
        v := v + {NcqOff};
      }
      if nr[ECAT_ATA_BUS] + nr[ECAT_TOUT_HSM] > 3 || nr[ECAT_UNK_DEV] > 6 {
        v := v + {SpeedDown};
      }
    }

    /** The half of the verdict drawn from the last five minutes. */
    method RecentVerdict(t5: nat) returns (v: set<Verdict>)
      requires Valid()
      ensures
        var h := History();
        && (NcqOff in v <==> DubiousNcqRule(h, t5))
        && (SpeedDown in v <==> DubiousSpeedRule(h, t5))
        && (FallbackToPio in v <==> DubiousSpeedRule(h, t5) || PioRule(h, t5))
        && (KeepErrors in v <==> DubiousSpeedRule(h, t5) || DubiousNcqRule(h, t5))
    {
      v := {};
      var nr := CountErrors(t5);
      if nr[ECAT_DUBIOUS_ATA_BUS] + nr[ECAT_DUBIOUS_TOUT_HSM] > 1 {
        v := v + {SpeedDown, FallbackToPio, KeepErrors};
      }
      if nr[ECAT_DUBIOUS_TOUT_HSM] + nr[ECAT_DUBIOUS_UNK_DEV] > 1 {
        v := v + {NcqOff, KeepErrors};
      }
      if nr[ECAT_ATA_BUS] + nr[ECAT_TOUT_HSM] + nr[ECAT_UNK_DEV] > 6 {
        v := v + {FallbackToPio};
      }
    }

    /** The opening of ata_eh_speed_down: an error of no category is not recorded, so the ring never
      * meets an empty mask. */
    method NoteError(eflags: set<EFlag>, errMask: set<Err>, now: nat, hz: nat) returns (v: set<Verdict>)
      requires Valid()
      modifies this, ring
      ensures Valid()
      ensures
        var e := Entry(eflags, errMask, now);
        if OfAny(e, {Bus, ToutHsm, UnkDev}) then
          && History() == Push(old(History()), e, ring.Length)
          && ByErrors(v, History(), Since(now, 5, hz), Since(now, 10, hz))
        else History() == old(History()) && v == {}
    {
      AnyKind(Entry(eflags, errMask, now), DubiousXfer in eflags);
      if Category(Entry(eflags, errMask, now), DubiousXfer in eflags) == ECAT_NONE {
        return {};
      }
      Record(eflags, errMask, now);
      v := Verdict(now, hz);
    }
  }

  /** One turn of the walk, at the k-th slot back: it stops there exactly if the scan ends there. */
  method MapEntry(e: Entry, since: nat, arg: Counters, ghost all: seq<Entry>, ghost h: seq<Entry>, ghost end: nat,
                  ghost k: nat)
    returns (stop: bool, arg': Counters)
    requires h == Recorded(all) && end == Scanned(h, since) && k < |all| && e == all[k]
    requires k <= end && arg == CountersAfter(h, k)
    ensures end <= |h| <= |all| && (stop <==> k == end)
    ensures arg' == CountersAfter(h, if stop then k else k + 1)
  {
    ScanStep(all, h, since, end, k, e);
    if e.errMask == {} {
      return true, arg;
    }
    stop, arg' := VerdictCallback(e, since, arg);
  }

  /** speed_down_verdict_cb: tally one more error unless it is too old. */
  method VerdictCallback(e: Entry, since: nat, arg: Counters) returns (stop: bool, arg': Counters)
    requires |arg.nr| == ECAT_NR
    ensures stop <==> e.timestamp < since
    ensures arg' == if stop then arg else Tallied(arg, e)
  {
    arg' := arg;
    if e.timestamp < since {
      return true, arg';
    }
    if DubiousXfer !in e.eflags {
      arg' := arg'.(xferOk := true);
    }
    var cat := Category(e, !arg'.xferOk);
    arg' := arg'.(nr := arg'.nr[cat := arg'.nr[cat] + 1]);
    stop := false;
  }

  /** The slot before `idx`, around the ring. */
  method PreviousSlot(idx: nat, n: nat) returns (p: nat)
    requires idx < n
    ensures p == if idx == 0 then n - 1 else idx - 1
  {
    if idx == 0 {
      RemainderIs(n - 1, n, 0, n - 1);
    } else {
      RemainderIs(idx - 1 + n, n, 1, idx - 1);
    }
    p := (idx - 1 + n) % n;
  }
}
