/** ata_eh_reset (libata-eh.c): the bounded sequence of resets of one link.
  *
  * The hardware's answers are parameters: what prereset says, and try by try what the reset
  * methods return and which device classes they report.
  */
module EhResets {
  import opened Libata
  import opened EhActions

  /** The flags of a link and the methods of its host that decide how it is reset. */
  datatype Setup = Setup(
    noSrst: bool, assumeAta: bool, assumeSemb: bool, pmpHost: bool, hasSoft: bool, hasHard: bool,
    spdNeeded: bool, classify: bool)

  /** What prereset returns, and the actions it leaves requested. */
  datatype Prereset = Prereset(rc: Option<Errno>, action: set<Action>)

  /** The answers of one reset method call. */
  datatype Answer = Answer(rc: Option<Errno>, classes: seq<Class>)

  /** The answers of one try: of the first reset, and of a follow-up softreset. */
  datatype Attempt = Attempt(first: Answer, followUp: Answer)

  /** How one try ends: its error, the classes, and whether a softreset followed the hardreset. */
  datatype Result = Result(rc: Option<Errno>, classes: seq<Class>, followUp: bool)

  /** How the tries end: the error, the number of tries, the classes, and whether an unclassified
    * device is taken for an ATA one. */
  datatype Ended = Ended(rc: Option<Errno>, tries: nat, classes: seq<Class>, asAta: bool)

  /** Which reset to start with, unless the matter is decided without one. */
  datatype Choice = Decided(rc: Option<Errno>) | Go(hard: bool)

  predicate Sized(attempts: seq<Attempt>, devices: nat) {
    forall i :: 0 <= i < |attempts| ==> |attempts[i].first.classes| == |attempts[i].followUp.classes| == devices
  }

  // ---------------------------------------------------------------------------------------------
  // One try

  /** Once any device is classified, the unclassified ones are known to be absent. */
  function Settled(classes: seq<Class>): (r: seq<Class>)
    ensures |r| == |classes|
    ensures forall i :: 0 <= i < |r| ==>
      r[i] == (if classes[i] == Unknown && (exists j :: 0 <= j < |classes| && classes[j] != Unknown) then NoDevice
               else classes[i])
  {
    if forall j :: 0 <= j < |classes| ==> classes[j] == Unknown then classes
    else seq(|classes|, i requires 0 <= i < |classes| => if classes[i] == Unknown then NoDevice else classes[i])
  }

  predicate NoneClassified(classes: seq<Class>) {
    forall i :: 0 <= i < |classes| ==> classes[i] == Unknown
  }

  /** The classes ata_do_reset leaves. */
  function ClassesOf(a: Answer): (r: seq<Class>)
    ensures |r| == |a.classes|
  {
    if a.rc.None? then Settled(a.classes) else a.classes
  }

  /** A reset that fails leaves the classes as reported; after success an unclassified device is known to
    * be absent exactly if some device was classified. */
  lemma ClassesExact(a: Answer)
    ensures a.rc.Some? || NoneClassified(a.classes) ==> ClassesOf(a) == a.classes
    ensures a.rc.None? && !NoneClassified(a.classes) ==> forall i :: 0 <= i < |a.classes| ==>
      ClassesOf(a)[i] == if a.classes[i] == Unknown then NoDevice else a.classes[i]
  {}

  /** ATA_LFLAG_ASSUME_CLASS. */
  predicate AssumesClass(u: Setup) {
    u.assumeAta || u.assumeSemb
  }

  predicate Unclassified(u: Setup, classes: seq<Class>) {
    u.classify && !AssumesClass(u) && classes != [] && classes[0] == Unknown
  }

  /** ata_eh_followup_srst_needed. */
  predicate FollowUpNeeded(u: Setup, rc: Option<Errno>, classes: seq<Class>) {
    !u.noSrst && (rc == Some(EAGAIN) || (rc.None? && (u.pmpHost || Unclassified(u, classes))))
  }

  function TryResult(u: Setup, hard: bool, t: Attempt): Result {
    var classes := ClassesOf(t.first);
    if !hard || !FollowUpNeeded(u, t.first.rc, classes) then Result(t.first.rc, classes, false)
    else if !u.hasSoft then Result(Some(EINVAL), classes, false)
    else Result(t.followUp.rc, ClassesOf(t.followUp), true)
  }

  /** A hardreset does not settle what is on the link: it says so itself, the link may carry a multiplier,
    * or it classified no device although that was asked for. */
  predicate LeavesOpen(u: Setup, a: Answer) {
    || a.rc == Some(EAGAIN)
    || (a.rc.None? && u.pmpHost)
    || (a.rc.None? && u.classify && !u.assumeAta && !u.assumeSemb && a.classes != [] && NoneClassified(a.classes))
  }

  /** Exactly such a hardreset is followed by a softreset, unless the link forbids it, and its answer then
    * counts alone; without a softreset method it is an error instead. */
  lemma FollowUpExact(u: Setup, hard: bool, t: Attempt)
    ensures
      var r := TryResult(u, hard, t);
      && (r.followUp <==> hard && !u.noSrst && u.hasSoft && LeavesOpen(u, t.first))
      && (r.followUp ==> r.rc == t.followUp.rc && r.classes == ClassesOf(t.followUp))
      && (!r.followUp ==> r.classes == ClassesOf(t.first))
      && (!r.followUp ==>
            r.rc == if hard && !u.noSrst && LeavesOpen(u, t.first) then Some(EINVAL) else t.first.rc)
  {}

  /** The error a try counts as.  EAGAIN is none; a missing classification is one, except in the
    * last try. */
  function TryError(u: Setup, r: Result, isLast: bool): Option<Errno> {
    if r.rc.Some? && r.rc != Some(EAGAIN) then r.rc
    else if Unclassified(u, r.classes) && !isLast then Some(EINVAL)
    else None
  }

  // ---------------------------------------------------------------------------------------------
  // The tries

  function HardAt(u: Setup, firstHard: bool, k: nat): bool {
    if k == 0 then firstHard else u.hasHard
  }

  function TryAll(u: Setup, attempts: seq<Attempt>, firstHard: bool, k: nat): Ended
    requires k < |attempts|
    decreases |attempts| - k
  {
    var r := TryResult(u, HardAt(u, firstHard, k), attempts[k]);
    var isLast := k + 1 == |attempts|;
    var e := TryError(u, r, isLast);
    if e.None? then Ended(None, k + 1, r.classes, Unclassified(u, r.classes))
    else if e == Some(ERESTART) || isLast then Ended(e, k + 1, r.classes, false)
    else TryAll(u, attempts, firstHard, k + 1)
  }

  /** The number of tries is that of the table of deadlines at most, every try but the last has
    * failed, and success means a classification, or ATA assumed after the very last try. */
  lemma {:induction false} TryAllMeans(u: Setup, attempts: seq<Attempt>, firstHard: bool, k: nat)
    requires k < |attempts| && Sized(attempts, |attempts[0].first.classes|)
    ensures
      var e := TryAll(u, attempts, firstHard, k);
      && k < e.tries <= |attempts| && |e.classes| == |attempts[0].first.classes|
      && (forall j :: k <= j < e.tries - 1 ==>
            TryError(u, TryResult(u, HardAt(u, firstHard, j), attempts[j]), false) !in {None, Some(ERESTART)})
      && (e.rc.None? ==> !Unclassified(u, e.classes) || (e.asAta && e.tries == |attempts|))
      && (e.rc.Some? ==> e.rc != Some(EAGAIN) && (e.tries == |attempts| || e.rc == Some(ERESTART)))
    decreases |attempts| - k
  {
    var e := TryError(u, TryResult(u, HardAt(u, firstHard, k), attempts[k]), k + 1 == |attempts|);
    if e.Some? && e != Some(ERESTART) && k + 1 < |attempts| {
      TryAllMeans(u, attempts, firstHard, k + 1);
    }
  }

  /** Try k goes well: the link was reset, and device 0 classified if that was asked for. */
  predicate GoesWell(u: Setup, r: Result) {
    (r.rc.None? || r.rc == Some(EAGAIN)) && !(u.classify && !u.assumeAta && !u.assumeSemb && NoClass(r.classes))
  }

  predicate NoClass(classes: seq<Class>) {
    classes != [] && classes[0] == Unknown
  }

  /** What try k comes to; from the second on it is a hardreset if there is one. */
  function AtTry(u: Setup, attempts: seq<Attempt>, firstHard: bool, k: nat): Result
    requires k < |attempts|
  {
    TryResult(u, if k == 0 then firstHard else u.hasHard, attempts[k])
  }

  lemma ErrorMeans(u: Setup, r: Result, isLast: bool)
    ensures
      var e := TryError(u, r, isLast);
      && (e.None? <==> GoesWell(u, r) || (isLast && (r.rc.None? || r.rc == Some(EAGAIN))))
      && (e == Some(ERESTART) <==> r.rc == Some(ERESTART))
      && (isLast && e.Some? ==> e == r.rc)
      && (e.None? ==> (Unclassified(u, r.classes) <==> !GoesWell(u, r)))
  {}

  predicate TriedInVain(u: Setup, attempts: seq<Attempt>, firstHard: bool, k: nat, n: nat)
    requires n <= |attempts|
  {
    forall j :: k <= j < n ==>
      var r := AtTry(u, attempts, firstHard, j); !GoesWell(u, r) && r.rc != Some(ERESTART)
  }

  /** What the tries come to when the one with this result is the last. */
  predicate EndsWith(u: Setup, r: Result, isLast: bool, e: Ended) {
    && (GoesWell(u, r) || r.rc == Some(ERESTART) || isLast)
    && e.classes == r.classes && e.rc == (if r.rc == Some(EAGAIN) then None else r.rc)
    && (e.asAta <==> !GoesWell(u, r) && e.rc.None?)
  }

  /** The tries end with the first that goes well or returns ERESTART, or with the last one there is;
    * then what that one came to is the result, a link reset without a class counting as an ATA one. */
  lemma {:induction false} TryAllExact(u: Setup, attempts: seq<Attempt>, firstHard: bool, k: nat)
    requires k < |attempts|
    ensures
      var e := TryAll(u, attempts, firstHard, k);
      && k < e.tries <= |attempts| && TriedInVain(u, attempts, firstHard, k, e.tries - 1)
      && EndsWith(u, AtTry(u, attempts, firstHard, e.tries - 1), e.tries == |attempts|, e)
    decreases |attempts| - k
  {
    var r := AtTry(u, attempts, firstHard, k);
    assert r == TryResult(u, HardAt(u, firstHard, k), attempts[k]);
    ErrorMeans(u, r, k + 1 == |attempts|);
    var e := TryError(u, r, k + 1 == |attempts|);
    if e.Some? && e != Some(ERESTART) && k + 1 < |attempts| {
      TryAllExact(u, attempts, firstHard, k + 1);
    }
  }

  /** The classes the softreset of try k reports, as the try itself or following a hardreset. */
  function SoftClasses(u: Setup, attempts: seq<Attempt>, firstHard: bool, k: nat): seq<Class>
    requires k < |attempts|
  {
    ClassesOf(if (if k == 0 then firstHard else u.hasHard) then attempts[k].followUp else attempts[k].first)
  }

  /** On a host link that may carry a multiplier and may be softreset, success hands on what a softreset
    * found; after a hardreset alone a multiplier would be taken for the disk behind its first port. */
  lemma MultiplierSought(u: Setup, attempts: seq<Attempt>, firstHard: bool)
    requires attempts != [] && u.pmpHost && !u.noSrst && (firstHard ==> u.hasHard)
    ensures
      var e := TryAll(u, attempts, firstHard, 0);
      e.rc.None? ==>
        && 0 < e.tries <= |attempts| && e.classes == SoftClasses(u, attempts, firstHard, e.tries - 1)
        && (u.hasSoft || (e.tries == 1 && !firstHard) || !u.hasHard)
  {
    TryAllExact(u, attempts, firstHard, 0);
    var e := TryAll(u, attempts, firstHard, 0);
    FollowUpExact(u, if e.tries == 1 then firstHard else u.hasHard, attempts[e.tries - 1]);
  }

  // ---------------------------------------------------------------------------------------------
  // Before and after

  /** The actions to reset with: those requested, with resets that came in meanwhile. */
  function Requested(ctx: set<Action>, info: set<Action>): set<Action> {
    if ctx * RESET_MASK != {} then ctx + info * RESET_MASK else ctx
  }

  /** The actions prereset is to start from: exactly one reset. */
  function Preferred(u: Setup, action: set<Action>): set<Action> {
    var soft := u.hasSoft && (!u.hasHard || (!u.noSrst && !u.spdNeeded && HardReset !in action));
    action - RESET_MASK + (if soft then {SoftReset} else {HardReset})
  }

  /** prereset may decide the matter: it may fail, find the port disabled, or ask for no reset. */
  function Chosen(u: Setup, action: set<Action>, prereset: Option<Prereset>): Choice {
    var act := if prereset.Some? then prereset.value.action else Preferred(u, action);
    if prereset.Some? && prereset.value.rc.Some? then
      Decided(if prereset.value.rc == Some(ENOENT) then None else prereset.value.rc)
    else if act * RESET_MASK == {} then Decided(None)
    else Go(if HardReset in act then u.hasHard else !u.hasSoft)
  }

  /** Without a prereset method, a link that needs more speed control, may not be softreset, or was
    * asked for a hardreset gets a hardreset if there is one. */
  lemma HardWhenAsked(u: Setup, action: set<Action>)
    requires u.hasSoft || u.hasHard
    ensures Chosen(u, action, None) ==
      Go(u.hasHard && (!u.hasSoft || u.noSrst || u.spdNeeded || HardReset in action))
  {
    var act := Preferred(u, action);
    assert SoftReset in act || HardReset in act;
    assert act * RESET_MASK != {} by {
      assert (if SoftReset in act then SoftReset else HardReset) in act * RESET_MASK;
    }
  }

  /** With a prereset method it decides: an absent port and no reset asked for are no errors, any other
    * error ends the matter, and otherwise the reset it asks for is used if there is one, or the other. */
  lemma PreresetDecides(u: Setup, action: set<Action>, p: Prereset)
    requires u.hasSoft || u.hasHard
    ensures
      var c := Chosen(u, action, Some(p));
      var asked := HardReset in p.action || SoftReset in p.action;
      && (c.Decided? <==> p.rc.Some? || !asked)
      && (c.Decided? ==> c.rc == if p.rc == Some(ENOENT) then None else p.rc)
      && (c.Go? ==> if c.hard then u.hasHard && (HardReset in p.action || !u.hasSoft)
                    else u.hasSoft && (HardReset !in p.action || !u.hasHard))
  {
    assert HardReset in p.action ==> HardReset in p.action * RESET_MASK;
    assert SoftReset in p.action ==> SoftReset in p.action * RESET_MASK;
  }

  /** The class override of the link for a device; an offline link keeps what was found. */
  function Overridden(u: Setup, c: Class, offline: bool, asAta: bool): Class {
    if offline then c else if asAta || u.assumeAta then Ata else if u.assumeSemb then SembUnsup else c
  }

  predicate AllOverridden(u: Setup, found: seq<Class>, offline: seq<bool>, asAta: bool, classes: seq<Class>) {
    && |classes| == |found| == |offline|
    && forall i :: 0 <= i < |classes| ==> classes[i] == Overridden(u, found[i], offline[i], asAta)
  }

  /** A device on a link that is offline keeps its class; on any other link it becomes an ATA device if one
    * is assumed, else a management device not supported if one is assumed, else keeps its class too. */
  lemma OverrideMeans(u: Setup, found: seq<Class>, offline: seq<bool>, asAta: bool, classes: seq<Class>)
    requires AllOverridden(u, found, offline, asAta, classes)
    ensures forall i :: 0 <= i < |found| ==>
      && (offline[i] || !(asAta || u.assumeAta || u.assumeSemb) ==> classes[i] == found[i])
      && (!offline[i] && (asAta || u.assumeAta) ==> classes[i] == Ata)
      && (!offline[i] && !asAta && !u.assumeAta && u.assumeSemb ==> classes[i] == SembUnsup)
  {}

  /** Postreset is handed what a softreset found. */
  ghost predicate BySoftreset(u: Setup, attempts: seq<Attempt>, firstHard: bool, offline: seq<bool>,
                              before: seq<Class>)
  {
    exists k, asAta :: 0 <= k < |attempts| &&
      AllOverridden(u, SoftClasses(u, attempts, firstHard, k), offline, asAta, before)
  }

  /** The return code and the classes handed to postreset, or left if it is not called. */
  ghost predicate Fits(u: Setup, choice: Choice, start: seq<Class>, attempts: seq<Attempt>, offline: seq<bool>,
                       rc: Option<Errno>, before: seq<Class>)
    requires attempts != []
  {
    if !u.hasSoft && !u.hasHard then rc.None? && AllOverridden(u, start, offline, !AssumesClass(u), before)
    else match choice
      case Decided(e) =>
        && rc == e && |before| == |start|
        && forall i :: 0 <= i < |before| ==> before[i] == if e.None? then NoDevice else start[i]
      case Go(hard) =>
        var end := TryAll(u, attempts, hard, 0);
        && rc == end.rc
        && if rc.None? then AllOverridden(u, end.classes, offline, end.asAta, before) else before == end.classes
  }

  /** When classification was asked for, success on a link that is not offline is a class. */
  lemma SuccessClassifies(u: Setup, choice: Choice, start: seq<Class>, attempts: seq<Attempt>, offline: seq<bool>,
                          rc: Option<Errno>, before: seq<Class>)
    requires attempts != [] && start != [] && Sized(attempts, |start|) && |offline| == |start|
    requires Fits(u, choice, start, attempts, offline, rc, before)
    requires rc.None? && u.classify && !offline[0]
    ensures |before| == |start| && before[0] != Unknown
  {
    if (u.hasSoft || u.hasHard) && choice.Go? {
      TryAllMeans(u, attempts, choice.hard, 0);
    }
  }

  /** What success means, whichever way it came about. */
  ghost predicate Succeeds(u: Setup, choice: Choice, attempts: seq<Attempt>, offline: seq<bool>, before: seq<Class>) {
    && (u.classify && offline != [] && !offline[0] ==> |before| == |offline| && before[0] != Unknown)
    && ((u.hasSoft || u.hasHard) && choice.Go? && u.pmpHost && !u.noSrst ==>
          BySoftreset(u, attempts, choice.hard, offline, before))
  }

  lemma FitsMeans(u: Setup, choice: Choice, start: seq<Class>, attempts: seq<Attempt>, offline: seq<bool>,
                  rc: Option<Errno>, before: seq<Class>)
    requires attempts != [] && start != [] && Sized(attempts, |start|) && |offline| == |start|
    requires Fits(u, choice, start, attempts, offline, rc, before)
    requires (u.hasSoft || u.hasHard) && choice.Go? && choice.hard ==> u.hasHard
    requires rc.None?
    ensures Succeeds(u, choice, attempts, offline, before)
  {
    if u.classify && !offline[0] {
      SuccessClassifies(u, choice, start, attempts, offline, rc, before);
    }
    if (u.hasSoft || u.hasHard) && choice.Go? && u.pmpHost && !u.noSrst {
      MultiplierSought(u, attempts, choice.hard);
      var e := TryAll(u, attempts, choice.hard, 0);
      assert AllOverridden(u, SoftClasses(u, attempts, choice.hard, e.tries - 1), offline, e.asAta, before);
    }
  }

  class Link {
    const u: Setup
    const timeouts: seq<nat>
    const info: EhInfo
    const ctx: EhInfo
    var classes: seq<Class>
    var didSoft: bool
    var didHard: bool
    var hotplugged: bool
    var resetting: bool

    ghost predicate Valid()
      reads this
    {
      info != ctx && |timeouts| > 0 && |classes| > 0
    }

    constructor (devices: nat, u: Setup, timeouts: seq<nat>)
      requires devices > 0 && |timeouts| > 0
      ensures Valid() && this.u == u && this.timeouts == timeouts && |classes| == devices && !resetting
    {
      this.u, this.timeouts := u, timeouts;
      info := new EhInfo(devices);
      ctx := new EhInfo(devices);
      classes := seq(devices, _ => Unknown);
      didSoft, didHard, hotplugged, resetting := false, false, false, false;
    }

    /** ata_do_reset. */
    method DoReset(answer: Answer) returns (rc: Option<Errno>)
      modifies this`classes
      ensures rc == answer.rc && classes == ClassesOf(answer)
    {
      rc := answer.rc;
      classes := answer.classes;
      if rc.Some? {
        return;
      }
      var dev := 0;
      while dev < |classes| && classes[dev] == Unknown
        invariant dev <= |classes|
        invariant forall j :: 0 <= j < dev ==> classes[j] == Unknown
      {
        dev := dev + 1;
      }
      if dev < |classes| {
        var i := 0;
        while i < |classes|
          invariant i <= |classes| == |answer.classes|
          invariant forall j :: 0 <= j < |classes| ==>
            classes[j] == if j < i && answer.classes[j] == Unknown then NoDevice else answer.classes[j]
        {
          if classes[i] == Unknown {
            classes := classes[i := NoDevice];
          }
          i := i + 1;
        }
      }
    }

    method MarkAllAbsent()
      modifies this`classes
      ensures |classes| == old(|classes|) && forall i :: 0 <= i < |classes| ==> classes[i] == NoDevice
    {
      classes := seq(|classes|, _ => NoDevice);
    }

    /** One try: the reset, and the follow-up softreset a hardreset may need. */
    method OneTry(hard: bool, t: Attempt) returns (rc: Option<Errno>)
      requires info != ctx
      modifies this`classes, this`didSoft, this`didHard, info, ctx
      ensures
        var r := TryResult(u, hard, t);
        rc == r.rc && classes == r.classes
      ensures if hard then didHard && didSoft == old(didSoft) else didSoft && didHard == old(didHard)
      ensures ctx.action - RESET_MASK == old(ctx.action) - RESET_MASK
    {
      if hard {
        didHard := true;
      } else {
        didSoft := true;
      }
      rc := DoReset(t.first);
      if hard && FollowUpNeeded(u, rc, classes) {
        if !u.hasSoft {
          return Some(EINVAL);
        }
        AboutToDo(info, ctx, None, RESET_MASK);
        rc := DoReset(t.followUp);
      }
    }

    /** The retry loop. */
    method Tries(firstHard: bool, attempts: seq<Attempt>) returns (rc: Option<Errno>, asAta: bool, tries: nat)
      requires info != ctx && 0 < |attempts| == |timeouts|
      requires if firstHard then u.hasHard else u.hasSoft
      modifies this`classes, this`didSoft, this`didHard, info, ctx
      ensures Ended(rc, tries, classes, asAta) == TryAll(u, attempts, firstHard, 0)
      ensures ctx.action - RESET_MASK == old(ctx.action) - RESET_MASK
    {
      var hard := firstHard;
      tries, asAta := 0, false;
      while true
        invariant tries < |timeouts| && !asAta && hard == HardAt(u, firstHard, tries)
        invariant TryAll(u, attempts, firstHard, tries) == TryAll(u, attempts, firstHard, 0)
        invariant ctx.action - RESET_MASK == old(ctx.action) - RESET_MASK
        decreases |timeouts| - tries
      {
        var deadline := timeouts[tries];
        rc := OneTry(hard, attempts[tries]);
        tries := tries + 1;
        if rc.None? || rc == Some(EAGAIN) {
          if !Unclassified(u, classes) {
            return None, asAta, tries;
          }
          if tries == |timeouts| {
            return None, true, tries;
          }
          rc := Some(EINVAL);
        }
        if rc == Some(ERESTART) || tries == |timeouts| {
          return;
        }
        if u.hasHard {
          hard := true;
        }
      }
    }

    /** The `done` part: class overrides, postreset and bookkeeping.  `before` is what postreset is
      * handed. */
    method Finish(asAta: bool, offline: seq<bool>, hasPost: bool, post: seq<Class> -> seq<Class>)
      returns (ghost before: seq<Class>)
      requires |offline| == |classes|
      modifies this`classes, ctx
      ensures AllOverridden(u, old(classes), offline, asAta, before)
      ensures classes == if hasPost then post(before) else before
      ensures ctx.action == old(ctx.action) - RESET_MASK + {Revalidate}
    {
      var i := 0;
      while i < |classes|
        invariant i <= |classes| == old(|classes|)
        invariant forall j :: i <= j < |classes| ==> classes[j] == old(classes[j])
        invariant forall j :: 0 <= j < i ==> classes[j] == Overridden(u, old(classes[j]), offline[j], asAta)
        invariant unchanged(ctx)
      {
        if !offline[i] {
          if asAta || u.assumeAta {
            classes := classes[i := Ata];
          } else if u.assumeSemb {
            classes := classes[i := SembUnsup];
          }
        }
        i := i + 1;
      }
      before := classes;
      if hasPost {
        classes := post(classes);
      }
      ClearsEveryReset(ctx.action);
      Done(ctx, None, ctx.action * RESET_MASK);
      ctx.action := ctx.action + {Revalidate};
    }

    /** Which reset to use. */
    method ChooseReset(prereset: Option<Prereset>) returns (choice: Choice)
      requires u.hasSoft || u.hasHard
      modifies this`classes, ctx
      ensures choice == Chosen(u, old(ctx.action), prereset)
      ensures choice != Decided(None) ==> classes == old(classes)
      ensures choice == Decided(None) ==>
        && ctx.action * RESET_MASK == {} && |classes| == old(|classes|)
        && forall i :: 0 <= i < |classes| ==> classes[i] == NoDevice
    {
      var soft := u.hasSoft && (!u.hasHard || (!u.noSrst && !u.spdNeeded && HardReset !in ctx.action));
      ctx.action := ctx.action - RESET_MASK + {if soft then SoftReset else HardReset};
      if prereset.Some? {
        ctx.action := prereset.value.action;
        var rc := prereset.value.rc;
        if rc.Some? {
          if rc.value == ENOENT {
            ctx.action := ctx.action - RESET_MASK;
            MarkAllAbsent();
            rc := None;
          }
          return Decided(rc);
        }
      }
      assert ctx.action * RESET_MASK == {} <==> HardReset !in ctx.action && SoftReset !in ctx.action by {
        assert HardReset in ctx.action ==> HardReset in ctx.action * RESET_MASK;
        assert SoftReset in ctx.action ==> SoftReset in ctx.action * RESET_MASK;
      }
      if HardReset !in ctx.action && SoftReset !in ctx.action {
        MarkAllAbsent();
        return Decided(None);
      }
      var hard := HardReset in ctx.action;
      if (if hard then !u.hasHard else !u.hasSoft) {
        hard := !u.hasSoft;
      }
      return Go(hard);
    }

    /** ata_eh_reset.  `before` is what postreset was handed, or the classes if it was not called. */
    method Reset(prereset: Option<Prereset>, attempts: seq<Attempt>, offline: seq<bool>, hasPost: bool,
                 post: seq<Class> -> seq<Class>)
      returns (rc: Option<Errno>, ghost before: seq<Class>)
      requires Valid()
      requires |attempts| == |timeouts| && |offline| == |classes| && Sized(attempts, |classes|)
      modifies this, info, ctx
      ensures !resetting && !hotplugged
      ensures
        var choice := Chosen(u, Requested(old(ctx.action), old(info.action)), prereset);
        Fits(u, choice, old(classes), attempts, offline, rc, before)
      ensures classes == before || (hasPost && rc.None? && classes == post(before))
      ensures rc.None? ==>
        Succeeds(u, Chosen(u, Requested(old(ctx.action), old(info.action)), prereset), attempts, offline, before)
      ensures rc.None? ==> ctx.action * RESET_MASK == {}
    {
      resetting := true;
      AboutToDo(info, ctx, None, ctx.action * RESET_MASK);
      ghost var start, action := classes, ctx.action;
      ghost var choice := Chosen(u, action, prereset);
      assert action == Requested(old(ctx.action), old(info.action)) by {
        assert old(ctx.action) * RESET_MASK * RESET_MASK == old(ctx.action) * RESET_MASK;
      }
      if !u.hasSoft && !u.hasHard {
        rc := None;
        before := Finish(!AssumesClass(u), offline, hasPost, post);
      } else {
        rc, before := ChooseAndTry(prereset, attempts, offline, hasPost, post);
      }
      if rc.None? {
        FitsMeans(u, choice, start, attempts, offline, rc, before);
      }
      hotplugged, resetting := false, false;
    }

    /** The part of ata_eh_reset for hosts with a reset method. */
    method ChooseAndTry(prereset: Option<Prereset>, attempts: seq<Attempt>, offline: seq<bool>, hasPost: bool,
                        post: seq<Class> -> seq<Class>)
      returns (rc: Option<Errno>, ghost before: seq<Class>)
      requires Valid() && (u.hasSoft || u.hasHard)
      requires |attempts| == |timeouts| && |offline| == |classes| && Sized(attempts, |classes|)
      modifies this`classes, this`didSoft, this`didHard, info, ctx
      ensures Fits(u, Chosen(u, old(ctx.action), prereset), old(classes), attempts, offline, rc, before)
      ensures classes == before || (hasPost && rc.None? && classes == post(before))
      ensures rc.None? ==> ctx.action * RESET_MASK == {}
    {
      var choice := ChooseReset(prereset);
      if choice.Decided? {
        return choice.rc, classes;
      }
      TryAllMeans(u, attempts, choice.hard, 0);
      var asAta, tries;
      rc, asAta, tries := Tries(choice.hard, attempts);
      before := classes;
      if rc.None? {
        before := Finish(asAta, offline, hasPost, post);
      }
    }
  }
}
