/** The software NCQ scheduler of sata_nv.c as a step function over values, and its runs.
  *
  * A u32 bit mask is the set of its set bit positions.  `inflight` is libata's `ap->qc_active`
  * for the port; the drive owns the SActive register, which a step only reads.
  */
module SwncqModel {
  import opened Libata
  import opened DeferQueues

  datatype Flag = SawD2h | SawDmas | SawSdb | SawBackout

  /** The interrupt status word of the port. */
  datatype Word = Word(backout: bool, sdb: bool, d2h: bool, dmaSetup: bool, hotplug: bool)

  /** What the handler reads from the hardware while it runs. */
  datatype Readings = Readings(scrFails: bool, ataErr: bool, dmaErr: bool, busy: bool, dmaTag: nat)

  datatype State = State(
    inflight: set<nat>,
    issued: set<nat>,
    last: nat,
    queue: seq<nat>,
    dhfis: set<nat>,
    dmafis: set<nat>,
    sdbfis: set<nat>,
    flags: set<Flag>,
    frozen: bool)

  /** A command written to the drive: for the first time, or once more. */
  datatype Sent = First(tag: nat) | Again(tag: nat)

  /** The state after a step, the commands it completed and what it sent to the drive. */
  datatype Outcome = Outcome(st: State, done: set<nat>, sent: seq<Sent>)

  const INIT := State({}, {}, ATA_TAG_POISON, [], {}, {}, {}, {}, false)

  /** Bit number of `1 << tag` for a 32-bit shift. */
  function ShiftBit(tag: nat): nat {
    tag % 32
  }

  function FisReinit(s: State): State {
    s.(dhfis := {}, dmafis := {}, sdbfis := {}, flags := {})
  }

  function PortReinit(s: State): State {
    FisReinit(s.(queue := [], issued := {}, last := ATA_TAG_POISON))
  }

  function Freeze(s: State): State {
    s.(frozen := true)
  }

  /** Writing command `t` to the drive. */
  function Issue(s: State, t: nat): State {
    s.(last := t, dhfis := s.dhfis - {t}, dmafis := s.dmafis - {t}, issued := s.issued + {t})
  }

  /** Accepting a command that libata has just marked in flight. */
  function Accept(s: State, t: nat): Outcome {
    var s := s.(inflight := s.inflight + {t});
    if s.issued == {} then Outcome(Issue(s, t), {}, [First(t)])
    else Outcome(s.(queue := s.queue + [t]), {}, [])
  }

  /** Send the oldest deferred command; a tag without a live command is dropped. */
  function SendDeferred(s: State): Outcome
    requires s.queue != []
  {
    var t, s := s.queue[0], s.(queue := s.queue[1..]);
    if t in s.inflight then Outcome(Issue(s, t), {}, [First(t)]) else Outcome(s, {}, [])
  }

  /** Send the last command once more, if it is still live. */
  function SendLast(s: State): Outcome {
    if s.last in s.inflight then Outcome(Issue(s, s.last), {}, [Again(s.last)]) else Outcome(s, {}, [])
  }

  /** The commands an SDB retires: issued, no longer in SActive, and live. */
  function Retired(s: State, sactive: set<nat>): set<nat> {
    (s.issued - sactive) * s.inflight
  }

  function Retire(s: State, done: set<nat>): State {
    s.(inflight := s.inflight - done, issued := s.issued - done, dhfis := s.dhfis - done,
       dmafis := s.dmafis - done, sdbfis := s.sdbfis + done)
  }

  /** After the retirements of an SDB: what is sent next. */
  function AfterRetire(s: State): Outcome {
    if s.inflight == {} then Outcome(PortReinit(s), {}, [])
    else if s.issued * s.dhfis != {} then Outcome(s, {}, [])
    else if SawBackout in s.flags || s.issued != s.dhfis then SendLast(FisReinit(s))
    else if s.queue != [] then SendDeferred(FisReinit(s))
    else Outcome(FisReinit(s), {}, [])
  }

  /** The Set Device Bits handler; None is its error return. */
  function Sdb(s: State, sactive: set<nat>, dmaErr: bool): Option<Outcome> {
    if dmaErr || !(sactive <= s.issued) then None
    else
      var o := AfterRetire(Retire(s, Retired(s, sactive)));
      Some(o.(done := Retired(s, sactive)))
  }

  function D2h(s: State, w: Word, busy: bool): Outcome {
    var s := s.(dhfis := s.dhfis + {ShiftBit(s.last)}, flags := s.flags + {SawD2h});
    if SawSdb in s.flags || SawBackout in s.flags then Outcome(Freeze(s), {}, [])
    else if !w.dmaSetup && SawDmas !in s.flags && !busy && s.queue != [] then SendDeferred(s)
    else Outcome(s, {}, [])
  }

  function DmaSetup(s: State, dmaTag: nat): State {
    s.(dmafis := s.dmafis + {ShiftBit(dmaTag)}, flags := s.flags + {SawDmas})
  }

  /** The handler goes past its early returns. */
  predicate Reaches(s: State, w: Word, r: Readings) {
    && (w.backout || w.sdb || w.d2h || w.dmaSetup)
    && !s.frozen && !w.hotplug && s.issued != {} && !r.scrFails && !r.ataErr
  }

  function SdbPart(s: State, w: Word, r: Readings, sactive: set<nat>): Outcome {
    var s := if w.backout then s.(flags := s.flags + {SawBackout}) else s;
    if !w.sdb then Outcome(s, {}, [])
    else
      var s := s.(flags := s.flags + {SawSdb});
      match Sdb(s, sactive, r.dmaErr)
      case None => Outcome(Freeze(s), {}, [])
      case Some(o) => o
  }

  function RestPart(s: State, w: Word, r: Readings): Outcome {
    var p := if w.d2h then D2h(s, w, r.busy) else Outcome(s, {}, []);
    if w.dmaSetup && !p.st.frozen then p.(st := DmaSetup(p.st, r.dmaTag)) else p
  }

  function Interrupt(s: State, w: Word, r: Readings, sactive: set<nat>): Outcome {
    if Reaches(s, w, r) then
      var o := SdbPart(s, w, r, sactive);
      if o.st.frozen then o
      else
        var p := RestPart(o.st, w, r);
        Outcome(p.st, o.done, o.sent + p.sent)
    else if !s.frozen && (w.hotplug || (s.issued != {} && !r.scrFails && r.ataErr
                                        && (w.backout || w.sdb || w.d2h || w.dmaSetup)))
    then Outcome(Freeze(s), {}, [])
    else Outcome(s, {}, [])
  }

  // ---------------------------------------------------------------------------------------------
  // Runs against a drive

  /** The scheduler, the drive's SActive register and the history of the run: the tags libata
    * handed over, the tags sent to the drive for the first time, and the completions. */
  datatype World = World(
    st: State,
    sactive: set<nat>,
    accepted: seq<nat>,
    dispatched: seq<nat>,
    completed: multiset<nat>)

  datatype Event =
    | Submit(tag: nat)
    | DriveClears(tags: set<nat>)
    | Irq(word: Word, readings: Readings)

  const START := World(INIT, {}, [], [], multiset{})

  function FirstTags(sent: seq<Sent>): seq<nat> {
    if sent == [] then [] else (if sent[0].First? then [sent[0].tag] else []) + FirstTags(sent[1..])
  }

  function SentTags(sent: seq<Sent>): set<nat> {
    if sent == [] then {} else {sent[0].tag} + SentTags(sent[1..])
  }

  function Record(w: World, o: Outcome): World {
    World(o.st, w.sactive + SentTags(o.sent), w.accepted, w.dispatched + FirstTags(o.sent),
          w.completed + multiset(o.done))
  }

  function Next(w: World, e: Event): World {
    match e
    case Submit(t) => Record(w.(accepted := w.accepted + [t]), Accept(w.st, t))
    case DriveClears(tags) => w.(sactive := w.sactive - tags)
    case Irq(word, readings) => Record(w, Interrupt(w.st, word, readings, w.sactive))
  }

  /** An SDB is serviced that leaves nothing active at the drive. */
  predicate SdbEmptiesDrive(w: World, word: Word, r: Readings) {
    Reaches(w.st, word, r) && word.sdb && !r.dmaErr && w.sactive == {}
  }

  /** A backed-out command is pending although the drive holds no command, and others wait. */
  predicate BackoutOfCompleted(w: World, word: Word, r: Readings) {
    SdbEmptiesDrive(w, word, r) && (word.backout || SawBackout in w.st.flags) && w.st.queue != []
  }

  /** An acknowledgement shares its status word with an SDB that empties the port. */
  predicate AckAfterEmpty(w: World, word: Word, r: Readings) {
    SdbEmptiesDrive(w, word, r) && word.d2h && w.st.queue == []
  }

  /** What libata and the drive are assumed to do. */
  predicate Allowed(n: nat, w: World, e: Event) {
    match e
    case Submit(t) => t < n && t !in w.st.inflight && !w.st.frozen
    case DriveClears(tags) => true
    case Irq(word, r) => !BackoutOfCompleted(w, word, r) && !AckAfterEmpty(w, word, r)
  }

  /** The issued and the deferred commands partition what is in flight. */
  predicate Partition(n: nat, s: State) {
    && QueueSize(n)
    && !s.frozen
    && (forall t :: t in s.inflight ==> t < n)
    && s.issued !! Elements(s.queue)
    && s.issued + Elements(s.queue) == s.inflight
    && Distinct(s.queue)
  }

  /** Acknowledgements are of issued commands, and all but the last command are acknowledged. */
  predicate Acknowledged(s: State) {
    && s.dhfis <= s.issued
    && s.issued - s.dhfis <= {s.last}
  }

  predicate StateInv(n: nat, s: State) {
    && Partition(n, s)
    && Acknowledged(s)
    && (s.issued == {} ==> s.queue == [])
    && (s.issued != {} ==> s.last < n && (s.last in s.issued || SawSdb in s.flags))
  }

  /** First dispatches follow acceptance, the queue holding exactly what is still to come; and
    * per tag, every command handed over is completed once or still in flight. */
  predicate History(w: World) {
    && w.dispatched + w.st.queue == w.accepted
    && w.completed + multiset(w.st.inflight) == multiset(w.accepted)
  }

  predicate Inv(n: nat, w: World) {
    && StateInv(n, w.st)
    && w.sactive <= w.st.issued
    && History(w)
  }

  /** A re-issue is of the last command, live at the drive, unacknowledged and not deferred. */
  predicate ResendsLive(w: World, sent: seq<Sent>) {
    forall i :: 0 <= i < |sent| && sent[i].Again? ==>
      && sent[i].tag == w.st.last && w.st.last in w.sactive
      && w.st.last !in w.st.dhfis && w.st.last !in w.st.queue
  }

  function Run(w: World, events: seq<Event>): World
    decreases |events|
  {
    if events == [] then w else Run(Next(w, events[0]), events[1..])
  }

  /** Every event is allowed in the world it happens in; nothing is asked of a frozen port. */
  predicate AllowedRun(n: nat, w: World, events: seq<Event>)
    decreases |events|
  {
    events == [] || w.st.frozen ||
    (Allowed(n, w, events[0]) && AllowedRun(n, Next(w, events[0]), events[1..]))
  }
}
