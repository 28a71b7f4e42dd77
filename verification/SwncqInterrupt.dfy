/** What one interrupt does to a sound port, said over its status word, its readings and the state
  * before it in one go, where the model (and the driver) goes from handler to handler.
  */
module SwncqInterrupts {
  import opened Libata
  import opened DeferQueues
  import opened SwncqModel
  import opened SwncqProofs

  predicate AnyBit(word: Word) {
    word.backout || word.sdb || word.d2h || word.dmaSetup
  }

  /** The port has work at the drive and the interrupt is neither a hotplug nor an error. */
  predicate Serviced(s: State, word: Word, r: Readings) {
    s.issued != {} && AnyBit(word) && !word.hotplug && !r.scrFails && !r.ataErr
  }

  /** Acknowledged commands stay at the drive after the SDB. */
  predicate StillBusy(w: World) {
    w.sactive * w.st.dhfis != {}
  }

  /** What an SDB makes the driver send: nothing while an acknowledged command is left, the last
    * command again if it is all that is left, and the oldest deferred one if nothing is. */
  function SentOnSdb(w: World): seq<Sent> {
    if StillBusy(w) then []
    else if w.sactive != {} then [Again(w.st.last)]
    else if w.st.queue != [] then [First(w.st.queue[0])]
    else []
  }

  /** The commands that still wait after an SDB. */
  function WaitingAfter(w: World, word: Word): seq<nat> {
    if word.sdb && w.sactive == {} && w.st.queue != [] then w.st.queue[1..] else w.st.queue
  }

  /** An acknowledgement calls for the next command: the drive is not BSY, and no DMA setup came with
    * it or since the last SDB. */
  predicate AsksForMore(w: World, word: Word, r: Readings) {
    word.d2h && !r.busy && !word.dmaSetup && (word.sdb || SawDmas !in w.st.flags)
  }

  function SentOnAck(w: World, word: Word, r: Readings): seq<Sent> {
    if AsksForMore(w, word, r) && WaitingAfter(w, word) != [] then [First(WaitingAfter(w, word)[0])] else []
  }

  /** Something before the acknowledgement makes it an illegal transaction: an SDB or a backout since
    * the port was last clear. */
  predicate IllegalAck(w: World, word: Word) {
    if word.sdb then StillBusy(w) else word.backout || SawSdb in w.st.flags || SawBackout in w.st.flags
  }

  /** Neither of the two bad cases is serviced. */
  predicate Sane(w: World, word: Word, r: Readings) {
    !BackoutOfCompleted(w, word, r) && !AckAfterEmpty(w, word, r)
  }

  /** What an SDB leaves of the port and sends, once the finished commands are gone from `s`. */
  lemma RetiredLeaves(n: nat, s: State)
    requires Partition(n, s) && Acknowledged(s) && (s.issued != {} ==> s.last < n)
    requires !(SawBackout in s.flags && s.issued == {} && s.queue != [])
    ensures
      var o := AfterRetire(s);
      if s.issued * s.dhfis != {} then o == Outcome(s, {}, [])
      else if s.issued != {} then o == Outcome(Issue(FisReinit(s), s.last), {}, [Again(s.last)])
      else if s.queue != [] then
        o == Outcome(Issue(FisReinit(s).(queue := s.queue[1..]), s.queue[0]), {}, [First(s.queue[0])])
      else o == Outcome(PortReinit(s), {}, [])
  {
    NoElements(s.queue);
    if s.issued * s.dhfis == {} && s.issued != {} {
      LastOnly(s);
    }
  }

  /** The port when the SDB's finished commands are gone. */
  function Retiring(w: World, word: Word): State {
    var s := w.st.(flags := (if word.backout then w.st.flags + {SawBackout} else w.st.flags) + {SawSdb});
    Retire(s, Retired(s, w.sactive))
  }

  lemma RetiringState(n: nat, w: World, word: Word)
    requires Inv(n, w) && w.st.issued != {}
    ensures
      var s := Retiring(w, word);
      && Partition(n, s) && Acknowledged(s) && s.issued == w.sactive && s.dhfis == w.st.dhfis * w.sactive
      && s.issued * s.dhfis == w.sactive * w.st.dhfis && s.queue == w.st.queue && s.last == w.st.last
      && s.flags == w.st.flags + {SawSdb} + (if word.backout then {SawBackout} else {})
  {
    var s := w.st.(flags := (if word.backout then w.st.flags + {SawBackout} else w.st.flags) + {SawSdb});
    RetireState(n, s, w.sactive);
  }

  /** The port after the SDB part of an interrupt. */
  predicate SdbLeft(w: World, word: Word, s: State) {
    var busy, sent := StillBusy(w), SentOnSdb(w);
    && s.queue == WaitingAfter(w, word) && !s.frozen
    && s.issued == w.sactive + SentTags(sent)
    && s.flags == (if busy then w.st.flags + {SawSdb} + (if word.backout then {SawBackout} else {}) else {})
    && s.dhfis == (if busy then w.st.dhfis * w.sactive else {})
    && s.last == if sent != [] then sent[0].tag else if busy then w.st.last else ATA_TAG_POISON
  }

  lemma SdbLeaves(n: nat, w: World, word: Word, r: Readings)
    requires Inv(n, w) && Sane(w, word, r) && Reaches(w.st, word, r) && word.sdb && !r.dmaErr
    ensures
      var o := SdbPart(w.st, word, r, w.sactive);
      o.sent == SentOnSdb(w) && SdbLeft(w, word, o.st)
  {
    var s := Retiring(w, word);
    RetiringState(n, w, word);
    RetiredLeaves(n, s);
    assert SdbPart(w.st, word, r, w.sactive).st == AfterRetire(s).st;
    assert SdbPart(w.st, word, r, w.sactive).sent == AfterRetire(s).sent;
    if SentOnSdb(w) != [] {
      SentOne(SentOnSdb(w)[0]);
    }
  }

  /** The port after the part of an interrupt that follows the SDB. */
  predicate AckLeft(before: State, word: Word, sent: seq<Sent>, s: State) {
    && |sent| <= 1 && |sent| <= |before.queue| && s.queue == before.queue[|sent|..]
    && s.issued == before.issued + SentTags(sent)
    && s.flags == before.flags + (if word.d2h then {SawD2h} else {}) + (if word.dmaSetup then {SawDmas} else {})
    && s.dhfis == before.dhfis + (if word.d2h then {before.last} else {})
    && s.last == if sent != [] then sent[0].tag else before.last
  }

  lemma AckLeaves(n: nat, s: State, word: Word, r: Readings)
    requires StateInv(n, s) && (word.d2h ==> s.issued != {})
    ensures
      var p := RestPart(s, word, r);
      && (p.st.frozen <==> word.d2h && (SawSdb in s.flags || SawBackout in s.flags))
      && p.sent == (if !p.st.frozen && word.d2h && !word.dmaSetup && SawDmas !in s.flags && !r.busy && s.queue != []
                    then [First(s.queue[0])] else [])
      && (!p.st.frozen ==> AckLeft(s, word, p.sent, p.st))
  {
    if s.queue != [] {
      SentOne(First(s.queue[0]));
      assert s.queue[0] in Elements(s.queue);
    }
    assert word.d2h ==> ShiftBit(s.last) == s.last;
  }

  lemma NoSdbLeaves(w: World, word: Word, r: Readings)
    requires !word.sdb && !w.st.frozen
    ensures
      var o := SdbPart(w.st, word, r, w.sactive);
      o.sent == [] && o.st == w.st.(flags := w.st.flags + if word.backout then {SawBackout} else {})
  {}

  /** The two parts of a serviced interrupt. */
  lemma Parts(n: nat, w: World, word: Word, r: Readings)
    requires Inv(n, w) && Sane(w, word, r) && Serviced(w.st, word, r) && !(word.sdb && r.dmaErr)
    ensures Reaches(w.st, word, r)
    ensures
      var o := SdbPart(w.st, word, r, w.sactive);
      var p := RestPart(o.st, word, r);
      && !o.st.frozen && StateInv(n, o.st) && (word.d2h ==> o.st.issued != {})
      && Interrupt(w.st, word, r, w.sactive).st == p.st
      && Interrupt(w.st, word, r, w.sactive).sent == o.sent + p.sent
  {
    SdbPartKeeps(n, w, word, r);
  }

  /** When an interrupt freezes the port: on a hotplug, and if the port has work at the drive on an
    * error of the drive, on an SDB with a DMA error, and on an acknowledgement after an SDB or backout. */
  lemma InterruptFreezes(n: nat, w: World, word: Word, r: Readings)
    requires Inv(n, w) && Sane(w, word, r)
    ensures Interrupt(w.st, word, r, w.sactive).st.frozen <==>
      || word.hotplug
      || (w.st.issued != {} && !r.scrFails && AnyBit(word) && r.ataErr)
      || (Serviced(w.st, word, r) && ((word.sdb && r.dmaErr) || (word.d2h && IllegalAck(w, word))))
  {
    if Serviced(w.st, word, r) && !(word.sdb && r.dmaErr) {
      Parts(n, w, word, r);
      AckLeaves(n, SdbPart(w.st, word, r, w.sactive).st, word, r);
      if word.sdb {
        SdbLeaves(n, w, word, r);
      } else {
        NoSdbLeaves(w, word, r);
      }
    }
  }

  /** Exactly what an interrupt sends: the answer to its SDB, then, if its acknowledgement asks for
    * more, the next command.  A drive that is BSY gets no next command. */
  lemma InterruptSends(n: nat, w: World, word: Word, r: Readings)
    requires Inv(n, w) && Sane(w, word, r)
    ensures
      var o := Interrupt(w.st, word, r, w.sactive);
      var ok := Serviced(w.st, word, r) && !(word.sdb && r.dmaErr);
      o.sent == (if ok && word.sdb then SentOnSdb(w) else [])
                + (if ok && !o.st.frozen then SentOnAck(w, word, r) else [])
  {
    if Serviced(w.st, word, r) && !(word.sdb && r.dmaErr) {
      Parts(n, w, word, r);
      AckLeaves(n, SdbPart(w.st, word, r, w.sactive).st, word, r);
      if word.sdb {
        SdbLeaves(n, w, word, r);
      } else {
        NoSdbLeaves(w, word, r);
      }
    }
  }

  /** Without an SDB: nothing at all goes to a drive that is BSY, and the oldest deferred command goes
    * exactly on an acknowledgement without DMA setup, in the word or seen earlier. */
  lemma NextOnAcknowledgement(n: nat, w: World, word: Word, r: Readings)
    requires Inv(n, w) && !word.sdb
    ensures
      var o := Interrupt(w.st, word, r, w.sactive);
      && (r.busy ==> o.sent == [])
      && (!o.st.frozen ==>
            (o.sent != [] <==> Serviced(w.st, word, r) && word.d2h && !r.busy && !word.dmaSetup
                               && SawDmas !in w.st.flags && w.st.queue != []))
      && (o.sent != [] ==> w.st.queue != [] && o.sent == [First(w.st.queue[0])])
  {
    InterruptSends(n, w, word, r);
  }

  /** The frames seen, the acknowledged commands and the last command sent when the interrupt comes to
    * its acknowledgement. */
  function FlagsAt(w: World, word: Word): set<Flag> {
    if word.sdb && !StillBusy(w) then {}
    else w.st.flags + (if word.sdb then {SawSdb} else {}) + (if word.backout then {SawBackout} else {})
  }

  function AcknowledgedAt(w: World, word: Word): set<nat> {
    if !word.sdb then w.st.dhfis else if StillBusy(w) then w.st.dhfis * w.sactive else {}
  }

  function LastAt(w: World, word: Word): nat {
    if !word.sdb || StillBusy(w) then w.st.last
    else if SentOnSdb(w) != [] then SentOnSdb(w)[0].tag else ATA_TAG_POISON
  }

  /** What a serviced interrupt leaves of the port: the commands at the drive, the queue, the frames
    * seen, the acknowledged commands and the last one sent. */
  predicate Left(w: World, word: Word, sent: seq<Sent>, ack: seq<Sent>, s: State) {
    && s.issued == (if word.sdb then w.sactive else w.st.issued) + SentTags(sent)
    && |ack| <= |WaitingAfter(w, word)| && s.queue == WaitingAfter(w, word)[|ack|..]
    && s.flags == FlagsAt(w, word) + (if word.d2h then {SawD2h} else {}) + (if word.dmaSetup then {SawDmas} else {})
    && s.dhfis == AcknowledgedAt(w, word) + (if word.d2h then {LastAt(w, word)} else {})
    && s.last == if sent != [] then sent[|sent| - 1].tag else LastAt(w, word)
  }

  lemma InterruptLeaves(n: nat, w: World, word: Word, r: Readings)
    requires Inv(n, w) && Sane(w, word, r) && Serviced(w.st, word, r)
    requires !Interrupt(w.st, word, r, w.sactive).st.frozen
    ensures
      var o := Interrupt(w.st, word, r, w.sactive);
      Left(w, word, o.sent, SentOnAck(w, word, r), o.st)
  {
    Parts(n, w, word, r);
    InterruptFreezes(n, w, word, r);
    var o := SdbPart(w.st, word, r, w.sactive);
    AckLeaves(n, o.st, word, r);
    if word.sdb {
      SdbLeaves(n, w, word, r);
    } else {
      NoSdbLeaves(w, word, r);
    }
    LeftInTwo(w, word, o.st, o.sent, SentOnAck(w, word, r), RestPart(o.st, word, r).st);
  }

  /** The two parts together. */
  lemma LeftInTwo(w: World, word: Word, mid: State, first: seq<Sent>, ack: seq<Sent>, s: State)
    requires
      if word.sdb then SdbLeft(w, word, mid) && first == SentOnSdb(w)
      else mid == w.st.(flags := w.st.flags + if word.backout then {SawBackout} else {}) && first == []
    requires AckLeft(mid, word, ack, s)
    ensures Left(w, word, first + ack, ack, s)
  {
    SentConcat(first, ack);
    if ack == [] {
      assert first + ack == first;
    } else {
      assert (first + ack)[|first + ack| - 1] == ack[|ack| - 1];
    }
  }

  /** Exactly the commands that left SActive are completed, if an SDB is serviced, and none otherwise;
    * an interrupt that is not serviced and does not freeze changes nothing. */
  lemma InterruptCompletes(n: nat, w: World, word: Word, r: Readings)
    requires Inv(n, w) && Sane(w, word, r)
    ensures
      var o := Interrupt(w.st, word, r, w.sactive);
      && o.done == (if Serviced(w.st, word, r) && word.sdb && !r.dmaErr then w.st.issued - w.sactive else {})
      && (!Serviced(w.st, word, r) && !o.st.frozen ==> o == Outcome(w.st, {}, []))
  {
    if Serviced(w.st, word, r) && word.sdb && !r.dmaErr {
      SdbPartState(n, w, word, r);
    }
  }

  /** A command handed over goes out at once exactly if nothing is at the drive.  Otherwise it waits
    * behind all others, and nothing else changes. */
  lemma SubmitSends(n: nat, w: World, t: nat)
    requires Inv(n, w) && Allowed(n, w, Submit(t))
    ensures
      var r := Next(w, Submit(t));
      if w.st.issued == {} then
        && r.dispatched == w.dispatched + [t] && r.sactive == {t} && r.st.queue == w.st.queue
        && r.st.issued == {t} && r.st.last == t && r.st.dhfis == {} && r.st.flags == w.st.flags
      else
        && r.dispatched == w.dispatched && r.sactive == w.sactive
        && r.st == w.st.(inflight := w.st.inflight + {t}, queue := w.st.queue + [t])
  {
    SentOne(First(t));
  }
}
