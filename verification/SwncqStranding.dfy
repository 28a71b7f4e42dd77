/** Two concrete runs that strand work when an assumption on the drive is dropped, and what becomes of
  * it: it waits until another command is handed over, and is then overtaken by that one. */
module SwncqStranding {
  import opened Libata
  import opened DeferQueues
  import opened SwncqModel

  const QUIET := Readings(false, false, false, false, 0)
  const D2H_AND_DATA := Word(false, false, true, true, false)
  const D2H_ONLY := Word(false, false, true, false, false)
  const SDB_ONLY := Word(false, true, false, false, false)
  const SDB_AND_D2H := Word(false, true, true, false, false)
  const BACKOUT_ONLY := Word(true, false, false, false, false)

  /** Commands wait, nothing is at the drive and the port is not frozen. */
  predicate Stranded(s: State) {
    s.queue != [] && s.issued == {} && !s.frozen
  }

  /** No interrupt is serviced until another command is handed over: the handler returns on an empty
    * issued set. */
  lemma StrandedUntilSubmit(s: State, w: Word, r: Readings, sactive: set<nat>)
    requires Stranded(s) && !w.hotplug
    ensures Interrupt(s, w, r, sactive) == Outcome(s, {}, [])
  {}

  /** The next command handed over is sent at once, ahead of those that wait ... */
  lemma NextIsSentFirst(s: State, t: nat)
    requires Stranded(s)
    ensures Accept(s, t).sent == [First(t)] && Accept(s, t).st.queue == s.queue
  {}

  /** ... so commands no longer reach the drive in the order libata handed them over. */
  lemma StrandedIsOvertaken(w: World, t: nat)
    requires Stranded(w.st) && History(w) && t != w.st.queue[0]
    ensures
      var r := Next(w, Submit(t));
      |r.dispatched| <= |r.accepted| && r.dispatched != r.accepted[..|r.dispatched|]
  {
    SentFirst(t);
    var r := Next(w, Submit(t));
    var n := |w.dispatched|;
    assert w.accepted[n] == (w.dispatched + w.st.queue)[n] == w.st.queue[0];
    assert r.dispatched[n] == t && r.accepted[n] == w.st.queue[0];
  }

  lemma RunFrom(w: World, events: seq<Event>, i: nat)
    requires i < |events|
    ensures Run(w, events[i..]) == Run(Next(w, events[i]), events[i + 1..])
  {
    assert events[i..][1..] == events[i + 1..];
  }

  lemma SentFirst(t: nat)
    ensures FirstTags([First(t)]) == [t] && SentTags([First(t)]) == {t}
  {
    assert [First(t)][1..] == [];
  }

  // An acknowledgement arriving with the SDB that empties the port marks bit 29 as acknowledged,
  // and that stray bit later hides a deferred command.

  const ACK1 := World(State({0}, {0}, 0, [], {}, {}, {}, {}, false), {0}, [0], [0], multiset{})
  const ACK2 := ACK1.(st := State({0}, {0}, 0, [], {0}, {0}, {}, {SawD2h, SawDmas}, false))
  const ACK3 := ACK2.(sactive := {})
  const ACK4 := World(State({}, {}, ATA_TAG_POISON, [], {29}, {}, {}, {SawD2h}, false), {}, [0], [0], multiset{0})
  const ACK5 := World(State({0}, {0}, 0, [], {29}, {}, {}, {SawD2h}, false), {0}, [0, 0], [0, 0], multiset{0})
  const ACK6 := World(State({0, 1}, {0}, 0, [1], {29}, {}, {}, {SawD2h}, false), {0}, [0, 0, 1], [0, 0], multiset{0})
  const ACK7 := ACK6.(st := State({0, 1}, {0}, 0, [1], {0, 29}, {0}, {}, {SawD2h, SawDmas}, false))
  const ACK8 := ACK7.(sactive := {})

  const ACK_RUN := [
    Submit(0), Irq(D2H_AND_DATA, QUIET), DriveClears({0}), Irq(SDB_AND_D2H, QUIET),
    Submit(0), Submit(1), Irq(D2H_AND_DATA, QUIET), DriveClears({0}), Irq(SDB_ONLY, QUIET)]

  lemma Ack1() ensures Next(START, Submit(0)) == ACK1 { SentFirst(0); }
  lemma Ack2() ensures Next(ACK1, Irq(D2H_AND_DATA, QUIET)) == ACK2 {}
  lemma Ack4()
    ensures Next(ACK3, Irq(SDB_AND_D2H, QUIET)) == ACK4
  {
    var s := ACK3.st.(flags := ACK3.st.flags + {SawSdb});
    assert Retired(s, {}) == {0};
    assert Retire(s, {0}).inflight == {};
    assert SdbPart(ACK3.st, SDB_AND_D2H, QUIET, {}) == Outcome(PortReinit(s.(inflight := {})), {0}, []);
  }

  lemma Ack5() ensures Next(ACK4, Submit(0)) == ACK5 { SentFirst(0); }
  lemma Ack6() ensures Next(ACK5, Submit(1)) == ACK6 {}
  lemma Ack7() ensures Next(ACK6, Irq(D2H_AND_DATA, QUIET)) == ACK7 {}
  lemma Ack9()
    ensures Stranded(Next(ACK8, Irq(SDB_ONLY, QUIET)).st)
  {
    var s := ACK8.st.(flags := ACK8.st.flags + {SawSdb});
    assert Retired(s, {}) == {0};
    assert Retire(s, {0}).issued == {};
    assert Retire(s, {0}).inflight == {1};
    assert Retire(s, {0}).dhfis == {29};
  }

  lemma AcknowledgementAfterEmpty()
    ensures Stranded(Run(START, ACK_RUN).st)
  {
    assert ACK_RUN[0..] == ACK_RUN;
    RunFrom(START, ACK_RUN, 0); Ack1();
    RunFrom(ACK1, ACK_RUN, 1); Ack2();
    RunFrom(ACK2, ACK_RUN, 2);
    RunFrom(ACK3, ACK_RUN, 3); Ack4();
    RunFrom(ACK4, ACK_RUN, 4); Ack5();
    RunFrom(ACK5, ACK_RUN, 5); Ack6();
    RunFrom(ACK6, ACK_RUN, 6); Ack7();
    RunFrom(ACK7, ACK_RUN, 7);
    RunFrom(ACK8, ACK_RUN, 8); Ack9();
  }

  // A command is backed out, the drive nevertheless completes it, and the re-issue that should
  // have restarted the port finds no command.

  const BACK1 := World(State({0}, {0}, 0, [], {}, {}, {}, {}, false), {0}, [0], [0], multiset{})
  const BACK2 := World(State({0, 1}, {0}, 0, [1], {}, {}, {}, {}, false), {0}, [0, 1], [0], multiset{})
  const BACK3 := World(State({0, 1}, {0, 1}, 1, [], {0}, {}, {}, {SawD2h}, false), {0, 1}, [0, 1], [0, 1], multiset{})
  const BACK4 :=
    World(State({0, 1, 2}, {0, 1}, 1, [2], {0}, {}, {}, {SawD2h}, false), {0, 1}, [0, 1, 2], [0, 1], multiset{})
  const BACK5 := BACK4.(st := BACK4.st.(flags := {SawD2h, SawBackout}))
  const BACK6 := BACK5.(sactive := {})

  const BACK_RUN := [
    Submit(0), Submit(1), Irq(D2H_ONLY, QUIET), Submit(2), Irq(BACKOUT_ONLY, QUIET),
    DriveClears({0, 1}), Irq(SDB_ONLY, QUIET)]

  lemma Back1() ensures Next(START, Submit(0)) == BACK1 { SentFirst(0); }
  lemma Back2() ensures Next(BACK1, Submit(1)) == BACK2 {}
  lemma Back3() ensures Next(BACK2, Irq(D2H_ONLY, QUIET)) == BACK3 { SentFirst(1); }
  lemma Back4() ensures Next(BACK3, Submit(2)) == BACK4 {}
  lemma Back5() ensures Next(BACK4, Irq(BACKOUT_ONLY, QUIET)) == BACK5 {}
  lemma Back7()
    ensures Stranded(Next(BACK6, Irq(SDB_ONLY, QUIET)).st)
  {
    var s := BACK6.st.(flags := BACK6.st.flags + {SawSdb});
    assert Retired(s, {}) == {0, 1};
    assert Retire(s, {0, 1}).issued == {};
    assert Retire(s, {0, 1}).inflight == {2};
    assert Retire(s, {0, 1}).dhfis == {};
  }

  lemma BackoutOfACompletedCommand()
    ensures Stranded(Run(START, BACK_RUN).st)
  {
    assert BACK_RUN[0..] == BACK_RUN;
    RunFrom(START, BACK_RUN, 0); Back1();
    RunFrom(BACK1, BACK_RUN, 1); Back2();
    RunFrom(BACK2, BACK_RUN, 2); Back3();
    RunFrom(BACK3, BACK_RUN, 3); Back4();
    RunFrom(BACK4, BACK_RUN, 4); Back5();
    RunFrom(BACK5, BACK_RUN, 5);
    RunFrom(BACK6, BACK_RUN, 6); Back7();
  }
}
