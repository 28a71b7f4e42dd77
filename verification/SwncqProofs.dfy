/** What every run of the software NCQ scheduler keeps. */
module SwncqProofs {
  import opened Libata
  import opened DeferQueues
  import opened SwncqModel

  // ---------------------------------------------------------------------------------------------
  // The state, handler by handler

  /** Accepting a command keeps the state invariant, whichever way the command goes. */
  lemma AcceptState(n: nat, s: State, t: nat)
    requires StateInv(n, s) && t < n && t !in s.inflight
    ensures StateInv(n, Accept(s, t).st)
  {}

  /** Sending the oldest deferred command establishes it, if everything issued is acknowledged. */
  lemma SendDeferredState(n: nat, s: State)
    requires Partition(n, s) && s.queue != [] && s.issued == s.dhfis
    ensures StateInv(n, SendDeferred(s).st)
    ensures SendDeferred(s) == Outcome(Issue(s.(queue := s.queue[1..]), s.queue[0]), {}, [First(s.queue[0])])
  {}

  /** The Set Device Bits retirement: what left SActive is gone, the rest keeps its place. */
  lemma RetireState(n: nat, s: State, sactive: set<nat>)
    requires Partition(n, s) && Acknowledged(s) && sactive <= s.issued
    ensures Retired(s, sactive) == s.issued - sactive
    ensures
      var r := Retire(s, Retired(s, sactive));
      && Partition(n, r) && Acknowledged(r)
      && r.issued == sactive && r.inflight == sactive + Elements(s.queue) && r.dhfis == s.dhfis * sactive
  {}

  /** With nothing acknowledged outstanding, the one issued command is the last one. */
  lemma LastOnly(s: State)
    requires Acknowledged(s) && s.issued * s.dhfis == {} && s.issued != {}
    ensures s.dhfis == {} && s.issued == {s.last}
  {
    assert s.dhfis == s.issued * s.dhfis;
    assert s.issued - s.dhfis == s.issued;
  }

  /** What follows the retirement.  Nothing can go wrong but a pending backout of a command that
    * is no longer active while others wait. */
  lemma AfterRetireState(n: nat, s: State)
    requires Partition(n, s) && Acknowledged(s) && SawSdb in s.flags
    requires s.issued != {} ==> s.last < n
    requires !(SawBackout in s.flags && s.issued == {} && s.queue != [])
    ensures StateInv(n, AfterRetire(s).st)
    ensures AfterRetire(s).done == {}
    ensures AfterRetire(s).st.inflight == s.inflight
    ensures
      || (AfterRetire(s).sent == [] && AfterRetire(s).st.queue == s.queue && AfterRetire(s).st.issued == s.issued)
      || (AfterRetire(s).sent == [Again(s.last)] && AfterRetire(s).st.queue == s.queue
          && s.issued == AfterRetire(s).st.issued == {s.last} && s.dhfis == {})
      || (s.issued == {} && s.queue != [] && AfterRetire(s).st.queue == s.queue[1..]
          && AfterRetire(s).sent == [First(s.queue[0])] && AfterRetire(s).st.issued == {s.queue[0]})
    ensures AfterRetire(s).st.issued == {} <==> s.inflight == {}
  {
    NoElements(s.queue);
    if s.inflight == {} {
    } else if s.issued * s.dhfis != {} {
    } else if s.issued != {} {
      LastOnly(s);
    } else {
      SendDeferredState(n, FisReinit(s));
    }
  }

  /** The D2H handler on a port with something issued: it freezes the port after an SDB or a backout,
    * and otherwise sends the oldest deferred command unless the drive is BSY or a DMA setup was seen. */
  lemma D2hState(n: nat, s: State, w: Word, busy: bool)
    requires StateInv(n, s) && s.issued != {}
    ensures
      var o := D2h(s, w, busy);
      && o.done == {}
      && (o.st.frozen <==> SawSdb in s.flags || SawBackout in s.flags)
      && o.sent == (if !o.st.frozen && !w.dmaSetup && SawDmas !in s.flags && !busy && s.queue != []
                    then [First(s.queue[0])] else [])
      && (!o.st.frozen ==>
            && StateInv(n, o.st)
            && o.st.inflight == s.inflight
            && Feeds(s.queue, o)
            && s.issued + (if o.sent == [] then {} else {o.sent[0].tag}) <= o.st.issued)
  {}

  // ---------------------------------------------------------------------------------------------
  // One step of a run

  /** What `o` sends comes off the front of queue `q`, or is a re-issue. */
  predicate Feeds(q: seq<nat>, o: Outcome) {
    || (o.sent == [] && o.st.queue == q)
    || (|o.sent| == 1 && o.sent[0].Again? && o.st.queue == q)
    || (q != [] && o.sent == [First(q[0])] && o.st.queue == q[1..])
  }

  lemma SentOne(x: Sent)
    ensures FirstTags([x]) == if x.First? then [x.tag] else []
    ensures SentTags([x]) == {x.tag}
  {}

  lemma FeedsInOrder(q: seq<nat>, o: Outcome)
    requires Feeds(q, o)
    ensures FirstTags(o.sent) + o.st.queue == q
    ensures SentTags(o.sent) == if o.sent == [] then {} else {o.sent[0].tag}
  {}

  /** The history absorbs an outcome that feeds from the queue and completes what it takes out of
    * flight. */
  lemma RecordHistory(w: World, o: Outcome)
    requires History(w) && Feeds(w.st.queue, o)
    requires o.done <= w.st.inflight && o.st.inflight == w.st.inflight - o.done
    ensures History(Record(w, o))
    ensures Record(w, o).sactive == w.sactive + (if o.sent == [] then {} else {o.sent[0].tag})
  {
    FeedsInOrder(w.st.queue, o);
    assert w.dispatched + FirstTags(o.sent) + o.st.queue == w.dispatched + w.st.queue;
    assert w.st.inflight == o.done + o.st.inflight;
  }

  /** Recording an outcome that keeps the state invariant keeps the invariant of the run. */
  lemma RecordKeeps(n: nat, w: World, o: Outcome)
    requires Inv(n, w) && Feeds(w.st.queue, o) && StateInv(n, o.st)
    requires o.done <= w.st.inflight && o.st.inflight == w.st.inflight - o.done
    requires w.sactive + (if o.sent == [] then {} else {o.sent[0].tag}) <= o.st.issued
    ensures Inv(n, Record(w, o))
  {
    RecordHistory(w, o);
  }

  /** Handing over a command. */
  lemma SubmitKeeps(n: nat, w: World, t: nat)
    requires Inv(n, w) && Allowed(n, w, Submit(t))
    ensures Inv(n, Next(w, Submit(t)))
  {
    AcceptState(n, w.st, t);
    assert multiset(w.st.inflight + {t}) == multiset(w.st.inflight) + multiset{t};
    if w.st.issued == {} {
      SentOne(First(t));
      assert w.dispatched + [t] == w.accepted + [t];
    } else {
      assert FirstTags([]) == [];
      assert w.dispatched + [] + (w.st.queue + [t]) == w.accepted + [t];
    }
  }

  lemma {:induction false} SentConcat(a: seq<Sent>, b: seq<Sent>)
    ensures FirstTags(a + b) == FirstTags(a) + FirstTags(b)
    ensures SentTags(a + b) == SentTags(a) + SentTags(b)
  {
    if a == [] {
      assert a + b == b;
    } else {
      SentConcat(a[1..], b);
      assert (a + b)[0] == a[0] && (a + b)[1..] == a[1..] + b;
      assert {a[0].tag} + (SentTags(a[1..]) + SentTags(b)) == {a[0].tag} + SentTags(a[1..]) + SentTags(b);
    }
  }

  /** Recording two outcomes in a row is recording them together. */
  lemma RecordTwice(w: World, o: Outcome, p: Outcome, s: State)
    requires p.done == {}
    ensures Record(w, Outcome(s, o.done, o.sent + p.sent)) == Record(Record(w, o), p).(st := s)
  {
    SentConcat(o.sent, p.sent);
    var first, more := FirstTags(o.sent), FirstTags(p.sent);
    assert w.dispatched + (first + more) == w.dispatched + first + more;
    assert w.sactive + (SentTags(o.sent) + SentTags(p.sent)) == w.sactive + SentTags(o.sent) + SentTags(p.sent);
    assert w.completed + multiset(o.done) + multiset{} == w.completed + multiset(o.done);
  }

  /** The state part of the interrupt up to and including the Set Device Bits handler. */
  lemma SdbPartState(n: nat, w: World, word: Word, r: Readings)
    requires StateInv(n, w.st) && w.sactive <= w.st.issued && w.st.issued != {}
    requires word.sdb && !r.dmaErr
    requires !((word.backout || SawBackout in w.st.flags) && w.sactive == {} && w.st.queue != [])
    ensures
      var o := SdbPart(w.st, word, r, w.sactive);
      && StateInv(n, o.st)
      && o.done == w.st.issued - w.sactive
      && o.st.inflight == w.st.inflight - o.done
      && Feeds(w.st.queue, o)
      && w.sactive + (if o.sent == [] then {} else {o.sent[0].tag}) <= o.st.issued
      && (o.st.issued == {} ==> w.sactive == {} && w.st.queue == [])
      && ResendsLive(w, o.sent)
  {
    var s0 := w.st.(flags := (if word.backout then w.st.flags + {SawBackout} else w.st.flags) + {SawSdb});
    RetireState(n, s0, w.sactive);
    var s := Retire(s0, Retired(s0, w.sactive));
    AfterRetireState(n, s);
    NoElements(s.queue);
  }

  /** The interrupt up to and including the Set Device Bits handler. */
  lemma SdbPartKeeps(n: nat, w: World, word: Word, r: Readings)
    requires Inv(n, w) && Reaches(w.st, word, r) && !BackoutOfCompleted(w, word, r)
    ensures
      var o := SdbPart(w.st, word, r, w.sactive);
      && (o.st.frozen <==> word.sdb && r.dmaErr)
      && (!o.st.frozen ==>
            && Inv(n, Record(w, o))
            && o.done == (if word.sdb then w.st.issued - w.sactive else {})
            && (o.st.issued == {} ==> SdbEmptiesDrive(w, word, r) && w.st.queue == []))
      && ResendsLive(w, o.sent)
  {
    var o := SdbPart(w.st, word, r, w.sactive);
    if word.sdb && !r.dmaErr {
      SdbPartState(n, w, word, r);
    }
    if !o.st.frozen {
      RecordHistory(w, o);
    }
  }

  predicate AllFirst(sent: seq<Sent>) {
    forall i :: 0 <= i < |sent| ==> sent[i].First?
  }

  lemma D2hKeeps(n: nat, w: World, word: Word, busy: bool)
    requires Inv(n, w) && w.st.issued != {}
    ensures
      var o := D2h(w.st, word, busy);
      && o.done == {} && AllFirst(o.sent)
      && (!o.st.frozen ==> Inv(n, Record(w, o)))
  {
    D2hState(n, w.st, word, busy);
    var o := D2h(w.st, word, busy);
    if !o.st.frozen {
      RecordKeeps(n, w, o);
    }
  }

  /** The interrupt from the D2H handler on, in a world that has been through the first part. */
  lemma RestKeeps(n: nat, w: World, word: Word, r: Readings)
    requires Inv(n, w) && (word.d2h ==> w.st.issued != {})
    ensures
      var p := RestPart(w.st, word, r);
      && p.done == {} && AllFirst(p.sent)
      && (!p.st.frozen ==> Inv(n, Record(w, p)))
  {
    if word.d2h {
      D2hKeeps(n, w, word, r.busy);
    } else {
      RecordHistory(w, RestPart(w.st, word, r));
    }
  }

  lemma TwoParts(n: nat, w: World, o: Outcome, p: Outcome)
    requires Inv(n, Record(Record(w, o), p)) && p.done == {}
    requires ResendsLive(w, o.sent) && AllFirst(p.sent)
    ensures Inv(n, Record(w, Outcome(p.st, o.done, o.sent + p.sent)))
    ensures ResendsLive(w, o.sent + p.sent)
  {
    RecordTwice(w, o, p, p.st);
  }

  lemma ReachedIrq(n: nat, w: World, word: Word, r: Readings)
    requires Inv(n, w) && Reaches(w.st, word, r)
    requires !BackoutOfCompleted(w, word, r) && !AckAfterEmpty(w, word, r)
    ensures
      var o := Interrupt(w.st, word, r, w.sactive);
      && (!o.st.frozen ==> Inv(n, Record(w, o)) && o.done == if word.sdb then w.st.issued - w.sactive else {})
      && ResendsLive(w, o.sent)
  {
    SdbPartKeeps(n, w, word, r);
    var o := SdbPart(w.st, word, r, w.sactive);
    if !o.st.frozen {
      var p := RestPart(o.st, word, r);
      RestKeeps(n, Record(w, o), word, r);
      if !p.st.frozen {
        TwoParts(n, w, o, p);
      }
    }
  }

  /** An allowed interrupt keeps the invariant unless it freezes the port, completes exactly what
    * left SActive, and re-issues only the live unacknowledged command. */
  lemma IrqKeeps(n: nat, w: World, word: Word, r: Readings)
    requires Inv(n, w)
    requires !BackoutOfCompleted(w, word, r) && !AckAfterEmpty(w, word, r)
    ensures
      var o := Interrupt(w.st, word, r, w.sactive);
      && (!o.st.frozen ==> Inv(n, Next(w, Irq(word, r))))
      && (!o.st.frozen ==>
            o.done == if Reaches(w.st, word, r) && word.sdb then w.st.issued - w.sactive else {})
      && ResendsLive(w, o.sent)
  {
    if Reaches(w.st, word, r) {
      ReachedIrq(n, w, word, r);
    } else {
      RecordHistory(w, Outcome(w.st, {}, []));
    }
  }

  // ---------------------------------------------------------------------------------------------
  // Whole runs

  lemma StepKeeps(n: nat, w: World, e: Event)
    requires Inv(n, w) && Allowed(n, w, e)
    ensures Next(w, e).st.frozen || Inv(n, Next(w, e))
  {
    match e
    case Submit(t) => SubmitKeeps(n, w, t);
    case DriveClears(tags) =>
    case Irq(word, r) => IrqKeeps(n, w, word, r);
  }

  lemma {:induction false} FrozenStays(w: World, events: seq<Event>)
    requires w.st.frozen
    ensures Run(w, events).st.frozen
    decreases |events|
  {
    if events != [] {
      FrozenStays(Next(w, events[0]), events[1..]);
    }
  }

  lemma {:induction false} RunKeeps(n: nat, w: World, events: seq<Event>)
    requires Inv(n, w) && AllowedRun(n, w, events)
    ensures Run(w, events).st.frozen || Inv(n, Run(w, events))
    decreases |events|
  {
    if events != [] {
      StepKeeps(n, w, events[0]);
      if Next(w, events[0]).st.frozen {
        FrozenStays(Next(w, events[0]), events[1..]);
      } else {
        RunKeeps(n, Next(w, events[0]), events[1..]);
      }
    }
  }

  /** Every port state a run reaches without freezing: issued and deferred commands are disjoint
    * and together exactly libata's in-flight commands, work waits only behind issued work, and
    * all issued commands but the last are acknowledged. */
  lemma EveryReachableState(n: nat, events: seq<Event>)
    requires QueueSize(n) && AllowedRun(n, START, events)
    ensures
      var s := Run(START, events).st;
      s.frozen ||
      (&& s.issued !! Elements(s.queue)
       && s.issued + Elements(s.queue) == s.inflight
       && (s.queue != [] ==> s.issued != {})
       && s.dhfis <= s.issued && s.issued - s.dhfis <= {s.last})
  {
    RunKeeps(n, START, events);
  }

  /** Over a whole run every command is completed at most once, and what is not completed is still
    * in flight; commands first reach the drive in the order they were handed over. */
  lemma EveryRunInOrder(n: nat, events: seq<Event>)
    requires QueueSize(n) && AllowedRun(n, START, events)
    ensures
      var w := Run(START, events);
      w.st.frozen ||
      (&& w.dispatched <= w.accepted
       && w.accepted[|w.dispatched|..] == w.st.queue
       && forall t :: w.completed[t] + (if t in w.st.inflight then 1 else 0) == multiset(w.accepted)[t])
  {
    RunKeeps(n, START, events);
    var w := Run(START, events);
    if !w.st.frozen {
      assert w.accepted[..|w.dispatched|] == w.dispatched;
      forall t ensures w.completed[t] + (if t in w.st.inflight then 1 else 0) == multiset(w.accepted)[t] {
        assert (w.completed + multiset(w.st.inflight))[t] == multiset(w.accepted)[t];
      }
    }
  }

  // ---------------------------------------------------------------------------------------------
  // The assumptions on the drive are exact

  lemma AckAfterEmptyBreaks(n: nat, w: World, word: Word, r: Readings)
    requires Inv(n, w) && AckAfterEmpty(w, word, r)
    ensures var s := Interrupt(w.st, word, r, w.sactive).st; !s.frozen && !Acknowledged(s)
  {}

  lemma BackoutOfCompletedBreaks(n: nat, w: World, word: Word, r: Readings)
    requires Inv(n, w) && BackoutOfCompleted(w, word, r)
    ensures
      var o := Interrupt(w.st, word, r, w.sactive);
      !o.st.frozen && (!StateInv(n, o.st) || !ResendsLive(w, o.sent))
  {
    var s0 := w.st.(flags := (if word.backout then w.st.flags + {SawBackout} else w.st.flags) + {SawSdb});
    RetireState(n, s0, w.sactive);
    var s := Retire(s0, Retired(s0, w.sactive));
    NoElements(s.queue);
    var o := SdbPart(w.st, word, r, w.sactive);
    assert o == SendLast(FisReinit(s)).(done := Retired(s0, w.sactive));
    var p := RestPart(o.st, word, r);
    var all := Interrupt(w.st, word, r, w.sactive);
    assert all.sent == o.sent + p.sent && all.st == p.st;
    if s.last in s.inflight {
      assert all.sent[0] == Again(s.last);
    } else {
      assert s.queue[0] in Elements(s.queue);
      assert ShiftBit(s.last) == s.last;
      if word.d2h {
        assert s.last in p.st.dhfis && s.last !in p.st.issued;
      }
    }
  }

  /** One interrupt keeps the invariant and re-issues only the live last command if and only if
    * neither of the two bad cases is serviced; both can be read off before the call. */
  lemma InterruptExact(n: nat, w: World, word: Word, r: Readings)
    requires Inv(n, w) && !Interrupt(w.st, word, r, w.sactive).st.frozen
    ensures
      Inv(n, Next(w, Irq(word, r))) && ResendsLive(w, Interrupt(w.st, word, r, w.sactive).sent)
      <==> !BackoutOfCompleted(w, word, r) && !AckAfterEmpty(w, word, r)
  {
    if BackoutOfCompleted(w, word, r) {
      BackoutOfCompletedBreaks(n, w, word, r);
    } else if AckAfterEmpty(w, word, r) {
      AckAfterEmptyBreaks(n, w, word, r);
    } else {
      IrqKeeps(n, w, word, r);
    }
  }

  /** With any SActive reading: the Set Device Bits handler reports the illegal transition exactly
    * when SActive shows a command that was never issued, and otherwise retires exactly the issued
    * commands that left SActive. */
  lemma SdbExact(n: nat, s: State, sactive: set<nat>)
    requires Partition(n, s)
    ensures Sdb(s, sactive, false) == None <==> !(sactive <= s.issued)
    ensures
      var o := Sdb(s, sactive, false);
      o.Some? ==> o.value.done == s.issued - sactive && o.value.st.inflight == s.inflight - o.value.done
  {}
}
