/** The driver's own form of the software NCQ scheduler: a port whose fields the handlers update in
  * place, with the loop over the done mask and the circular queue.  Every method is proved to be
  * the corresponding step of the model.
  */
module SwncqPorts {
  import opened Libata
  import opened DeferQueues
  import opened SwncqModel

  /** Retiring the commands one by one or all together is the same. */
  lemma RetireOneMore(s: State, done: set<nat>, i: nat)
    ensures Retire(s, done + {i}) == Retire(Retire(s, done), {i})
  {}

  class Port {
    const n: nat
    const dq: DeferQueue
    var apQcActive: set<nat>
    var qcActive: set<nat>
    var lastIssueTag: nat
    var dhfisBits: set<nat>
    var dmafisBits: set<nat>
    var sdbfisBits: set<nat>
    var ncqFlags: set<Flag>
    var frozen: bool

    ghost const Repr: set<object>

    ghost predicate Valid()
      reads this, dq, dq.tag
    {
      && dq.Valid() && dq.tag.Length == n
      && Repr == {this, dq, dq.tag}
      && (forall t :: t in qcActive ==> t < n)
      && (forall t :: t in apQcActive ==> t < n)
    }

    ghost function State(): State
      reads this, dq, dq.tag
    {
      SwncqModel.State(apQcActive, qcActive, lastIssueTag, dq.Contents(), dhfisBits, dmafisBits, sdbfisBits,
                       ncqFlags, frozen)
    }

    constructor (size: nat)
      requires QueueSize(size)
      ensures Valid() && fresh(Repr) && n == size && State() == INIT
    {
      n := size;
      var q := new DeferQueue(size);
      dq := q;
      apQcActive, qcActive, lastIssueTag := {}, {}, ATA_TAG_POISON;
      dhfisBits, dmafisBits, sdbfisBits, ncqFlags, frozen := {}, {}, {}, {}, false;
      Repr := {this, q, q.tag};
    }

    method FisReinit()
      requires Valid()
      modifies this
      ensures Valid() && State() == SwncqModel.FisReinit(old(State()))
    {
      dhfisBits, dmafisBits, sdbfisBits, ncqFlags := {}, {}, {}, {};
    }

    method PpReinit()
      requires Valid()
      modifies Repr
      ensures Valid() && State() == PortReinit(old(State()))
    {
      dq.Reset();
      qcActive, lastIssueTag := {}, ATA_TAG_POISON;
      FisReinit();
    }

    /** nv_swncq_issue_atacmd with the lookup of its caller: nothing happens without a command. */
    method IssueAtacmd(qc: Option<nat>) returns (issued: Option<nat>)
      requires Valid() && (qc.Some? ==> qc.value < n)
      modifies this
      ensures Valid() && issued == qc
      ensures State() == if qc.None? then old(State()) else Issue(old(State()), qc.value)
    {
      issued := qc;
      if qc.Some? {
        var t := qc.value;
        lastIssueTag := t;
        dhfisBits := dhfisBits - {t};
        dmafisBits := dmafisBits - {t};
        qcActive := qcActive + {t};
      }
    }

    /** ata_qc_from_tag on a port whose commands fail only together with a freeze. */
    function QcFromTag(t: nat): Option<nat>
      reads this
    {
      if t in apQcActive then Some(t) else None
    }

    /** nv_swncq_qc_from_dq with its lookup; its warning stays silent. */
    method QcFromDq() returns (qc: Option<nat>, warn: bool)
      requires Valid()
      modifies Repr
      ensures Valid()
      ensures !warn
      ensures old(State()).queue == [] ==> qc == None && State() == old(State())
      ensures old(State()).queue != [] ==>
        && State() == old(State()).(queue := old(State()).queue[1..])
        && qc == (if old(State()).queue[0] in apQcActive then Some(old(State()).queue[0]) else None)
    {
      var t;
      t, warn := dq.Pop();
      qc := if t.None? then None else QcFromTag(t.value);
    }

    /** libata marks the command in flight, then calls nv_swncq_qc_issue. */
    method QcIssue(t: nat) returns (sent: seq<Sent>)
      requires Valid() && t < n && t !in apQcActive && t !in dq.Contents()
      modifies Repr
      ensures Valid()
      ensures Outcome(State(), {}, sent) == Accept(old(State()), t)
    {
      apQcActive := apQcActive + {t};
      sent := [];
      if qcActive == {} {
        var _ := IssueAtacmd(Some(t));
        sent := [First(t)];
      } else {
        var full := dq.Push(t);
      }
    }

    /** The completion loop of nv_swncq_sdbfis. */
    method CompleteDone(doneMask: set<nat>) returns (done: set<nat>)
      requires Valid()
      modifies this
      ensures Valid()
      ensures done == doneMask * old(apQcActive)
      ensures State() == Retire(old(State()), done)
    {
      done := {};
      for i := 0 to n
        invariant Valid()
        invariant forall t :: t in done <==> t in doneMask && t in old(apQcActive) && t < i
        invariant State() == Retire(old(State()), done)
      {
        if i in doneMask {
          var qc := QcFromTag(i);
          if qc.Some? {
            RetireOneMore(old(State()), done, i);
            apQcActive := apQcActive - {i};
            qcActive := qcActive - {i};
            dhfisBits := dhfisBits - {i};
            dmafisBits := dmafisBits - {i};
            sdbfisBits := sdbfisBits + {i};
            done := done + {i};
          }
        }
      }
    }

    /** nv_swncq_sdbfis. */
    method Sdbfis(sactive: set<nat>, dmaErr: bool) returns (ok: bool, done: set<nat>, sent: seq<Sent>)
      requires Valid()
      modifies Repr
      ensures Valid()
      ensures ok <==> !dmaErr && sactive <= old(qcActive)
      ensures !ok ==> State() == old(State()) && done == {} && sent == []
      ensures ok ==> done == (old(qcActive) - sactive) * old(apQcActive)
      ensures ok ==> Sdb(old(State()), sactive, dmaErr) == Some(Outcome(State(), done, sent))
    {
      done, sent := {}, [];
      if dmaErr {
        return false, done, sent;
      }
      var doneMask := (qcActive - sactive) + (sactive - qcActive);
      assert doneMask * sactive == sactive - qcActive;
      if doneMask * sactive != {} {
        return false, done, sent;
      }
      ok := true;
      assert doneMask == qcActive - sactive;
      done := CompleteDone(doneMask);
      sent := Continue();
    }

    /** The rest of nv_swncq_sdbfis, after its loop. */
    method Continue() returns (sent: seq<Sent>)
      requires Valid()
      modifies Repr
      ensures Valid()
      ensures State() == AfterRetire(old(State())).st && sent == AfterRetire(old(State())).sent
    {
      sent := [];
      NoElements(dq.Contents());
      if apQcActive == {} {
        PpReinit();
        return;
      }
      if qcActive * dhfisBits != {} {
        return;
      }
      var lackDhfis := SawBackout in ncqFlags || (qcActive - dhfisBits) + (dhfisBits - qcActive) != {};
      FisReinit();
      if lackDhfis {
        var qc := QcFromTag(lastIssueTag);
        var issued := IssueAtacmd(qc);
        if issued.Some? {
          sent := [Again(issued.value)];
        }
        return;
      }
      if dq.deferBits != {} {
        var qc, warn := QcFromDq();
        var issued := IssueAtacmd(qc);
        if issued.Some? {
          sent := [First(issued.value)];
        }
      }
    }

    /** nv_swncq_host_interrupt. */
    method HostInterrupt(w: Word, r: Readings, sactive: set<nat>) returns (done: set<nat>, sent: seq<Sent>)
      requires Valid()
      modifies Repr
      ensures Valid()
      ensures Outcome(State(), done, sent) == Interrupt(old(State()), w, r, sactive)
      ensures sent != [] ==> w.sdb || (w.d2h && !w.dmaSetup && !r.busy)
    {
      done, sent := {}, [];
      if !(w.backout || w.sdb || w.d2h || w.dmaSetup || w.hotplug) {
        return;
      }
      if frozen {
        return;
      }
      if w.hotplug {
        frozen := true;
        return;
      }
      if qcActive == {} {
        return;
      }
      if r.scrFails {
        return;
      }
      if r.ataErr {
        frozen := true;
        return;
      }
      if w.backout {
        ncqFlags := ncqFlags + {SawBackout};
      }
      if w.sdb {
        ncqFlags := ncqFlags + {SawSdb};
        var ok;
        ok, done, sent := Sdbfis(sactive, r.dmaErr);
        if !ok {
          frozen := true;
          return;
        }
      }
      var more := Rest(w, r);
      sent := sent + more;
    }

    /** The rest of nv_swncq_host_interrupt, from the D2H bit on. */
    method Rest(w: Word, r: Readings) returns (sent: seq<Sent>)
      requires Valid() && !frozen
      modifies Repr
      ensures Valid()
      ensures State() == RestPart(old(State()), w, r).st && sent == RestPart(old(State()), w, r).sent
      ensures sent != [] ==> w.d2h && !w.dmaSetup && !r.busy
    {
      sent := [];
      NoElements(dq.Contents());
      if w.d2h {
        dhfisBits := dhfisBits + {ShiftBit(lastIssueTag)};
        ncqFlags := ncqFlags + {SawD2h};
        if SawSdb in ncqFlags || SawBackout in ncqFlags {
          frozen := true;
          return;
        }
        if !w.dmaSetup && SawDmas !in ncqFlags {
          if r.busy {
            return;
          }
          if dq.deferBits != {} {
            var qc, warn := QcFromDq();
            var issued := IssueAtacmd(qc);
            if issued.Some? {
              sent := [First(issued.value)];
            }
          }
        }
      }
      if w.dmaSetup {
        dmafisBits := dmafisBits + {ShiftBit(r.dmaTag)};
        ncqFlags := ncqFlags + {SawDmas};
      }
    }
  }
}
