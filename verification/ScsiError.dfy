/** The two command lists of the SCSI error handler and the queued commands behind them
  * (libata-eh.c): the sorting loop of ata_scsi_error, ata_eh_finish, and the bounded repetition
  * around the error handler.
  */
module ScsiErrors {
  import opened Libata

  /** A SCSI command, by identity. */
  type Cmd = nat

  datatype Qc = Qc(active: bool, failed: bool, io: bool, senseValid: bool, errMask: set<Err>, cmd: Cmd)

  /** What the error handler leaves in a failed command. */
  datatype Autopsy = Autopsy(errMask: set<Err>, senseValid: bool)

  const ATA_EH_MAX_TRIES: nat := 5

  /** The commands of `q` inside (or outside) a set, in order. */
  function Filter(q: seq<Cmd>, s: set<Cmd>, inside: bool): seq<Cmd> {
    if q == [] then []
    else
      var rest := Filter(q[..|q| - 1], s, inside);
      if (q[|q| - 1] in s) == inside then rest + [q[|q| - 1]] else rest
  }

  /** The commands of the failed tags below k, in tag order. */
  function FailedCmds(qcs: seq<Qc>, k: nat): seq<Cmd>
    requires k <= |qcs|
  {
    if k == 0 then []
    else
      var rest := FailedCmds(qcs, k - 1);
      if qcs[k - 1].failed then rest + [qcs[k - 1].cmd] else rest
  }

  function ActiveCmds(qcs: seq<Qc>): set<Cmd> {
    set i | 0 <= i < |qcs| && qcs[i].active :: qcs[i].cmd
  }

  /** The midlayer's side: a failed command is active, active commands are different, and each is
    * among the commands the error handler was called for. */
  predicate Owned(qcs: seq<Qc>, cmdQ: seq<Cmd>) {
    && Distinct(cmdQ)
    && (forall i :: 0 <= i < |qcs| && qcs[i].failed ==> qcs[i].active)
    && (forall i :: 0 <= i < |qcs| && qcs[i].active ==> qcs[i].cmd in cmdQ)
    && ActivesDiffer(qcs)
  }

  /** ata_eh_finish completes the command for good, instead of having it retried. */
  predicate Completes(qc: Qc) {
    if qc.errMask != {} then Invalid in qc.errMask || (!qc.io && qc.errMask == {Dev})
    else qc.senseValid
  }

  /** A queued command after the sorting loop over the command list. */
  function TimedOut(qc: Qc, cmdQ: seq<Cmd>): Qc {
    if qc.active && !qc.failed && qc.cmd in cmdQ then qc.(failed := true, errMask := qc.errMask + {Timeout})
    else qc
  }

  // ---------------------------------------------------------------------------------------------

  lemma {:induction false} FilterElements(q: seq<Cmd>, s: set<Cmd>, inside: bool)
    ensures forall c :: c in Filter(q, s, inside) <==> c in q && ((c in s) == inside)
    ensures Distinct(q) ==> Distinct(Filter(q, s, inside))
  {
    if q != [] {
      FilterElements(q[..|q| - 1], s, inside);
      assert q == q[..|q| - 1] + [q[|q| - 1]];
    }
  }

  lemma HasMember(q: seq<Cmd>)
    ensures q == [] || exists c :: c in q
  {
    if q != [] {
      assert q[0] in q;
    }
  }

  lemma DistinctConcat(a: seq<Cmd>, b: seq<Cmd>)
    requires Distinct(a) && Distinct(b) && forall c :: c in a ==> c !in b
    ensures Distinct(a + b)
  {
    forall i, j | 0 <= i < j < |a + b|
      ensures (a + b)[i] != (a + b)[j]
    {
      if i < |a| <= j {
        assert (a + b)[i] in a && (a + b)[j] in b;
      }
    }
  }

  lemma {:induction false} FailedElements(qcs: seq<Qc>, cmdQ: seq<Cmd>, k: nat)
    requires k <= |qcs| && Owned(qcs, cmdQ)
    ensures forall c :: c in FailedCmds(qcs, k) <==> exists i :: 0 <= i < k && qcs[i].failed && qcs[i].cmd == c
    ensures Distinct(FailedCmds(qcs, k))
  {
    if k > 0 {
      FailedElements(qcs, cmdQ, k - 1);
      if qcs[k - 1].failed {
        assert qcs[k - 1].cmd !in FailedCmds(qcs, k - 1);
        DistinctConcat(FailedCmds(qcs, k - 1), [qcs[k - 1].cmd]);
      }
    }
  }

  /** Conservation.  Sort the command list, let the handler change masks but not ownership, finish:
    * every command of the list is then on the done list exactly once and none is left. */
  lemma EveryCommandDoneOnce(qcs: seq<Qc>, cmdQ: seq<Cmd>, late: seq<Cmd>, sorted: seq<Qc>)
    requires Owned(qcs, cmdQ)
    requires late == Filter(cmdQ, ActiveCmds(qcs), false)
    requires |sorted| == |qcs|
    requires forall i :: 0 <= i < |qcs| ==>
      && sorted[i].active == qcs[i].active && sorted[i].cmd == qcs[i].cmd
      && sorted[i].failed == TimedOut(qcs[i], cmdQ).failed
    ensures
      var done := late + FailedCmds(sorted, |sorted|);
      && Distinct(done)
      && Elements(done) == Elements(cmdQ)
      && (forall i :: 0 <= i < |sorted| && sorted[i].active ==> sorted[i].failed)
      && Filter(Filter(cmdQ, ActiveCmds(qcs), true), Elements(FailedCmds(sorted, |sorted|)), false) == []
  {
    var kept := Filter(cmdQ, ActiveCmds(qcs), true);
    var failed := FailedCmds(sorted, |sorted|);
    assert Owned(sorted, cmdQ);
    FilterElements(cmdQ, ActiveCmds(qcs), false);
    FilterElements(cmdQ, ActiveCmds(qcs), true);
    FailedElements(sorted, cmdQ, |sorted|);
    forall c | c in cmdQ
      ensures c in failed <==> c in ActiveCmds(qcs)
    {
      if c in ActiveCmds(qcs) {
        var i :| 0 <= i < |qcs| && qcs[i].active && qcs[i].cmd == c;
        assert sorted[i].failed;
      }
    }
    forall c | c in failed
      ensures c in cmdQ
    {
      var i :| 0 <= i < |sorted| && sorted[i].failed && sorted[i].cmd == c;
    }
    DistinctConcat(late, failed);
    FilterElements(kept, Elements(failed), false);
    var left := Filter(kept, Elements(failed), false);
    HasMember(left);
  }

  predicate ActivesDiffer(qcs: seq<Qc>) {
    forall i, j :: 0 <= i < j < |qcs| && qcs[i].active && qcs[j].active ==> qcs[i].cmd != qcs[j].cmd
  }

  /** The queued commands after sorting the list `q`. */
  predicate SortedBy(qcs: seq<Qc>, now: seq<Qc>, q: seq<Cmd>) {
    |now| == |qcs| && forall i :: 0 <= i < |qcs| ==> now[i] == TimedOut(qcs[i], q)
  }

  predicate FreshTimeout(qc: Qc, q: seq<Cmd>) {
    qc.active && !qc.failed && qc.cmd in q
  }

  function WithUsedUp(retries: map<Cmd, nat>, late: seq<Cmd>, allowed: map<Cmd, nat>): map<Cmd, nat> {
    if late == [] then retries
    else
      var c := late[|late| - 1];
      WithUsedUp(retries, late[..|late| - 1], allowed)[c := if c in allowed then allowed[c] else 0]
  }

  /** Sorting one more entry: what the turn sees and leaves in the array. */
  lemma SortedNext(qcs: seq<Qc>, now: seq<Qc>, after: seq<Qc>, q: seq<Cmd>, k: nat)
    requires k < |q| && Distinct(q) && SortedBy(qcs, now, q[..k]) && SortedBy(now, after, [q[k]])
    ensures SortedBy(qcs, after, q[..k + 1])
    ensures AnyFresh(qcs, q[..k + 1]) <==> AnyFresh(qcs, q[..k]) || AnyFresh(now, [q[k]])
  {}

  lemma SortedKeepsActive(qcs: seq<Qc>, now: seq<Qc>, q: seq<Cmd>)
    requires SortedBy(qcs, now, q) && ActivesDiffer(qcs)
    ensures ActiveCmds(now) == ActiveCmds(qcs) && ActivesDiffer(now)
  {}

  /** The two lists, the retry counts and the place of the next entry. */
  datatype Lists = Lists(cmdQ: seq<Cmd>, doneQ: seq<Cmd>, retries: map<Cmd, nat>, pos: nat)

  /** One turn of the sorting loop on the lists. */
  function Turn(l: Lists, hasQc: bool, allowed: map<Cmd, nat>): Lists
    requires l.pos < |l.cmdQ| && l.cmdQ[l.pos] in allowed
  {
    var c := l.cmdQ[l.pos];
    if hasQc then l.(pos := l.pos + 1)
    else
      l.(cmdQ := l.cmdQ[..l.pos] + l.cmdQ[l.pos + 1..], doneQ := l.doneQ + [c],
         retries := l.retries[c := allowed[c]])
  }

  /** The lists with the first k entries of `start.cmdQ` sorted: the entries in `s` stay. */
  function Midway(start: Lists, k: nat, s: set<Cmd>, allowed: map<Cmd, nat>): Lists
    requires k <= |start.cmdQ|
  {
    var kept, late := Filter(start.cmdQ[..k], s, true), Filter(start.cmdQ[..k], s, false);
    Lists(kept + start.cmdQ[k..], start.doneQ + late, WithUsedUp(start.retries, late, allowed), |kept|)
  }

  lemma MidwayStart(start: Lists, qcs: seq<Qc>, allowed: map<Cmd, nat>)
    requires start.pos == 0
    ensures Midway(start, 0, ActiveCmds(qcs), allowed) == start
    ensures SortedBy(qcs, qcs, start.cmdQ[..0]) && !AnyFresh(qcs, start.cmdQ[..0])
  {
    assert start.cmdQ[..0] == [] && start.cmdQ[0..] == start.cmdQ;
    assert start.doneQ + [] == start.doneQ;
  }

  lemma MidwayNext(start: Lists, k: nat, s: set<Cmd>, allowed: map<Cmd, nat>)
    requires k < |start.cmdQ| && start.cmdQ[k] in allowed
    ensures
      var mid := Midway(start, k, s, allowed);
      && mid.pos < |mid.cmdQ| && mid.cmdQ[mid.pos] == start.cmdQ[k]
      && Midway(start, k + 1, s, allowed) == Turn(mid, start.cmdQ[k] in s, allowed)
  {
    var q := start.cmdQ;
    var kept, late := Filter(q[..k], s, true), Filter(q[..k], s, false);
    assert q[..k + 1][..k] == q[..k];
    if q[k] in s {
      assert kept + q[k..] == kept + [q[k]] + q[k + 1..];
    } else {
      assert (kept + q[k..])[..|kept|] + (kept + q[k..])[|kept| + 1..] == kept + q[k + 1..];
      assert (late + [q[k]])[..|late|] == late;
      assert start.doneQ + (late + [q[k]]) == start.doneQ + late + [q[k]];
    }
  }

  /** A queued command that had not failed has timed out. */
  function Expired(qc: Qc): Qc {
    if qc.active && !qc.failed then qc.(failed := true, errMask := qc.errMask + {Timeout}) else qc
  }

  predicate AnyActive(qcs: seq<Qc>) {
    exists i :: 0 <= i < |qcs| && qcs[i].active && !qcs[i].failed
  }

  /** All commands in flight being on the list, every one that had not failed has timed out. */
  lemma SortedMeans(qcs: seq<Qc>, now: seq<Qc>, q: seq<Cmd>)
    requires Owned(qcs, q) && SortedBy(qcs, now, q)
    ensures forall i :: 0 <= i < |qcs| ==> now[i] == Expired(qcs[i])
    ensures AnyFresh(qcs, q) <==> AnyActive(qcs)
  {}

  predicate AnyFresh(qcs: seq<Qc>, q: seq<Cmd>) {
    exists i :: 0 <= i < |qcs| && FreshTimeout(qcs[i], q)
  }

  /** A queued command after an autopsy. */
  function Examined(qc: Qc, found: Autopsy): Qc {
    if qc.failed then qc.(errMask := found.errMask, senseValid := found.senseValid) else qc
  }

  /** A queued command after ata_eh_finish. */
  function Finished(qc: Qc): Qc {
    if qc.failed then qc.(active := false, failed := false, io := false, senseValid := false) else qc
  }

  /** The retry counts after finishing the failed commands below tag k: used up for a command that
    * is completed, one fewer for a retried command that is not to blame itself. */
  function RetriesAfter(qcs: seq<Qc>, k: nat, retries: map<Cmd, nat>, allowed: map<Cmd, nat>): map<Cmd, nat>
    requires k <= |qcs|
  {
    if k == 0 then retries
    else
      var m, qc := RetriesAfter(qcs, k - 1, retries, allowed), qcs[k - 1];
      if !qc.failed then m
      else if Completes(qc) then m[qc.cmd := if qc.cmd in allowed then allowed[qc.cmd] else 0]
      else if qc.errMask == {} && qc.cmd in m && m[qc.cmd] > 0 then m[qc.cmd := m[qc.cmd] - 1]
      else m
  }

  /** A command whose retries are of no use: it was invalid, a command other than I/O the device rejected,
    * or one that failed with nothing but valid sense. */
  predicate NoUse(qc: Qc) {
    || Invalid in qc.errMask || (!qc.io && qc.errMask == {Dev}) || (qc.errMask == {} && qc.senseValid)
  }

  /** The retry count of c after its failed command qc has been finished: all used up if they are of no
    * use, one given back (retries count up) if it was not to blame, and as it was otherwise. */
  predicate RetriesFit(qc: Qc, before: map<Cmd, nat>, after: map<Cmd, nat>, allowed: map<Cmd, nat>) {
    var c := qc.cmd;
    if NoUse(qc) then c in after && after[c] == if c in allowed then allowed[c] else 0
    else
      && (c in after <==> c in before)
      && (c in before ==>
            after[c] == if qc.errMask == {} && before[c] > 0 then before[c] - 1 else before[c])
  }

  predicate SameCount(a: map<Cmd, nat>, b: map<Cmd, nat>, c: Cmd) {
    (c in a <==> c in b) && (c in a ==> a[c] == b[c])
  }

  predicate NotFailedBelow(qcs: seq<Qc>, k: nat, c: Cmd)
    requires k <= |qcs|
  {
    forall i :: 0 <= i < k && qcs[i].failed ==> qcs[i].cmd != c
  }

  lemma RetriesNext(qcs: seq<Qc>, k: nat, retries: map<Cmd, nat>, allowed: map<Cmd, nat>)
    requires 0 < k <= |qcs|
    ensures
      var m, n := RetriesAfter(qcs, k - 1, retries, allowed), RetriesAfter(qcs, k, retries, allowed);
      && (forall c :: c != qcs[k - 1].cmd || !qcs[k - 1].failed ==> SameCount(n, m, c))
      && (qcs[k - 1].failed ==> RetriesFit(qcs[k - 1], m, n, allowed))
  {}

  /** Every failed command's retry count is settled, and no other's is touched. */
  lemma {:induction false} RetriesMean(qcs: seq<Qc>, k: nat, retries: map<Cmd, nat>, allowed: map<Cmd, nat>)
    requires k <= |qcs| && ActivesDiffer(qcs)
    requires forall i :: 0 <= i < |qcs| && qcs[i].failed ==> qcs[i].active
    ensures
      var m := RetriesAfter(qcs, k, retries, allowed);
      && (forall i :: 0 <= i < k && qcs[i].failed ==> RetriesFit(qcs[i], retries, m, allowed))
      && forall c :: NotFailedBelow(qcs, k, c) ==> SameCount(m, retries, c)
  {
    if k > 0 {
      RetriesMean(qcs, k - 1, retries, allowed);
      RetriesNext(qcs, k, retries, allowed);
      var m, n := RetriesAfter(qcs, k - 1, retries, allowed), RetriesAfter(qcs, k, retries, allowed);
      forall i | 0 <= i < k && qcs[i].failed
        ensures RetriesFit(qcs[i], retries, n, allowed)
      {
        if i < k - 1 {
          assert RetriesFit(qcs[i], retries, m, allowed) && SameCount(n, m, qcs[i].cmd);
        } else {
          assert NotFailedBelow(qcs, k - 1, qcs[i].cmd);
          assert SameCount(m, retries, qcs[i].cmd);
        }
      }
      forall c | NotFailedBelow(qcs, k, c)
        ensures SameCount(n, retries, c)
      {
        assert NotFailedBelow(qcs, k - 1, c);
        assert SameCount(m, retries, c) && SameCount(n, m, c);
      }
    }
  }

  /** Every command finished without a queued command has its retries used up, and no other. */
  lemma {:induction false} UsedUpMeans(retries: map<Cmd, nat>, late: seq<Cmd>, allowed: map<Cmd, nat>)
    ensures
      var m := WithUsedUp(retries, late, allowed);
      forall c :: if c in late then c in m && m[c] == (if c in allowed then allowed[c] else 0)
                  else (c in m <==> c in retries) && (c in m ==> m[c] == retries[c])
  {
    if late != [] {
      UsedUpMeans(retries, late[..|late| - 1], allowed);
      assert late == late[..|late| - 1] + [late[|late| - 1]];
    }
  }

  lemma {:induction false} FilterTwice(q: seq<Cmd>, s: set<Cmd>, c: Cmd)
    ensures Filter(Filter(q, s, false), {c}, false) == Filter(q, s + {c}, false)
  {
    if q != [] {
      FilterTwice(q[..|q| - 1], s, c);
      var rest, last := Filter(q[..|q| - 1], s, false), q[|q| - 1];
      assert (rest + [last])[..|rest|] == rest;
    }
  }

  lemma {:induction false} FilterNothing(q: seq<Cmd>)
    ensures Filter(q, {}, false) == q
  {
    if q != [] {
      FilterNothing(q[..|q| - 1]);
    }
  }

  lemma {:induction false} SameFailed(a: seq<Qc>, b: seq<Qc>, k: nat)
    requires k <= |a| == |b|
    requires forall i :: 0 <= i < |a| ==> a[i].failed == b[i].failed && a[i].cmd == b[i].cmd
    ensures FailedCmds(a, k) == FailedCmds(b, k)
  {
    if k > 0 {
      SameFailed(a, b, k - 1);
    }
  }

  lemma {:induction false} NothingFailed(qcs: seq<Qc>, k: nat)
    requires k <= |qcs| && forall i :: 0 <= i < |qcs| ==> !qcs[i].failed
    ensures FailedCmds(qcs, k) == []
  {
    if k > 0 {
      NothingFailed(qcs, k - 1);
    }
  }

  class EhPort {
    const qcmd: array<Qc>
    var ehCmdQ: seq<Cmd>
    var ehDoneQ: seq<Cmd>
    var retries: map<Cmd, nat>
    const allowed: map<Cmd, nat>
    var frozen: bool
    var ehPending: bool
    var ehTries: nat

    constructor (queue: nat, allowed: map<Cmd, nat>)
      ensures fresh(qcmd) && qcmd.Length == queue && ehCmdQ == [] && ehDoneQ == [] && !frozen
      ensures forall i :: 0 <= i < queue ==> !qcmd[i].active && !qcmd[i].failed
    {
      qcmd := new Qc[queue](_ => Qc(false, false, false, false, {}, 0));
      this.allowed := allowed;
      ehCmdQ, ehDoneQ, retries, frozen, ehPending, ehTries := [], [], map[], false, false, 0;
    }

    /** The search for the queued command behind `scmd`: its tag, or the queue size. */
    method FindTag(scmd: Cmd) returns (tag: nat)
      ensures tag <= qcmd.Length
      ensures tag < qcmd.Length ==> qcmd[tag].active && qcmd[tag].cmd == scmd
      ensures tag == qcmd.Length <==> scmd !in ActiveCmds(qcmd[..])
    {
      tag := 0;
      while tag < qcmd.Length && !(qcmd[tag].active && qcmd[tag].cmd == scmd)
        invariant tag <= qcmd.Length
        invariant forall i :: 0 <= i < tag ==> !(qcmd[i].active && qcmd[i].cmd == scmd)
      {
        tag := tag + 1;
      }
      if tag < qcmd.Length {
        assert qcmd[..][tag].active && qcmd[..][tag].cmd == scmd;
      }
    }

    /** One turn of the sorting loop: the entry at `pos` is claimed for the error handler if it has
      * a queued command, and finished otherwise. */
    method SortOne(pos: nat) returns (timedOut: bool, pos': nat)
      requires pos < |ehCmdQ| && ehCmdQ[pos] in allowed && ActivesDiffer(qcmd[..])
      modifies this`ehCmdQ, this`ehDoneQ, this`retries, qcmd
      ensures
        var c := old(ehCmdQ[pos]);
        && Lists(ehCmdQ, ehDoneQ, retries, pos')
             == Turn(old(Lists(ehCmdQ, ehDoneQ, retries, pos)), c in ActiveCmds(old(qcmd[..])), allowed)
        && SortedBy(old(qcmd[..]), qcmd[..], [c])
        && (timedOut <==> AnyFresh(old(qcmd[..]), [c]))
    {
      var scmd := ehCmdQ[pos];
      timedOut, pos' := false, pos;
      var i := FindTag(scmd);
      if i < qcmd.Length {
        ghost var before := qcmd[..];
        assert forall j :: 0 <= j < qcmd.Length && j != i ==> !(before[j].active && before[j].cmd == scmd);
        if !qcmd[i].failed {
          assert FreshTimeout(before[i], [scmd]);
          qcmd[i] := qcmd[i].(errMask := qcmd[i].errMask + {Timeout}, failed := true);
          timedOut := true;
        }
        pos' := pos + 1;
      } else {
        retries := retries[scmd := allowed[scmd]];
        ehCmdQ := ehCmdQ[..pos] + ehCmdQ[pos + 1..];
        ehDoneQ := ehDoneQ + [scmd];
      }
    }

    /** That turn for entry k of the list `start.cmdQ` the loop began with. */
    method SortNext(pos: nat, ghost k: nat, ghost start: Lists, ghost qcs: seq<Qc>) returns (timedOut: bool, pos': nat)
      requires k < |start.cmdQ| && Distinct(start.cmdQ) && ActivesDiffer(qcs)
      requires forall c :: c in start.cmdQ ==> c in allowed
      requires Lists(ehCmdQ, ehDoneQ, retries, pos) == Midway(start, k, ActiveCmds(qcs), allowed)
      requires SortedBy(qcs, qcmd[..], start.cmdQ[..k])
      modifies this`ehCmdQ, this`ehDoneQ, this`retries, qcmd
      ensures Lists(ehCmdQ, ehDoneQ, retries, pos') == Midway(start, k + 1, ActiveCmds(qcs), allowed)
      ensures SortedBy(qcs, qcmd[..], start.cmdQ[..k + 1])
      ensures AnyFresh(qcs, start.cmdQ[..k + 1]) <==> AnyFresh(qcs, start.cmdQ[..k]) || timedOut
    {
      ghost var now := qcmd[..];
      SortedKeepsActive(qcs, now, start.cmdQ[..k]);
      MidwayNext(start, k, ActiveCmds(qcs), allowed);
      timedOut, pos' := SortOne(pos);
      SortedNext(qcs, now, qcmd[..], start.cmdQ, k);
    }

    /** The sorting loop of ata_scsi_error. */
    method SortList() returns (nrTimedout: nat)
      requires Distinct(ehCmdQ) && ActivesDiffer(qcmd[..]) && forall c :: c in ehCmdQ ==> c in allowed
      modifies this`ehCmdQ, this`ehDoneQ, this`retries, qcmd
      ensures
        var start := old(Lists(ehCmdQ, ehDoneQ, retries, 0));
        var end := Midway(start, |start.cmdQ|, ActiveCmds(old(qcmd[..])), allowed);
        ehCmdQ == end.cmdQ && ehDoneQ == end.doneQ && retries == end.retries
      ensures SortedBy(old(qcmd[..]), qcmd[..], old(ehCmdQ))
      ensures nrTimedout > 0 <==> AnyFresh(old(qcmd[..]), old(ehCmdQ))
    {
      ghost var qcs := qcmd[..];
      ghost var start := Lists(ehCmdQ, ehDoneQ, retries, 0);
      nrTimedout := 0;
      var list := ehCmdQ;
      var pos := 0;
      MidwayStart(start, qcs, allowed);
      for k := 0 to |list|
        invariant Lists(ehCmdQ, ehDoneQ, retries, pos) == Midway(start, k, ActiveCmds(qcs), allowed)
        invariant SortedBy(qcs, qcmd[..], list[..k])
        invariant nrTimedout > 0 <==> AnyFresh(qcs, list[..k])
      {
        var timedOut;
        timedOut, pos := SortNext(pos, k, start, qcs);
        if timedOut {
          nrTimedout := nrTimedout + 1;
        }
      }
      assert list[..|list|] == list;
    }

    /** ata_scsi_error up to the error handler: sort out timeouts, and freeze if there are any. */
    method SortTimeouts()
      requires Owned(qcmd[..], ehCmdQ) && forall c :: c in ehCmdQ ==> c in allowed
      modifies this, qcmd
      ensures
        var late := Filter(old(ehCmdQ), ActiveCmds(old(qcmd[..])), false);
        && ehCmdQ == Filter(old(ehCmdQ), ActiveCmds(old(qcmd[..])), true)
        && ehDoneQ == old(ehDoneQ) + late
        && retries == WithUsedUp(old(retries), late, allowed)
      ensures SortedBy(old(qcmd[..]), qcmd[..], old(ehCmdQ))
      ensures frozen <==> old(frozen) || AnyActive(old(qcmd[..]))
      ensures forall i :: 0 <= i < qcmd.Length ==> qcmd[i] == Expired(old(qcmd[i]))
      ensures ehTries == ATA_EH_MAX_TRIES && ehPending == old(ehPending)
    {
      ghost var q := ehCmdQ;
      ghost var qcs := qcmd[..];
      var nrTimedout := SortList();
      SortedMeans(qcs, qcmd[..], q);
      assert q[..|q|] == q && q[|q|..] == [];
      if nrTimedout > 0 {
        frozen := true;
      }
      ehTries := ATA_EH_MAX_TRIES;
    }

    /** scsi_eh_finish_cmd. */
    method FinishCmd(c: Cmd)
      modifies this`ehCmdQ, this`ehDoneQ
      ensures ehCmdQ == Filter(old(ehCmdQ), {c}, false) && ehDoneQ == old(ehDoneQ) + [c]
    {
      ehCmdQ := Filter(ehCmdQ, {c}, false);
      ehDoneQ := ehDoneQ + [c];
    }

    /** ata_eh_qc_complete or ata_eh_qc_retry of one failed command. */
    method FinishTag(tag: nat)
      requires tag < qcmd.Length && qcmd[tag].failed
      modifies this`ehCmdQ, this`ehDoneQ, this`retries, qcmd
      ensures
        var qc := old(qcmd[tag]);
        && qcmd[..] == old(qcmd[..])[tag := Finished(qc)]
        && ehCmdQ == Filter(old(ehCmdQ), {qc.cmd}, false) && ehDoneQ == old(ehDoneQ) + [qc.cmd]
        && retries == RetriesAfter([qc], 1, old(retries), allowed)
    {
      var qc := qcmd[tag];
      if Completes(qc) {
        retries := retries[qc.cmd := if qc.cmd in allowed then allowed[qc.cmd] else 0];
      } else if qc.errMask == {} && qc.cmd in retries && retries[qc.cmd] > 0 {
        retries := retries[qc.cmd := retries[qc.cmd] - 1];
      }
      qcmd[tag] := qc.(active := false, failed := false, io := false, senseValid := false);
      FinishCmd(qc.cmd);
    }

    /** ata_eh_finish. */
    method Finish()
      modifies this`ehCmdQ, this`ehDoneQ, this`retries, qcmd
      ensures
        var failed := FailedCmds(old(qcmd[..]), qcmd.Length);
        && ehCmdQ == Filter(old(ehCmdQ), Elements(failed), false)
        && ehDoneQ == old(ehDoneQ) + failed
        && retries == RetriesAfter(old(qcmd[..]), qcmd.Length, old(retries), allowed)
      ensures forall i :: 0 <= i < qcmd.Length ==> qcmd[i] == Finished(old(qcmd[i]))
    {
      ghost var qcs, q := qcmd[..], ehCmdQ;
      FilterNothing(q);
      assert Elements<Cmd>([]) == {};
      for tag := 0 to qcmd.Length
        invariant ehCmdQ == Filter(q, Elements(FailedCmds(qcs, tag)), false)
        invariant ehDoneQ == old(ehDoneQ) + FailedCmds(qcs, tag)
        invariant retries == RetriesAfter(qcs, tag, old(retries), allowed)
        invariant forall i :: 0 <= i < qcmd.Length ==> qcmd[i] == if i < tag then Finished(qcs[i]) else qcs[i]
      {
        var qc := qcmd[tag];
        if qc.failed {
          ghost var before := Elements(FailedCmds(qcs, tag));
          FilterTwice(q, before, qc.cmd);
          assert Elements(FailedCmds(qcs, tag + 1)) == before + {qc.cmd};
          FinishTag(tag);
        }
      }
      assert qcs[..] == qcs;
    }

    /** What the error handler may do to failed commands: change their error masks and sense. */
    method Autopsies(found: seq<Autopsy>)
      requires |found| == qcmd.Length
      modifies qcmd
      ensures forall i :: 0 <= i < qcmd.Length ==> qcmd[i] == Examined(old(qcmd[i]), found[i])
    {
      for i := 0 to qcmd.Length
        invariant forall j :: i <= j < qcmd.Length ==> qcmd[j] == old(qcmd[j])
        invariant forall j :: 0 <= j < i ==> qcmd[j] == Examined(old(qcmd[j]), found[j])
      {
        if qcmd[i].failed {
          qcmd[i] := qcmd[i].(errMask := found[i].errMask, senseValid := found[i].senseValid);
        }
      }
    }

    /** The error handler of one round, with ata_eh_finish at its end. */
    method HandleErrors(found: seq<Autopsy>)
      requires |found| == qcmd.Length
      modifies this`ehCmdQ, this`ehDoneQ, this`retries, qcmd
      ensures
        var failed := FailedCmds(old(qcmd[..]), qcmd.Length);
        && ehCmdQ == Filter(old(ehCmdQ), Elements(failed), false)
        && ehDoneQ == old(ehDoneQ) + failed
      ensures forall i :: 0 <= i < qcmd.Length ==>
        !qcmd[i].failed && (qcmd[i].active <==> old(qcmd[i]).active && !old(qcmd[i]).failed)
    {
      Autopsies(found);
      SameFailed(old(qcmd[..]), qcmd[..], qcmd.Length);
      Finish();
    }

    /** Every command in `q` is on the done list exactly once and no queued command is left. */
    ghost predicate AllDone(q: seq<Cmd>)
      reads this, qcmd
    {
      && ehCmdQ == [] && Distinct(ehDoneQ) && Elements(ehDoneQ) == Elements(q)
      && forall i :: 0 <= i < qcmd.Length ==> !qcmd[i].failed && !qcmd[i].active
    }

    /** Sorting and the first round of the handler finish every command. */
    method FirstRound(found: seq<Autopsy>)
      requires Owned(qcmd[..], ehCmdQ) && (forall c :: c in ehCmdQ ==> c in allowed)
      requires ehDoneQ == [] && |found| == qcmd.Length
      modifies this, qcmd
      ensures AllDone(old(ehCmdQ)) && ehTries == ATA_EH_MAX_TRIES
    {
      ghost var qcs, q := qcmd[..], ehCmdQ;
      SortTimeouts();
      ghost var sorted := qcmd[..];
      EveryCommandDoneOnce(qcs, q, ehDoneQ, sorted);
      HandleErrors(found);
    }

    /** Further rounds have nothing left to finish. */
    method LaterRound(found: seq<Autopsy>, ghost q: seq<Cmd>)
      requires AllDone(q) && |found| == qcmd.Length
      modifies this`ehCmdQ, this`ehDoneQ, this`retries, qcmd
      ensures AllDone(q)
    {
      NothingFailed(qcmd[..], qcmd.Length);
      HandleErrors(found);
    }

    /** ata_scsi_error.  `found` and `pending` answer, round by round, what the handler finds in the
      * failed commands and whether another exception is pending afterwards. */
    method ScsiError(found: seq<seq<Autopsy>>, pending: seq<bool>) returns (rounds: nat)
      requires Owned(qcmd[..], ehCmdQ) && (forall c :: c in ehCmdQ ==> c in allowed)
      requires ehDoneQ == []
      requires |found| == |pending| == ATA_EH_MAX_TRIES
      requires forall r :: 0 <= r < |found| ==> |found[r]| == qcmd.Length
      modifies this, qcmd
      ensures AllDone(old(ehCmdQ))
      ensures 1 <= rounds <= ATA_EH_MAX_TRIES && !ehPending
      ensures forall r :: 0 <= r < rounds - 1 ==> pending[r]
      ensures rounds < ATA_EH_MAX_TRIES ==> !pending[rounds - 1]
    {
      ghost var q := ehCmdQ;
      FirstRound(found[0]);
      rounds, ehPending := 1, pending[0];
      while ehPending
        invariant 1 <= rounds <= ATA_EH_MAX_TRIES
        invariant AllDone(q)
        invariant ehTries == ATA_EH_MAX_TRIES - (rounds - 1)
        invariant ehPending ==> pending[rounds - 1]
        invariant !ehPending && rounds < ATA_EH_MAX_TRIES ==> !pending[rounds - 1]
        invariant forall r :: 0 <= r < rounds - 1 ==> pending[r]
        decreases ATA_EH_MAX_TRIES - rounds, ehPending
      {
        ehTries := ehTries - 1;
        if ehTries == 0 {
          ehPending := false;
          break;
        }
        LaterRound(found[rounds], q);
        ehPending := pending[rounds];
        rounds := rounds + 1;
      }
    }
  }
}
