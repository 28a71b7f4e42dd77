/** sata_pmp_eh_recover (libata-pmp.c): recovery of a port with a port multiplier.
  *
  * The retry loop refills the tries of the fan-out links whenever a multiplier comes online, and
  * one of its retry paths uses up nothing.  It ends all the same: a multiplier can only come back
  * through a probe of the host device, and each device is probed once per session.  But the tries are
  * an array on the stack that is filled for the links of the port only, and a multiplier attached in
  * the pass that detached a smaller one brings links whose tries nobody has written.
  */
module PmpRecovers {
  import opened Libata
  import opened EhRecovers

  const ATA_EH_PMP_TRIES: nat := 5
  const ATA_EH_PMP_LINK_TRIES: nat := 3
  const SATA_PMP_MAX_PORTS: nat := 15

  /** More than all tries together. */
  const ALL_TRIES: nat := ATA_EH_PMP_TRIES + SATA_PMP_MAX_PORTS * ATA_EH_PMP_LINK_TRIES + 1

  /** What the hardware answers in one pass.  `reset` and `revalidation` are asked once per try at
    * the multiplier, the first reset only if one is due; `fan` is what the fan-out links answer, pass
    * by pass of their own recovery. */
  datatype PmpAnswers = PmpAnswers(
    unloading: bool,
    host: nat -> Answers,
    hostAgain: nat -> Answers,
    ports: nat,
    resetDue: bool,
    reset: nat -> Option<Errno>,
    revalidation: nat -> Option<Errno>,
    disabledLinks: Option<Errno>,
    fanNoRetry: nat -> bool,
    fan: nat -> Answers,
    enableNotify: Option<Errno>,
    readErrors: Option<Errno>,
    phyChanged: nat -> bool)

  ghost predicate PortsPossible(answers: nat -> PmpAnswers) {
    forall p :: 0 < answers(p).ports <= SATA_PMP_MAX_PORTS
  }

  function Sum(tries: seq<nat>): nat {
    if tries == [] then 0 else Sum(tries[..|tries| - 1]) + tries[|tries| - 1]
  }

  lemma {:induction false} SumUpdate(tries: seq<nat>, i: nat, v: nat)
    requires i < |tries|
    ensures Sum(tries[i := v]) == Sum(tries) - tries[i] + v
  {
    var n := |tries| - 1;
    if i == n {
      assert tries[i := v][..n] == tries[..n];
    } else {
      SumUpdate(tries[..n], i, v);
      assert tries[i := v][..n] == tries[..n][i := v];
    }
  }

  /** No entry has more than a link's full tries in addition to what it had, if it was there. */
  predicate Refilled(before: seq<nat>, after: seq<nat>) {
    && |before| <= |after|
    && forall i :: 0 <= i < |after| ==> after[i] <= ATA_EH_PMP_LINK_TRIES + if i < |before| then before[i] else 0
  }

  lemma {:induction false} SumRefilled(before: seq<nat>, after: seq<nat>)
    requires Refilled(before, after)
    ensures Sum(after) <= Sum(before) + ATA_EH_PMP_LINK_TRIES * |after|
  {
    if after != [] {
      SumRefilled(if |before| == |after| then before[..|before| - 1] else before, after[..|after| - 1]);
    }
  }

  /** Chances weigh more than all tries together. */
  function Weight(chances: nat, pmpTries: nat, linkTries: nat): nat {
    chances * ALL_TRIES + pmpTries + linkTries
  }

  /** A chance used up makes up for any refill of tries. */
  lemma WeightDrops(chances: nat, pmpTries: nat, links: nat, chances': nat, pmpTries': nat, links': nat)
    requires pmpTries' <= pmpTries && links' <= links + SATA_PMP_MAX_PORTS * ATA_EH_PMP_LINK_TRIES
    requires chances' < chances || (chances' == chances && pmpTries' + links' < pmpTries + links)
    ensures Weight(chances', pmpTries', links') < Weight(chances, pmpTries, links)
  {}

  // ---------------------------------------------------------------------------------------------
  // One pass, as a function of the answers

  /** How the tries at the multiplier end: an error or None, how often it was revalidated, and
    * whether it was found missing. */
  datatype PmpTry = PmpTry(rc: Option<Errno>, attempts: nat, missing: bool)

  /** The tries left after a failed revalidation: a missing multiplier gets at most two more. */
  function TriesAfter(tries: nat, err: Errno): nat
    requires tries > 0
  {
    if err == ENODEV && tries - 1 > 2 then 2 else tries - 1
  }

  /** The k-th try at the multiplier starts with a reset that fails. */
  predicate ResetFails(a: PmpAnswers, k: nat) {
    (k > 0 || a.resetDue) && a.reset(k).Some?
  }

  function TryPmp(a: PmpAnswers, k: nat, tries: nat, missing: bool): PmpTry
    requires tries > 0
    decreases tries
  {
    if ResetFails(a, k) then PmpTry(a.reset(k), k, missing)
    else if a.revalidation(k).None? then PmpTry(None, k + 1, missing)
    else
      var err := a.revalidation(k).value;
      var missing := missing || err == ENODEV;
      if TriesAfter(tries, err) == 0 then PmpTry(Some(err), k + 1, missing)
      else TryPmp(a, k + 1, TriesAfter(tries, err), missing)
  }

  /** At most `tries` attempts are made, all but the last of them in vain, and none after a failed
    * reset; success is a reset and a revalidation that both succeeded. */
  lemma {:induction false} TryPmpMeans(a: PmpAnswers, k: nat, tries: nat, missing: bool)
    requires tries > 0
    ensures
      var r := TryPmp(a, k, tries, missing);
      && k <= r.attempts <= k + tries
      && (forall j :: k <= j < r.attempts ==> !ResetFails(a, j))
      && (forall j :: k <= j < r.attempts - 1 ==> a.revalidation(j).Some?)
      && (r.rc.None? ==> k < r.attempts && a.revalidation(r.attempts - 1).None?)
      && (forall j :: k <= j < r.attempts && a.revalidation(j) == Some(ENODEV) ==> r.attempts <= j + 3)
      && (r.missing <==> missing || exists j :: k <= j < r.attempts && a.revalidation(j) == Some(ENODEV))
    decreases tries
  {
    if !ResetFails(a, k) && a.revalidation(k).Some? {
      var err := a.revalidation(k).value;
      if TriesAfter(tries, err) > 0 {
        TryPmpMeans(a, k + 1, TriesAfter(tries, err), missing || err == ENODEV);
      }
    }
  }

  /** Attempt j is the first that found no multiplier. */
  predicate FirstMissing(a: PmpAnswers, k: nat, j: nat) {
    && k <= j && a.revalidation(j) == Some(ENODEV)
    && forall i :: k <= i < j ==> a.revalidation(i) != Some(ENODEV)
  }

  /** After n attempts the tries are over: there were as many as allowed, or this was the second one
    * after the first that found no multiplier. */
  predicate TriesOver(a: PmpAnswers, k: nat, tries: nat, n: nat) {
    n == k + tries || (n >= 3 && FirstMissing(a, k, n - 3))
  }

  /** A failure is not given up a moment too early: it ends at a reset that fails while tries are left,
    * or with the last try, and every attempt was in vain; the error is the one that ended it. */
  lemma {:induction false} TryPmpExact(a: PmpAnswers, k: nat, tries: nat, missing: bool)
    requires tries > 0
    ensures
      var r := TryPmp(a, k, tries, missing);
      && k <= r.attempts <= k + tries
      && (r.rc.Some? ==>
            && (forall j :: k <= j < r.attempts ==> a.revalidation(j).Some?)
            && if TriesOver(a, k, tries, r.attempts) then k < r.attempts && r.rc == a.revalidation(r.attempts - 1)
               else (r.attempts > 0 || a.resetDue) && r.rc == a.reset(r.attempts))
    decreases tries
  {
    if !ResetFails(a, k) && a.revalidation(k).Some? {
      var err := a.revalidation(k).value;
      var left := TriesAfter(tries, err);
      if left > 0 {
        TryPmpExact(a, k + 1, left, missing || err == ENODEV);
        OverNext(a, k, tries, TryPmp(a, k, tries, missing).attempts);
      }
    }
  }

  lemma OverNext(a: PmpAnswers, k: nat, tries: nat, n: nat)
    requires tries > 0 && a.revalidation(k).Some?
    requires var left := TriesAfter(tries, a.revalidation(k).value); left > 0 && k < n <= k + 1 + left
    ensures TriesOver(a, k, tries, n) <==> TriesOver(a, k + 1, TriesAfter(tries, a.revalidation(k).value), n)
  {
    assert n >= 3 && n - 3 > k && a.revalidation(k).value != ENODEV ==>
      (FirstMissing(a, k, n - 3) <==> FirstMissing(a, k + 1, n - 3));
  }

  /** None of the tries finds the multiplier missing or fails to reset it. */
  predicate NeverMissing(a: PmpAnswers, tries: nat) {
    forall j :: 0 <= j < tries ==> a.revalidation(j) != Some(ENODEV) && ((j > 0 || a.resetDue) ==> a.reset(j).None?)
  }

  /** So if no try finds the multiplier missing or fails to reset it, it is kept exactly if one of them
    * succeeds. */
  lemma KeptIfAnyTry(a: PmpAnswers, tries: nat)
    requires tries > 0 && NeverMissing(a, tries)
    ensures TryPmp(a, 0, tries, false).rc.None? <==> exists j :: 0 <= j < tries && a.revalidation(j).None?
  {
    TryPmpMeans(a, 0, tries, false);
    TryPmpExact(a, 0, tries, false);
  }

  /** The multiplier has been reset in the course of these tries. */
  predicate WasReset(a: PmpAnswers, attempts: nat) {
    attempts > 1 || (attempts == 1 && a.resetDue)
  }

  /** The fan-out devices once a probe of each is asked for. */
  function ToProbe(devs: seq<Device>): seq<Device> {
    seq(|devs|, l requires 0 <= l < |devs| => devs[l].(probe := true))
  }

  lemma ToProbeTwice(devs: seq<Device>)
    ensures ToProbe(ToProbe(devs)) == ToProbe(devs)
  {}

  /** The multiplier's device after the tries. */
  function TriedDevice(d: Device, r: PmpTry): Device {
    var d := if r.missing then d.(probe := true) else d;
    if r.rc.None? then d else if r.missing then Detached(d) else d.(cls := DisabledClass(d.cls))
  }

  /** What a pass does after the fan-out links. */
  datatype Next = Finish | Repeat | PmpFail(err: Errno)

  /** A recovery of the fan-out links: how it ended, in which of its passes, and the devices before
    * and after that pass. */
  datatype FanRun = FanRun(exit: Exit, pass: nat, last: seq<Device>, after: seq<Device>)

  const NO_RUN := FanRun(Unloaded, 0, [], [])

  /** What the end of a recovery of n fan-out links means for its last pass. */
  ghost predicate FanFits(run: FanRun, a: PmpAnswers, n: nat) {
    var last := a.fan(run.pass);
    match run.exit
    case Unloaded => last.unloading
    case Recovered => |run.after| == n && AllAnswered(run.last, run.after, 0, n, last, false)
    case ResetFailed(l, err) => l < n && last.reset(l) == Some(err)
    case FrozenFanOut(l, err) => l < n && last.frozen(l) && l < |run.last| && Blames(run.last[l], l, last, false, err)
    case PmpAttached => false
  }

  predicate FanFailed(run: FanRun) {
    run.exit.ResetFailed? || run.exit.FrozenFanOut?
  }

  /** The link loses a try in a pass over n links that got as far as the fan-out links. */
  predicate LosesTry(a: PmpAnswers, run: FanRun, n: nat, l: nat) {
    if FanFailed(run) then l == run.exit.link
    else a.enableNotify.None? && a.readErrors.None? && l < n && a.phyChanged(l)
  }

  /** The multiplier and all of its n links have been recovered in a pass, or the port is unloading. */
  ghost predicate AllRecovered(a: PmpAnswers, run: FanRun, n: nat) {
    TryPmp(a, 0, ATA_EH_PMP_TRIES, false).rc.None? && FanFits(run, a, n) && !FanFailed(run)
  }

  predicate ToRepeat(a: PmpAnswers, n: nat, tries: seq<nat>)
    requires n <= |tries|
  {
    exists l :: 0 <= l < n && a.phyChanged(l) && tries[l] > 1
  }

  function FanOutNext(a: PmpAnswers, run: FanRun, n: nat, tries: seq<nat>): Next
    requires n <= |tries|
  {
    if FanFailed(run) then if run.exit.link < n && tries[run.exit.link] > 1 then Repeat else PmpFail(run.exit.err)
    else if a.enableNotify.Some? || a.readErrors.Some? then PmpFail(EIO)
    else if ToRepeat(a, n, tries) then Repeat
    else Finish
  }

  function AttachedNext(a: PmpAnswers, run: FanRun, n: nat, tries: seq<nat>): Next
    requires n <= |tries|
  {
    var r := TryPmp(a, 0, ATA_EH_PMP_TRIES, false);
    if r.rc.Some? then PmpFail(r.rc.value)
    else if a.disabledLinks.Some? then PmpFail(a.disabledLinks.value)
    else FanOutNext(a, run, n, tries)
  }

  /** A device that a multiplier just online may have behind one of its links. */
  const NEWCOMER := Device(Unknown, 0, false, false, false)

  function OneLess(tries: nat): nat {
    if tries > 0 then tries - 1 else 0
  }

  /** A link's device after its PHY changed: to be probed, or disabled with its link. */
  function AfterChange(d: Device, tries: nat): Device {
    if tries > 1 then d.(probe := true) else d.(cls := DisabledClass(d.cls))
  }

  /** A link that may be tried again gets its device back at the next recovery, if it is disabled and has
    * not been probed in this session; one that may not loses it. */
  lemma ChangeMeans(d: Device, tries: nat, noRetry: bool)
    ensures tries > 1 && !ClassEnabled(d.cls) && !d.probed ==> Prepared(AfterChange(d, tries), noRetry).cls == Unknown
    ensures tries <= 1 ==> !ClassEnabled(AfterChange(d, tries).cls)
    ensures tries > 1 ==> AfterChange(d, tries).cls == d.cls
  {}

  /** The hardware answers so well in this pass that only changed PHYs are left to deal with. */
  ghost predicate Smooth(a: PmpAnswers) {
    && TryPmp(a, 0, ATA_EH_PMP_TRIES, false).rc.None?
    && a.disabledLinks.None? && a.enableNotify.None? && a.readErrors.None?
    && forall p, l :: a.fan(p).reset(l).None? && !a.fan(p).frozen(l)
  }

  /** A multiplier is attached in place of the one just detached, whose device was d. */
  predicate Replaced(d: Device, noRetry: nat -> bool, a: PmpAnswers) {
    PmpThere(Prepared(Detached(d), noRetry(0)), a.hostAgain(0))
  }

  /** A pass in which nothing goes wrong but that PHYs change: d is the host device before it. */
  ghost predicate GoesOn(d: Device, noRetry: nat -> bool, a: PmpAnswers) {
    Smooth(a) && (d.detach ==> Replaced(d, noRetry, a))
  }

  /** In the first pass a multiplier with more links is attached in place of the one being detached,
    * whose device is d, and in every pass the PHY of the first link it has in addition changes. */
  ghost predicate Overruns(d: Device, links: nat, noRetry: nat -> bool, answers: nat -> PmpAnswers) {
    && d.detach && 0 < links < SATA_PMP_MAX_PORTS && answers(0).ports > links
    && Replaced(d, noRetry, answers(0))
    && forall p :: Smooth(answers(p)) && answers(p).phyChanged(links)
  }

  /** ata_eh_recover on links with one device each. */
  method RecoverFan(devices: seq<Device>, a: PmpAnswers) returns (after: seq<Device>, exit: Exit, ghost run: FanRun)
    requires devices != [] && AllReady(devices) && NoPmp(devices)
    ensures |after| == |devices| && AllReady(after) && NoPmp(after)
    ensures run.exit == exit && run.after == after && FanFits(run, a, |devices|)
  {
    var fan := OneDeviceLinks(devices);
    exit, run := RunFan(fan, a);
    after := fan.devs;
  }

  method RunFan(fan: Recovery, a: PmpAnswers) returns (exit: Exit, ghost run: FanRun)
    requires fan.Valid() && NoPmp(fan.devs) && fan.fanOut && !fan.pmpCapable && |fan.first| == |fan.devs| + 1
    requires forall l :: 0 <= l < |fan.first| ==> fan.first[l] == l
    modifies fan
    ensures AllReady(fan.devs) && NoPmp(fan.devs) && |fan.devs| == |old(fan.devs)|
    ensures run.exit == exit && run.after == fan.devs && FanFits(run, a, |fan.devs|)
  {
    var passes;
    ghost var last;
    exit, passes, last := fan.Recover(a.fanNoRetry, a.fan);
    run := FanRun(exit, passes - 1, last, fan.devs);
  }

  method OneDeviceLinks(devices: seq<Device>) returns (fan: Recovery)
    requires AllReady(devices)
    ensures fan.Valid() && fresh(fan) && fan.devs == devices && |fan.first| == |devices| + 1
    ensures forall l :: 0 <= l < |fan.first| ==> fan.first[l] == l
    ensures fan.fanOut && !fan.pmpCapable
  {
    var links := seq(|devices| + 1, l => l);
    assert links[0] == 0 && links[|links| - 1] == |devices|;
    fan := new Recovery(devices, links, true, false);
  }

  class PmpPort {
    const host: Recovery
    var nrPmpLinks: nat
    var pmpTries: nat
    const linkTries: array<nat>
    const disabled: array<bool>
    var fanDevs: seq<Device>

    /** The loop reads no entry of linkTries from here on, unless it has written it. */
    ghost var counted: nat

    /** A multiplier is attached exactly when the host device is one; it has a device per link.  A
      * link's tries are the bits of an int read as a number, and may be anything. */
    ghost predicate Valid()
      reads this, host
    {
      && host.Valid() && host.pmpCapable
      && linkTries.Length == SATA_PMP_MAX_PORTS && disabled.Length == SATA_PMP_MAX_PORTS
      && nrPmpLinks <= SATA_PMP_MAX_PORTS && counted <= SATA_PMP_MAX_PORTS
      && (nrPmpLinks > 0 <==> host.devs[0].cls == Pmp)
      && (nrPmpLinks > 0 ==> |fanDevs| == nrPmpLinks) && AllReady(fanDevs) && NoPmp(fanDevs)
    }

    /** The links of the port: the fan-out links, or the host link. */
    function Links(): nat
      reads this
    {
      if nrPmpLinks > 0 then nrPmpLinks else 1
    }

    /** The tries of all links of the port are counted. */
    ghost predicate Counted()
      reads this, host
    {
      Valid() && Links() <= counted
    }

    /** A multiplier is to be detached, and the host device probed again. */
    ghost predicate Exposed()
      reads this, host
      requires |host.devs| > 0
    {
      nrPmpLinks > 0 && host.devs[0].detach && ProbeDue(host.devs[0])
    }

    /** Nothing stood in the way of the end of a pass: the disabled links, the notification and the
      * error register were dealt with, and a link whose PHY changed again has been given up. */
    ghost predicate Checked(a: PmpAnswers)
      reads this, disabled
      requires nrPmpLinks <= disabled.Length && disabled.Length > 0
    {
      && a.disabledLinks.None? && a.enableNotify.None? && a.readErrors.None?
      && forall l :: 0 <= l < Links() && a.phyChanged(l) ==> disabled[l]
    }

    /** How much the loop can still do: chances for a multiplier to come online first. */
    ghost function Chances(): nat
      reads this, host
      requires |host.devs| > 0
    {
      2 * AttachBudget(host.devs[0]) + if nrPmpLinks > 0 then 1 else 0
    }

    /** The tries left to the links that count. */
    ghost function Tries(): nat
      reads this, linkTries
      requires counted <= linkTries.Length
    {
      Sum(linkTries[..counted])
    }

    ghost function Left(): nat
      reads this, host, linkTries
      requires |host.devs| > 0 && counted <= linkTries.Length
    {
      Weight(Chances(), pmpTries, Tries())
    }

    constructor (host: Recovery, ports: nat)
      requires host.Valid() && host.pmpCapable && ports <= SATA_PMP_MAX_PORTS
      requires ports > 0 <==> host.devs[0].cls == Pmp
      ensures Valid() && this.host == host && nrPmpLinks == ports
    {
      this.host := host;
      nrPmpLinks, pmpTries, fanDevs, counted := ports, 0, seq(ports, _ => NEWCOMER), 0;
      linkTries := new nat[SATA_PMP_MAX_PORTS](_ => 0);
      disabled := new bool[SATA_PMP_MAX_PORTS](_ => false);
    }

    /** Fresh tries for the links of the port: the host link, or the fan-out links. */
    method FillTries()
      requires Valid()
      modifies linkTries, this`counted
      ensures Counted() && counted == if old(counted) < Links() then Links() else old(counted)
      ensures forall m :: 0 <= m < SATA_PMP_MAX_PORTS ==>
        linkTries[m] == if m < Links() then ATA_EH_PMP_LINK_TRIES else old(linkTries[m])
      ensures Tries() <= old(Tries()) + SATA_PMP_MAX_PORTS * ATA_EH_PMP_LINK_TRIES
    {
      ghost var before := linkTries[..counted];
      for l := 0 to Links()
        invariant counted == old(counted)
        invariant forall m :: 0 <= m < SATA_PMP_MAX_PORTS ==>
          linkTries[m] == if m < l then ATA_EH_PMP_LINK_TRIES else old(linkTries[m])
      {
        linkTries[l] := ATA_EH_PMP_LINK_TRIES;
      }
      counted := if counted < Links() then Links() else counted;
      SumRefilled(before, linkTries[..counted]);
    }

    /** sata_pmp_detach, followed by detaching or disabling the device. */
    method Drop(detach: bool)
      requires Valid()
      modifies this`nrPmpLinks, host
      ensures Valid() && nrPmpLinks == 0
      ensures
        var d := old(host.devs[0]);
        host.devs == old(host.devs)[0 := if detach then Detached(d) else d.(cls := DisabledClass(d.cls))]
    {
      nrPmpLinks := 0;
      var d := host.devs[0];
      host.devs := host.devs[0 := if detach then Detached(d) else d.(cls := DisabledClass(d.cls))];
    }

    /** The multiplier has been reset, and its error bits cannot be trusted: probe all its links. */
    method ScheduleProbes()
      requires Valid() && nrPmpLinks > 0
      modifies this`fanDevs
      ensures Valid() && fanDevs == ToProbe(old(fanDevs))
    {
      for l := 0 to nrPmpLinks
        invariant Valid() && |fanDevs| == |old(fanDevs)|
        invariant forall m :: 0 <= m < |fanDevs| ==>
          fanDevs[m] == if m < l then old(fanDevs)[m].(probe := true) else old(fanDevs)[m]
      {
        fanDevs := fanDevs[l := fanDevs[l].(probe := true)];
      }
    }

    /** The k-th try at the multiplier: a reset if one is due, then the revalidation. */
    method TryPmpOnce(a: PmpAnswers, k: nat) returns (rc: Option<Errno>, gaveUp: bool)
      requires Valid() && nrPmpLinks > 0
      modifies this`fanDevs
      ensures Valid()
      ensures gaveUp <==> ResetFails(a, k)
      ensures rc == if gaveUp then a.reset(k) else a.revalidation(k)
      ensures fanDevs == if !gaveUp && (k > 0 || a.resetDue) then ToProbe(old(fanDevs)) else old(fanDevs)
    {
      if k > 0 || a.resetDue {
        rc := a.reset(k);
        if rc.Some? {
          return rc, true;
        }
        ScheduleProbes();
      }
      return a.revalidation(k), false;
    }

    /** The retry loop of sata_pmp_eh_recover_pmp. */
    method TryPmpAgain(a: PmpAnswers) returns (rc: Option<Errno>, missing: bool)
      requires Valid() && nrPmpLinks > 0
      modifies this`fanDevs, host
      ensures Valid()
      ensures
        var d := old(host.devs[0]);
        var r := TryPmp(a, 0, ATA_EH_PMP_TRIES, false);
        && rc == r.rc && missing == r.missing
        && host.devs == old(host.devs)[0 := if missing then d.(probe := true) else d]
        && fanDevs == if WasReset(a, r.attempts) then ToProbe(old(fanDevs)) else old(fanDevs)
    {
      missing := false;
      var tries, k := ATA_EH_PMP_TRIES, 0;
      while true
        invariant Valid() && tries > 0
        invariant
          var d := old(host.devs[0]);
          host.devs == old(host.devs)[0 := if missing then d.(probe := true) else d]
        invariant fanDevs == if WasReset(a, k) then ToProbe(old(fanDevs)) else old(fanDevs)
        invariant TryPmp(a, k, tries, missing) == TryPmp(a, 0, ATA_EH_PMP_TRIES, false)
        decreases tries
      {
        ToProbeTwice(old(fanDevs));
        var gaveUp;
        rc, gaveUp := TryPmpOnce(a, k);
        if gaveUp || rc.None? {
          return;
        }
        tries := tries - 1;
        if rc.value == ENODEV {
          host.devs := host.devs[0 := host.devs[0].(probe := true)];
          missing := true;
          tries := if tries < 2 then tries else 2;
        }
        if tries == 0 {
          return;
        }
        k := k + 1;
      }
    }

    /** sata_pmp_eh_recover_pmp.  A multiplier to be detached is dropped, with success. */
    method RecoverPmp(a: PmpAnswers) returns (rc: Option<Errno>)
      requires Valid() && nrPmpLinks > 0
      modifies this`nrPmpLinks, this`fanDevs, host
      ensures Valid()
      ensures
        var d := old(host.devs[0]);
        var r := TryPmp(a, 0, ATA_EH_PMP_TRIES, false);
        if d.detach then
          rc.None? && nrPmpLinks == 0 && host.devs == old(host.devs)[0 := Detached(d)] && fanDevs == old(fanDevs)
        else
          && rc == r.rc && host.devs == old(host.devs)[0 := TriedDevice(d, r)]
          && nrPmpLinks == (if rc.None? then old(nrPmpLinks) else 0)
          && fanDevs == if WasReset(a, r.attempts) then ToProbe(old(fanDevs)) else old(fanDevs)
      ensures !old(host.devs[0].detach) && NeverMissing(a, ATA_EH_PMP_TRIES) ==>
        (nrPmpLinks > 0 <==> exists j :: 0 <= j < ATA_EH_PMP_TRIES && a.revalidation(j).None?)
    {
      if host.devs[0].detach {
        Drop(true);
        return None;
      }
      var missing;
      rc, missing := TryPmpAgain(a);
      if NeverMissing(a, ATA_EH_PMP_TRIES) {
        KeptIfAnyTry(a, ATA_EH_PMP_TRIES);
      }
      if rc.Some? {
        Drop(missing);
      }
    }

    /** sata_pmp_handle_link_fail: another try for the link costs one of its tries.  Without a
      * multiplier the only link is the host's. */
    method HandleLinkFail(l: nat) returns (again: bool)
      requires Counted() && l < Links()
      modifies linkTries, disabled, host, this`fanDevs
      ensures Counted()
      ensures again <==> old(linkTries[l]) > 1
      ensures forall m :: 0 <= m < SATA_PMP_MAX_PORTS ==>
        linkTries[m] == if m == l then OneLess(old(linkTries[m])) else old(linkTries[m])
      ensures forall m :: 0 <= m < SATA_PMP_MAX_PORTS ==> disabled[m] == (old(disabled[m]) || (m == l && !again))
      ensures
        var d := old(host.devs[0]);
        host.devs == old(host.devs)[0 := if !again && nrPmpLinks == 0 then d.(cls := DisabledClass(d.cls)) else d]
      ensures fanDevs == if again || nrPmpLinks == 0 then old(fanDevs)
                         else old(fanDevs)[l := old(fanDevs)[l].(cls := DisabledClass(old(fanDevs)[l].cls))]
      ensures Tries() == old(Tries()) - old(linkTries[l]) + OneLess(old(linkTries[l]))
    {
      SumUpdate(linkTries[..counted], l, OneLess(linkTries[l]));
      ghost var before := linkTries[..];
      if linkTries[l] > 0 {
        linkTries[l] := linkTries[l] - 1;
      }
      assert linkTries[..] == before[l := OneLess(before[l])];
      assert linkTries[..counted] == before[..counted][l := OneLess(before[l])];
      if linkTries[l] > 0 {
        return true;
      }
      disabled[l] := true;
      if nrPmpLinks == 0 {
        host.devs := host.devs[0 := host.devs[0].(cls := DisabledClass(host.devs[0].cls))];
      } else {
        fanDevs := fanDevs[l := fanDevs[l].(cls := DisabledClass(fanDevs[l].cls))];
      }
      again := false;
    }

    /** The check of the multiplier's error register: how many links are to be recovered again. */
    method RecheckLinks(a: PmpAnswers) returns (cnt: nat)
      requires Counted()
      modifies linkTries, disabled, host, this`fanDevs
      ensures Counted()
      ensures RecheckedTo(Links(), a, old(linkTries[..]), old(host.devs[0]), old(fanDevs))
      ensures cnt > 0 <==> ToRepeat(a, Links(), old(linkTries[..]))
      ensures Tries() + cnt <= old(Tries())
    {
      cnt := 0;
      ghost var before := linkTries[..];
      for l := 0 to Links()
        invariant RecheckedTo(l, a, before, old(host.devs[0]), old(fanDevs))
        invariant cnt > 0 <==> ToRepeat(a, l, before)
        invariant Tries() + cnt <= old(Tries())
      {
        var again := RecheckOne(l, a, before, old(host.devs[0]), old(fanDevs));
        if again {
          cnt := cnt + 1;
        }
      }
    }

    /** The first k links have been through the check, and the others and their devices are as they
      * were.  The host device stands for the host link, if no multiplier is attached. */
    ghost predicate RecheckedTo(k: nat, a: PmpAnswers, tries: seq<nat>, d: Device, devs: seq<Device>)
      reads this, host, linkTries, disabled
    {
      && Counted() && |tries| == SATA_PMP_MAX_PORTS && |fanDevs| == |devs|
      && (forall m :: 0 <= m < |tries| ==>
            linkTries[m] == if m < k && a.phyChanged(m) then OneLess(tries[m]) else tries[m])
      && (forall m :: 0 <= m < k && m < |tries| && a.phyChanged(m) && tries[m] <= 1 ==> disabled[m])
      && host.devs == [if nrPmpLinks == 0 && k > 0 && a.phyChanged(0) then AfterChange(d, tries[0]) else d]
      && forall m :: 0 <= m < |devs| ==>
           fanDevs[m] == if nrPmpLinks > 0 && m < k && m < |tries| && a.phyChanged(m)
                         then AfterChange(devs[m], tries[m]) else devs[m]
    }

    /** One link of that check.  A link to be recovered again is probed. */
    method RecheckOne(l: nat, a: PmpAnswers, ghost tries: seq<nat>, ghost d: Device, ghost devs: seq<Device>)
      returns (again: bool)
      requires Counted() && l < Links() && RecheckedTo(l, a, tries, d, devs)
      modifies linkTries, disabled, host, this`fanDevs
      ensures RecheckedTo(l + 1, a, tries, d, devs)
      ensures again <==> a.phyChanged(l) && tries[l] > 1
      ensures Tries() + (if again then 1 else 0) <= old(Tries())
    {
      again := false;
      if a.phyChanged(l) {
        again := LinkChanged(l);
      }
    }

    /** A link whose PHY changed: it is probed if it may be tried again. */
    method LinkChanged(l: nat) returns (again: bool)
      requires Counted() && l < Links()
      modifies linkTries, disabled, host, this`fanDevs
      ensures Counted()
      ensures again <==> old(linkTries[l]) > 1
      ensures forall m :: 0 <= m < SATA_PMP_MAX_PORTS ==>
        linkTries[m] == if m == l then OneLess(old(linkTries[m])) else old(linkTries[m])
      ensures forall m :: 0 <= m < SATA_PMP_MAX_PORTS ==> disabled[m] == (old(disabled[m]) || (m == l && !again))
      ensures host.devs == [if nrPmpLinks > 0 then old(host.devs[0])
                            else AfterChange(old(host.devs[0]), old(linkTries[l]))]
      ensures fanDevs == if nrPmpLinks == 0 then old(fanDevs)
                         else old(fanDevs)[l := AfterChange(old(fanDevs)[l], old(linkTries[l]))]
      ensures Tries() + (if again then 1 else 0) <= old(Tries())
    {
      again := HandleLinkFail(l);
      if again {
        Hotplugged(l);
      }
    }

    /** ata_ehi_hotplugged, as far as it asks for a probe. */
    method Hotplugged(l: nat)
      requires Counted() && l < Links()
      modifies host, this`fanDevs
      ensures Counted()
      ensures host.devs == if nrPmpLinks == 0 then old(host.devs)[0 := old(host.devs)[0].(probe := true)]
                           else old(host.devs)
      ensures fanDevs == if nrPmpLinks > 0 then old(fanDevs)[l := old(fanDevs)[l].(probe := true)] else old(fanDevs)
    {
      if nrPmpLinks == 0 {
        host.devs := host.devs[0 := host.devs[0].(probe := true)];
      } else {
        fanDevs := fanDevs[l := fanDevs[l].(probe := true)];
      }
    }

    /** Recovery of the host link while no multiplier is attached.  If one comes `online`, it has
      * used up a chance; a host device at rest brings none, one that answers does. */
    method RecoverHost(noRetry: nat -> bool, answers: nat -> Answers, ports: nat)
      returns (rc: Option<Errno>, online: bool)
      requires Valid() && nrPmpLinks == 0 && 0 < ports <= SATA_PMP_MAX_PORTS
      modifies this`nrPmpLinks, this`fanDevs, host
      ensures Valid() && nrPmpLinks == (if online then ports else 0) && (online ==> rc.None?)
      ensures online ==> fanDevs == seq(ports, _ => NEWCOMER)
      ensures AttachBudget(host.devs[0]) + (if online then 1 else 0) <= AttachBudget(old(host.devs[0]))
      ensures online ==> !Resting(old(host.devs[0]))
      ensures PmpThere(Prepared(old(host.devs[0]), noRetry(0)), answers(0)) ==> online
      ensures !host.devs[0].detach
    {
      assert host.devs == [host.devs[0]];
      ghost var before := host.devs;
      var exit, passes, _ := host.Recover(noRetry, answers);
      assert WithinBudget(before[0], host.devs[0]);
      online := exit.PmpAttached?;
      rc := if exit.ResetFailed? || exit.FrozenFanOut? then Some(exit.err) else None;
      if online {
        nrPmpLinks, fanDevs := ports, seq(ports, _ => NEWCOMER);
      }
    }

    /** The recovery of the links of the multiplier. */
    method RecoverLinks(a: PmpAnswers) returns (failed: Option<(nat, Errno)>, ghost run: FanRun)
      requires Valid() && nrPmpLinks > 0
      modifies this`fanDevs
      ensures Valid() && fanDevs == run.after && FanFits(run, a, nrPmpLinks)
      ensures failed == if FanFailed(run) then Some((run.exit.link, run.exit.err)) else None
    {
      var exit;
      fanDevs, exit, run := RecoverFan(fanDevs, a);
      failed := if exit.ResetFailed? || exit.FrozenFanOut? then Some((exit.link, exit.err)) else None;
    }

    /** The recovery of the links of the port; what the run of the fan-out links was, if any. */
    method RecoverLinksOrHost(noRetry: nat -> bool, a: PmpAnswers)
      returns (failed: Option<(nat, Errno)>, ghost run: FanRun)
      requires Counted() && 0 < a.ports <= SATA_PMP_MAX_PORTS && !host.devs[0].detach
      requires nrPmpLinks == 0 && !Resting(host.devs[0]) ==> a.ports <= counted
      modifies this`nrPmpLinks, this`fanDevs, host
      ensures Counted() && !host.devs[0].detach && Chances() <= old(Chances())
      ensures failed.Some? ==> failed.value.0 < Links()
      ensures if old(nrPmpLinks) == 0 then run == NO_RUN && (nrPmpLinks > 0 ==> failed.None?) else
        && FanFits(run, a, old(nrPmpLinks)) && nrPmpLinks == old(nrPmpLinks) && host.devs == old(host.devs)
        && failed == if FanFailed(run) then Some((run.exit.link, run.exit.err)) else None
      ensures old(nrPmpLinks) == 0 && PmpThere(Prepared(old(host.devs[0]), noRetry(0)), a.hostAgain(0)) ==>
        nrPmpLinks == a.ports
    {
      run := NO_RUN;
      if nrPmpLinks > 0 {
        failed, run := RecoverLinks(a);
      } else {
        var rc, online := RecoverHost(noRetry, a.hostAgain, a.ports);
        failed := if rc.Some? then Some((0, rc.value)) else None;
      }
    }

    /** The part of a pass after a multiplier has been recovered: the fan-out links and the checks.
      * Its outcome is to finish, to repeat, or to treat the multiplier as failed. */
    method RecoverFanOut(noRetry: nat -> bool, a: PmpAnswers) returns (next: Next, ghost run: FanRun)
      requires Counted() && 0 < a.ports <= SATA_PMP_MAX_PORTS && !host.devs[0].detach
      requires nrPmpLinks == 0 && !Resting(host.devs[0]) ==> a.ports <= counted
      modifies this`nrPmpLinks, this`fanDevs, linkTries, disabled, host
      ensures Counted() && !host.devs[0].detach
      ensures if old(nrPmpLinks) == 0 then run == NO_RUN else
        FanFits(run, a, old(nrPmpLinks)) && nrPmpLinks == old(nrPmpLinks) && host.devs == old(host.devs)
      ensures old(nrPmpLinks) == 0 && PmpThere(Prepared(old(host.devs[0]), noRetry(0)), a.hostAgain(0)) ==>
        nrPmpLinks == a.ports
      ensures nrPmpLinks > 0 ==> next == FanOutNext(a, run, nrPmpLinks, old(linkTries[..]))
      ensures nrPmpLinks > 0 ==> Lost(a, run, old(linkTries[..]))
      ensures next.Finish? && a.disabledLinks.None? ==> Checked(a)
      ensures Chances() <= old(Chances())
      ensures Tries() <= old(Tries()) && (next.Repeat? ==> Tries() < old(Tries()))
    {
      var failed;
      failed, run := RecoverLinksOrHost(noRetry, a);
      if failed.Some? {
        next := LinkFailed(failed.value.0, failed.value.1);
      } else {
        next := Check(a);
      }
    }

    /** The `link_fail` part: another try for the link, or the multiplier is to blame. */
    method LinkFailed(l: nat, err: Errno) returns (next: Next)
      requires Counted() && l < Links()
      modifies linkTries, disabled, host, this`fanDevs
      ensures Counted()
      ensures next == if old(linkTries[l]) > 1 then Repeat else PmpFail(err)
      ensures forall m :: 0 <= m < SATA_PMP_MAX_PORTS ==>
        linkTries[m] == if m == l then OneLess(old(linkTries[m])) else old(linkTries[m])
      ensures AttachBudget(host.devs[0]) == AttachBudget(old(host.devs[0]))
      ensures host.devs[0].detach == old(host.devs[0].detach)
      ensures nrPmpLinks > 0 ==> host.devs == old(host.devs)
      ensures Tries() <= old(Tries()) && (next.Repeat? ==> Tries() < old(Tries()))
    {
      var again := HandleLinkFail(l);
      next := if again then Repeat else PmpFail(err);
    }

    /** Exactly the links that lose a try have lost one. */
    ghost predicate Lost(a: PmpAnswers, run: FanRun, before: seq<nat>)
      reads this, linkTries
    {
      && |before| == linkTries.Length
      && forall m :: 0 <= m < |before| ==>
           linkTries[m] == if LosesTry(a, run, nrPmpLinks, m) then OneLess(before[m]) else before[m]
    }

    /** The end of a pass: enable notification, and check the error register. */
    method Check(a: PmpAnswers) returns (next: Next)
      requires Counted()
      modifies this`fanDevs, linkTries, disabled, host
      ensures Counted()
      ensures next == if a.enableNotify.Some? || a.readErrors.Some? then PmpFail(EIO)
                      else if ToRepeat(a, Links(), old(linkTries[..])) then Repeat
                      else Finish
      ensures RecheckedTo(if next.PmpFail? then 0 else Links(), a, old(linkTries[..]), old(host.devs[0]), old(fanDevs))
      ensures next.Finish? && a.disabledLinks.None? ==> Checked(a)
      ensures Tries() <= old(Tries()) && (next.Repeat? ==> Tries() < old(Tries()))
    {
      if a.enableNotify.Some? {
        return PmpFail(EIO);
      }
      if a.readErrors.Some? {
        return PmpFail(EIO);
      }
      var cnt := RecheckLinks(a);
      return if cnt > 0 then Repeat else Finish;
    }

    /** What the end of recovery means: success with a multiplier attached is a last pass that
      * recovered it and each of its links, unless that pass detached another; an error leaves no
      * multiplier attached, unless unloading. */
    ghost predicate Means(rc: Option<Errno>, a: PmpAnswers, run: FanRun, detached: bool)
      reads this, disabled
      requires nrPmpLinks <= disabled.Length && disabled.Length > 0
    {
      nrPmpLinks > 0 ==>
        if rc.None? then Checked(a) && (!detached ==> AllRecovered(a, run, nrPmpLinks)) else a.unloading
    }

    ghost predicate ToDetach()
      reads this, host
      requires |host.devs| > 0
    {
      nrPmpLinks > 0 && host.devs[0].detach
    }

    /** The failing run that began with the host device d and `links` links, after so many passes: the
      * first link the new multiplier has in addition had `tries` tries, and loses one in every pass. */
    ghost predicate Overrunning(d: Device, links: nat, tries: nat, passes: nat)
      reads this, host, linkTries
      requires |host.devs| > 0
    {
      && 0 < links < linkTries.Length && tries <= linkTries[links] + passes
      && if passes == 0 then nrPmpLinks == links && host.devs[0] == d else nrPmpLinks > links
    }

    /** A pass of such a run. */
    method NextPass(noRetry: nat -> bool, answers: nat -> PmpAnswers, passes: nat,
                    ghost d: Device, ghost links: nat, ghost tries: nat)
      returns (again: bool, rc: Option<Errno>, ghost run: FanRun)
      requires Counted() && pmpTries > 0 && 0 < answers(passes).ports <= SATA_PMP_MAX_PORTS
      requires Exposed() ==> answers(passes).ports <= counted
      requires passes > 0 ==> !host.devs[0].detach
      requires Overruns(d, links, noRetry, answers) ==> Overrunning(d, links, tries, passes)
      modifies this, host, linkTries, disabled
      ensures Valid() && !host.devs[0].detach && (again ==> Counted() && pmpTries > 0)
      ensures again ==> Left() < old(Left())
      ensures !again ==> Means(rc, answers(passes), run, old(ToDetach()))
      ensures Overruns(d, links, noRetry, answers) ==>
        if again then Overrunning(d, links, tries, passes + 1) else passes + 1 >= tries
    {
      ghost var n, before := LinksTheyWillBe(answers(passes)), linkTries[..];
      ghost var overruns := Overruns(d, links, noRetry, answers);
      if overruns {
        OverrunGoesOn(noRetry, answers, passes, d, links, tries);
      }
      again, rc, run := Pass(noRetry, answers(passes));
      if overruns {
        LosesOne(answers(passes), again, n, before, links);
      }
    }

    /** The links of the port once a multiplier to be detached has been replaced. */
    ghost function LinksTheyWillBe(a: PmpAnswers): nat
      reads this, host
      requires |host.devs| > 0
    {
      if host.devs[0].detach then a.ports else nrPmpLinks
    }

    lemma OverrunGoesOn(noRetry: nat -> bool, answers: nat -> PmpAnswers, passes: nat, d: Device, links: nat,
                        tries: nat)
      requires |host.devs| > 0 && Overruns(d, links, noRetry, answers) && Overrunning(d, links, tries, passes)
      requires passes > 0 ==> !host.devs[0].detach
      ensures GoesOn(host.devs[0], noRetry, answers(passes)) && answers(passes).phyChanged(links)
      ensures nrPmpLinks > 0 && LinksTheyWillBe(answers(passes)) > links
    {}

    /** A link whose PHY changed in such a pass has lost a try, and it was not the last if the pass is
      * repeated for it alone. */
    lemma LosesOne(a: PmpAnswers, again: bool, n: nat, before: seq<nat>, l: nat)
      requires Smooth(a) && WentOn(a, if again then Repeat else Finish, n, before) && l < n && a.phyChanged(l)
      ensures linkTries[l] == OneLess(before[l]) && (before[l] > 1 ==> again)
    {}

    /** The retry loop of sata_pmp_eh_recover. */
    method Passes(noRetry: nat -> bool, answers: nat -> PmpAnswers)
      returns (rc: Option<Errno>, passes: nat, ghost run: FanRun)
      requires Counted() && pmpTries > 0 && (Exposed() ==> answers(0).ports <= counted)
      requires PortsPossible(answers)
      modifies this, host, linkTries, disabled
      ensures Valid()
      ensures 1 <= passes <= 1 + old(Left())
      ensures Means(rc, answers(passes - 1), run, passes == 1 && old(ToDetach()))
      ensures old(Overruns(host.devs[0], nrPmpLinks, noRetry, answers)) ==> passes >= old(linkTries[nrPmpLinks])
    {
      ghost var d, links := host.devs[0], nrPmpLinks;
      ghost var tries := if links < SATA_PMP_MAX_PORTS then linkTries[links] else 0;
      ghost var overruns := Overruns(d, links, noRetry, answers);
      passes := 0;
      while true
        invariant Counted() && pmpTries > 0 && (Exposed() ==> answers(passes).ports <= counted)
        invariant passes + Left() <= old(Left())
        invariant if passes == 0 then ToDetach() == old(ToDetach()) else !host.devs[0].detach
        invariant overruns ==> Overrunning(d, links, tries, passes)
        decreases Left()
      {
        var again;
        again, rc, run := NextPass(noRetry, answers, passes, d, links, tries);
        passes := passes + 1;
        if !again {
          return;
        }
      }
    }

    /** Full tries for the multiplier and the links of the port; the others are what the stack held,
      * and count only if one of them may be read. */
    method StartFresh(stack: seq<nat>, ghost whole: bool)
      requires Valid() && |stack| == SATA_PMP_MAX_PORTS
      modifies this`pmpTries, this`counted, linkTries
      ensures Counted() && pmpTries == ATA_EH_PMP_TRIES
      ensures counted == if whole then SATA_PMP_MAX_PORTS else Links()
      ensures forall m :: 0 <= m < SATA_PMP_MAX_PORTS ==>
        linkTries[m] == if m < Links() then ATA_EH_PMP_LINK_TRIES else stack[m]
      ensures Left() <= (2 * AttachBudget(host.devs[0]) + 2) * ALL_TRIES + if whole then Sum(stack) else 0
    {
      assert stack[..SATA_PMP_MAX_PORTS] == stack;
      TakeStack(stack, if whole then SATA_PMP_MAX_PORTS else 0);
      pmpTries := ATA_EH_PMP_TRIES;
      FillTries();
    }

    /** The array of link tries as it comes off the stack. */
    method TakeStack(stack: seq<nat>, ghost count: nat)
      requires Valid() && |stack| == SATA_PMP_MAX_PORTS && count <= SATA_PMP_MAX_PORTS
      modifies this`counted, linkTries
      ensures Valid() && counted == count && Tries() == Sum(stack[..count])
      ensures forall m :: 0 <= m < SATA_PMP_MAX_PORTS ==> linkTries[m] == stack[m]
    {
      forall m | 0 <= m < SATA_PMP_MAX_PORTS {
        linkTries[m] := stack[m];
      }
      counted := count;
      assert linkTries[..counted] == stack[..counted];
    }

    /** sata_pmp_eh_recover.  `passes` counts the times through its retry loop, `stack` is what the
      * array of link tries holds before it is filled. */
    method Recover(noRetry: nat -> bool, answers: nat -> PmpAnswers, stack: seq<nat>)
      returns (rc: Option<Errno>, passes: nat, ghost run: FanRun)
      requires Valid() && |stack| == SATA_PMP_MAX_PORTS
      requires PortsPossible(answers)
      modifies this, host, linkTries, disabled
      ensures Valid()
      ensures 1 <= passes <= 1 + (2 * old(AttachBudget(host.devs[0])) + 2) * ALL_TRIES +
        if old(Exposed()) && answers(0).ports > old(nrPmpLinks) then Sum(stack) else 0
      ensures Means(rc, answers(passes - 1), run, passes == 1 && old(ToDetach()))
      ensures old(Overruns(host.devs[0], nrPmpLinks, noRetry, answers)) ==> passes >= stack[old(nrPmpLinks)]
    {
      StartFresh(stack, Exposed() && answers(0).ports > nrPmpLinks);
      rc, passes, run := Passes(noRetry, answers);
    }

    /** Without a multiplier a pass goes on only if one comes online. */
    method BringOnline(noRetry: nat -> bool, a: PmpAnswers) returns (rc: Option<Errno>, online: bool)
      requires Valid() && nrPmpLinks == 0 && 0 < a.ports <= SATA_PMP_MAX_PORTS
      modifies this`nrPmpLinks, this`fanDevs, this`counted, host, linkTries
      ensures Valid() && !host.devs[0].detach
      ensures online ==> Counted() && nrPmpLinks == a.ports && Chances() < old(Chances())
      ensures online ==> rc.None? && forall m :: 0 <= m < a.ports ==> linkTries[m] == ATA_EH_PMP_LINK_TRIES
      ensures online ==> Tries() <= old(Tries()) + SATA_PMP_MAX_PORTS * ATA_EH_PMP_LINK_TRIES
      ensures !online ==> nrPmpLinks == 0 && (rc.Some? ==> !ClassEnabled(host.devs[0].cls))
    {
      rc, online := RecoverHost(noRetry, a.host, a.ports);
      if rc.Some? {
        host.devs := host.devs[0 := host.devs[0].(cls := DisabledClass(host.devs[0].cls))];
      } else if online {
        FillTries();
      }
    }

    /** The part of a pass that needs a multiplier.  A multiplier lost costs its presence; otherwise
      * repeating costs a try of a link, and a failure is left to the caller. */
    method RecoverAttached(noRetry: nat -> bool, a: PmpAnswers) returns (next: Next, ghost run: FanRun)
      requires Counted() && nrPmpLinks > 0 && 0 < a.ports <= SATA_PMP_MAX_PORTS
      requires Exposed() ==> a.ports <= counted
      modifies this`nrPmpLinks, this`fanDevs, host, linkTries, disabled
      ensures Counted() && !host.devs[0].detach
      ensures !old(host.devs[0]).detach ==>
        && next == AttachedNext(a, run, old(nrPmpLinks), old(linkTries[..]))
        && (next.Finish? ==> AllRecovered(a, run, nrPmpLinks))
        && nrPmpLinks == if TryPmp(a, 0, ATA_EH_PMP_TRIES, false).rc.None? then old(nrPmpLinks) else 0
      ensures GoesOn(old(host.devs[0]), noRetry, a) ==>
        WentOn(a, next, old(LinksTheyWillBe(a)), old(linkTries[..]))
      ensures next.Finish? ==> Checked(a)
      ensures Chances() <= old(Chances()) && (nrPmpLinks == 0 ==> Chances() < old(Chances()))
      ensures Tries() <= old(Tries())
      ensures next.Repeat? && Chances() == old(Chances()) ==> Tries() < old(Tries())
    {
      run := NO_RUN;
      var rc := RecoverPmp(a);
      if rc.None? {
        rc := a.disabledLinks;
      }
      if rc.None? {
        next, run := RecoverFanOut(noRetry, a);
      } else {
        next := PmpFail(rc.value);
      }
    }

    /** A pass over n links in which nothing went wrong but that PHYs changed. */
    ghost predicate WentOn(a: PmpAnswers, next: Next, n: nat, before: seq<nat>)
      reads this, linkTries
    {
      && |before| == linkTries.Length && nrPmpLinks == n <= |before|
      && next == (if ToRepeat(a, n, before) then Repeat else Finish)
      && Lost(a, NO_RUN, before)
    }

    /** The `pmp_fail` part: a multiplier still attached uses up one of its tries. */
    method PmpFailed(unloading: bool) returns (again: bool)
      requires Counted() && pmpTries > 0
      modifies this`pmpTries, this`nrPmpLinks, host
      ensures Valid() && (again ==> Counted())
      ensures again <==> !unloading && (old(nrPmpLinks) == 0 || old(pmpTries) > 1)
      ensures pmpTries == if unloading || old(nrPmpLinks) == 0 then old(pmpTries) else old(pmpTries) - 1
      ensures again || unloading ==> nrPmpLinks == old(nrPmpLinks) && host.devs == old(host.devs)
      ensures !again && !unloading ==> nrPmpLinks == 0 && host.devs[0].cls != Pmp
      ensures host.devs[0].detach == old(host.devs[0].detach)
    {
      if unloading {
        return false;
      }
      if nrPmpLinks > 0 {
        pmpTries := pmpTries - 1;
        if pmpTries == 0 {
          Drop(false);
          return false;
        }
      }
      again := true;
    }

    /** One pass of the retry loop with a multiplier attached. */
    method PassAttached(noRetry: nat -> bool, a: PmpAnswers)
      returns (again: bool, rc: Option<Errno>, ghost run: FanRun)
      requires Counted() && nrPmpLinks > 0 && pmpTries > 0 && 0 < a.ports <= SATA_PMP_MAX_PORTS
      requires Exposed() ==> a.ports <= counted
      modifies this`pmpTries, this`nrPmpLinks, this`fanDevs, host, linkTries, disabled
      ensures Valid() && !host.devs[0].detach && (again ==> Counted() && pmpTries > 0)
      ensures again ==> Left() < old(Left())
      ensures !old(host.devs[0]).detach ==>
        var next := AttachedNext(a, run, old(nrPmpLinks), old(linkTries[..]));
        var lost := TryPmp(a, 0, ATA_EH_PMP_TRIES, false).rc.Some?;
        && rc == (if next.PmpFail? then Some(next.err) else None)
        && (again <==> next.Repeat? || (next.PmpFail? && !a.unloading && (lost || old(pmpTries) > 1)))
        && pmpTries == old(pmpTries) - (if next.PmpFail? && !a.unloading && !lost then 1 else 0)
      ensures GoesOn(old(host.devs[0]), noRetry, a) ==>
        WentOn(a, if again then Repeat else Finish, old(LinksTheyWillBe(a)), old(linkTries[..]))
      ensures !again ==> Means(rc, a, run, old(ToDetach()))
    {
      rc := None;
      var next;
      next, run := RecoverAttached(noRetry, a);
      again := next.Repeat?;
      if next.PmpFail? {
        rc := Some(next.err);
        again := PmpFailed(a.unloading);
      }
      if again {
        WeightDrops(old(Chances()), old(pmpTries), old(Tries()), Chances(), pmpTries, Tries());
      }
    }

    /** One pass of the retry loop. */
    method Pass(noRetry: nat -> bool, a: PmpAnswers)
      returns (again: bool, rc: Option<Errno>, ghost run: FanRun)
      requires Counted() && pmpTries > 0 && 0 < a.ports <= SATA_PMP_MAX_PORTS
      requires Exposed() ==> a.ports <= counted
      modifies this, host, linkTries, disabled
      ensures Valid() && !host.devs[0].detach && (again ==> Counted() && pmpTries > 0)
      ensures again ==> Left() < old(Left())
      ensures old(nrPmpLinks) > 0 && GoesOn(old(host.devs[0]), noRetry, a) ==>
        WentOn(a, if again then Repeat else Finish, old(LinksTheyWillBe(a)), old(linkTries[..]))
      ensures !again ==> Means(rc, a, run, old(ToDetach()))
    {
      if nrPmpLinks == 0 {
        var online;
        rc, online := BringOnline(noRetry, a);
        if !online {
          return false, rc, NO_RUN;
        }
        WeightDrops(old(Chances()), old(pmpTries), old(Tries()), Chances(), pmpTries, Tries());
      }
      again, rc, run := PassAttached(noRetry, a);
    }
  }

  // ---------------------------------------------------------------------------------------------
  // Tries that nobody has written

  /** A multiplier answers to everything. */
  const WELL := Answers(false, _ => None, _ => Class.Pmp, _ => false, _ => None, _ => None, _ => false, _ => None,
                        _ => true, _ => None, _ => false, _ => false, _ => false)

  /** All goes well with a multiplier without devices, but the PHY of its link l changes whenever it is
    * looked at. */
  function Restless(l: nat): PmpAnswers {
    var empty := WELL.(found := _ => NoDevice);
    PmpAnswers(false, _ => WELL, _ => WELL, l + 1, false, _ => None, _ => None, None, _ => false, _ => empty,
               None, None, k => k == l)
  }

  /** A failing run is possible exactly when detaching the multiplier is asked for, its device is to
    * be probed, and a multiplier can have more links. */
  lemma OverrunPossible(d: Device, links: nat, noRetry: nat -> bool)
    requires d.cls == Pmp && 0 < links <= SATA_PMP_MAX_PORTS
    ensures (d.detach && ProbeDue(d) && links < SATA_PMP_MAX_PORTS) <==>
      exists answers :: PortsPossible(answers) && Overruns(d, links, noRetry, answers)
  {
    if d.detach && ProbeDue(d) && links < SATA_PMP_MAX_PORTS {
      var answers: nat -> PmpAnswers := _ => Restless(links);
      assert TryPmp(Restless(links), 0, ATA_EH_PMP_TRIES, false).rc.None?;
      assert Overruns(d, links, noRetry, answers);
    }
  }

  /** ... and then the bound of an ordinary recovery is exceeded, by as much as the stack held. */
  method Overrun(port: PmpPort, noRetry: nat -> bool, left: nat) returns (passes: nat)
    requires port.Valid() && port.Exposed() && port.nrPmpLinks < SATA_PMP_MAX_PORTS
    requires left < 0x1_0000_0000
    modifies port, port.host, port.linkTries, port.disabled
    ensures port.Valid() && passes >= left
  {
    var l := port.nrPmpLinks;
    assert Overruns(port.host.devs[0], l, noRetry, _ => Restless(l));
    ghost var run;
    var rc;
    rc, passes, run := port.Recover(noRetry, _ => Restless(l), seq(SATA_PMP_MAX_PORTS, _ => left));
  }
}
