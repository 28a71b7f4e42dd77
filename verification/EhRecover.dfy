/** ata_eh_recover (libata-eh.c): the retry loop that recovers the devices of a port.
  *
  * The hardware's answers are a function of the pass through the loop; whatever they are, the
  * loop ends.  Devices are numbered across the links: link l owns `first[l] .. first[l + 1]`.
  */
module EhRecovers {
  import opened Libata

  const ATA_EH_DEV_TRIES: nat := 3

  /** The recovery state of a device: its class, remaining tries, a requested probe, whether it has
    * been probed in this session, and a requested detach. */
  datatype Device = Device(cls: Class, tries: int, probe: bool, probed: bool, detach: bool)

  /** What the hardware answers in one pass.  Whether a link is offline is read twice: when a device
    * is revalidated, and when its failure is handled. */
  datatype Answers = Answers(
    unloading: bool,
    reset: nat -> Option<Errno>,
    found: nat -> Class,
    revalidates: nat -> bool,
    revalidation: nat -> Option<Errno>,
    identify: nat -> Option<Errno>,
    atapi: nat -> bool,
    configure: nat -> Option<Errno>,
    hasPio: nat -> bool,
    setMode: nat -> Option<Errno>,
    offline: nat -> bool,
    offlineAfter: nat -> bool,
    frozen: nat -> bool)

  datatype Failure = Failure(dev: nat, err: Errno)

  datatype Exit =
    | Unloaded
    | Recovered
    | PmpAttached
    | ResetFailed(link: nat, err: Errno)
    | FrozenFanOut(link: nat, err: Errno)

  /** An enabled device always has a try left. */
  predicate Ready(d: Device) {
    d.tries >= 0 && (ClassEnabled(d.cls) ==> d.tries >= 1)
  }

  predicate AllReady(devs: seq<Device>) {
    forall i :: 0 <= i < |devs| ==> Ready(devs[i])
  }

  /** How often the device may still fail. */
  function Rank(d: Device): int {
    d.tries + if d.probed then 0 else ATA_EH_DEV_TRIES + 1
  }

  function TotalRank(devs: seq<Device>): int {
    if devs == [] then 0 else TotalRank(devs[..|devs| - 1]) + Rank(devs[|devs| - 1])
  }

  /** How often the device may still be attached anew. */
  function AttachBudget(d: Device): nat {
    (if d.cls == Unknown then 1 else 0) + (if d.probed then 0 else 1)
  }

  /** A device attached or left alone: tries, probing and detaching are untouched, and a new port multiplier
    * is paid for from the budget. */
  predicate Attaches(d: Device, e: Device) {
    && e.tries == d.tries && e.probe == d.probe && e.probed == d.probed && e.detach == d.detach
    && (e.cls == d.cls || (d.cls == Unknown && d.tries > 0))
  }

  /** Disabled or absent, and not to be probed. */
  predicate Resting(d: Device) {
    !ClassEnabled(d.cls) && d.cls != Unknown && !ProbeDue(d)
  }

  /** What recovery as a whole may do to a device's chances of being attached; it requests no detach,
    * and a device at rest stays so. */
  predicate WithinBudget(d: Device, e: Device) {
    && AttachBudget(e) <= AttachBudget(d) && (e.detach ==> d.detach) && (Resting(d) ==> Resting(e))
    && (e.cls == Pmp && d.cls != Pmp ==> AttachBudget(e) < AttachBudget(d))
  }

  lemma {:induction false} TotalRankUpdate(devs: seq<Device>, i: nat, d: Device)
    requires i < |devs|
    ensures TotalRank(devs[i := d]) == TotalRank(devs) - Rank(devs[i]) + Rank(d)
  {
    var n := |devs| - 1;
    if i == n {
      assert devs[i := d][..n] == devs[..n];
    } else {
      TotalRankUpdate(devs[..n], i, d);
      assert devs[i := d][..n] == devs[..n][i := d];
    }
  }

  lemma {:induction false} TotalRankSame(devs: seq<Device>, other: seq<Device>)
    requires |devs| == |other| && forall i :: 0 <= i < |devs| ==> Rank(devs[i]) == Rank(other[i])
    ensures TotalRank(devs) == TotalRank(other)
  {
    if devs != [] {
      TotalRankSame(devs[..|devs| - 1], other[..|devs| - 1]);
    }
  }

  lemma {:induction false} TotalRankBounds(devs: seq<Device>)
    requires AllReady(devs)
    ensures TotalRank(devs) >= 0
    ensures (forall i :: 0 <= i < |devs| ==> devs[i].tries <= ATA_EH_DEV_TRIES) ==>
      TotalRank(devs) <= (2 * ATA_EH_DEV_TRIES + 1) * |devs|
  {
    if devs != [] {
      TotalRankBounds(devs[..|devs| - 1]);
    }
  }

  // ---------------------------------------------------------------------------------------------
  // One device

  /** ata_eh_detach_dev. */
  function Detached(d: Device): Device {
    d.(cls := DisabledClass(d.cls), detach := false)
  }

  predicate ProbeDue(d: Device) {
    d.probe && !d.probed
  }

  /** ata_eh_schedule_probe: at most once per session the device is made unknown again. */
  function Probed(d: Device): Device {
    if ProbeDue(d) then Detached(d).(cls := Unknown, probed := true) else d
  }

  /** ata_eh_handle_dev_fail: the device after a failure, and whether it was disabled for it. */
  function AfterFailure(d: Device, err: Errno, offline: bool): (Device, bool) {
    var d := d.(tries := d.tries - 1, probe := d.probe || err == ENODEV);
    var d := if (err == ENODEV || err == EINVAL) && d.tries > 1 then d.(tries := 1) else d;
    if ClassEnabled(d.cls) && d.tries == 0 then
      var d := d.(cls := DisabledClass(d.cls));
      var d := if offline then Detached(d) else d;
      (if ProbeDue(d) then Probed(d).(tries := ATA_EH_DEV_TRIES) else d, true)
    else (d, false)
  }

  /** Only devices with a try left fail, and none at rest. */
  predicate MayFail(d: Device) {
    d.tries >= 1 && !Resting(d)
  }

  /** Every failure costs rank, even when a probe hands out new tries, and leaves the device with
    * tries that fit its state. */
  lemma FailureCosts(d: Device, err: Errno, offline: bool)
    requires Ready(d) && MayFail(d)
    ensures
      var e := AfterFailure(d, err, offline).0;
      && Ready(e) && Rank(e) < Rank(d) && WithinBudget(d, e) && (e.cls == Pmp ==> d.cls == Pmp)
  {}

  /** What a failure does to a device.  It is disabled exactly if it was enabled and this was its last
    * try, and then comes back with full tries if a probe is due: one that was asked for, or that ENODEV
    * asks for, and not yet made.  Otherwise it keeps its place, and after ENODEV or EINVAL has one try
    * at most. */
  lemma FailureExact(d: Device, err: Errno, offline: bool)
    requires Ready(d) && MayFail(d)
    ensures
      var (e, disabled) := AfterFailure(d, err, offline);
      var probe := d.probe || err == ENODEV;
      && (disabled <==> ClassEnabled(d.cls) && d.tries == 1)
      && (if disabled && probe && !d.probed then e == Device(Unknown, ATA_EH_DEV_TRIES, true, true, false)
          else if disabled then e == Device(DisabledClass(d.cls), 0, probe, d.probed, d.detach && !offline)
          else e == d.(probe := probe,
                       tries := if err in {ENODEV, EINVAL} && d.tries > 2 then 1 else d.tries - 1))
  {}

  /** The statements of ata_eh_handle_dev_fail on the device's record. */
  method FailDevice(before: Device, err: Errno, offline: bool) returns (d: Device, disabled: bool)
    requires before.tries >= 1
    ensures (d, disabled) == AfterFailure(before, err, offline)
  {
    d := before.(tries := before.tries - 1);
    if err == ENODEV {
      d := d.(probe := true);
    }
    if err == ENODEV || err == EINVAL {
      d := d.(tries := if d.tries < 1 then d.tries else 1);
    }
    disabled := ClassEnabled(d.cls) && d.tries == 0;
    if disabled {
      d := d.(cls := DisabledClass(d.cls));
      if offline {
        d := Detached(d);
      }
      if ProbeDue(d) {
        d := Probed(d).(tries := ATA_EH_DEV_TRIES);
      }
    }
  }

  predicate NoPmp(devs: seq<Device>) {
    forall i :: 0 <= i < |devs| ==> devs[i].cls != Pmp
  }

  predicate AllWithinBudget(devs: seq<Device>, other: seq<Device>) {
    |devs| == |other| && forall i :: 0 <= i < |devs| ==> WithinBudget(devs[i], other[i])
  }

  predicate AllAttach(devs: seq<Device>, other: seq<Device>) {
    |devs| == |other| && forall i :: 0 <= i < |devs| ==> Attaches(devs[i], other[i])
  }

  lemma BudgetSelf(a: seq<Device>)
    ensures AllWithinBudget(a, a)
  {}

  lemma BudgetChain(a: seq<Device>, b: seq<Device>, c: seq<Device>)
    requires AllWithinBudget(a, b) && AllWithinBudget(b, c)
    ensures AllWithinBudget(a, c)
  {}

  lemma AllAttachKeeps(a: seq<Device>, b: seq<Device>)
    requires AllAttach(a, b)
    ensures AllWithinBudget(a, b) && TotalRank(a) == TotalRank(b) && (AllReady(a) ==> AllReady(b))
  {}

  /** A device at the start of recovery. */
  function Prepared(d: Device, noRetry: bool): Device {
    var d := d.(tries := if noRetry then 1 else ATA_EH_DEV_TRIES);
    var d := if d.detach then Detached(d) else d;
    if ClassEnabled(d.cls) then d else Probed(d)
  }

  /** Recovery starts with one try on a link that is not to be retried and three on others.  A device to
    * be detached is disabled; one that is not enabled is made unknown if a probe of it is due; nothing
    * else changes. */
  lemma PreparedMeans(d: Device, noRetry: bool)
    ensures
      var e := Prepared(d, noRetry);
      var off := d.detach || !ClassEnabled(d.cls);
      && e.tries == (if noRetry then 1 else 3) && !e.detach && e.probe == d.probe
      && (e.probed <==> d.probed || (off && d.probe))
      && e.cls == if !off then d.cls else if d.probe && !d.probed then Unknown else DisabledClass(d.cls)
  {}

  // ---------------------------------------------------------------------------------------------
  // One link

  /** What identifying a device of unknown class says: its class, or an error. */
  function Identified(i: nat, a: Answers, pmpCapable: bool): (Class, Option<Errno>) {
    match a.found(i)
    case Pmp => (Pmp, if pmpCapable then a.identify(i) else Some(EINVAL))
    case Semb => (Semb, Some(ENODEV))
    case _ => (if a.atapi(i) then Atapi else Ata, a.identify(i))
  }

  /** The visit of ata_eh_revalidate_and_attach to device i: the device afterwards, and an error.
    * A slot that turns out empty is no error. */
  function Visit(d: Device, i: nat, a: Answers, pmpCapable: bool): (Device, Option<Errno>) {
    if a.revalidates(i) && ClassEnabled(d.cls) then (d, if a.offline(i) then Some(EIO) else a.revalidation(i))
    else if d.cls == Unknown && d.tries != 0 && ClassEnabled(a.found(i)) then
      var (cls, rc) := Identified(i, a, pmpCapable);
      (if rc.None? then d.(cls := cls) else d, if rc == Some(ENOENT) then None else rc)
    else (d, None)
  }

  /** A visit that fails leaves the device alone, and only devices that may fail are visited. */
  lemma FailedVisit(d: Device, i: nat, a: Answers, pmpCapable: bool)
    ensures Visit(d, i, a, pmpCapable).1.Some? ==> Visit(d, i, a, pmpCapable).0 == d
    ensures Visit(d, i, a, pmpCapable).1.Some? && Ready(d) ==> MayFail(d)
    ensures Attaches(d, Visit(d, i, a, pmpCapable).0) || !Ready(d)
    ensures Visit(d, i, a, pmpCapable).0.cls == Pmp && d.cls != Pmp ==> pmpCapable
  {}

  predicate NewOnes(mask: set<nat>, before: seq<Device>, after: seq<Device>, i: nat, hi: nat) {
    |after| == |before| &&
    forall j :: 0 <= j < |before| ==>
      (j in mask <==> i <= j < hi && before[j].cls == Unknown && after[j].cls != Unknown)
  }

  /** The devices from i up to hi have been visited without an error, the others not at all. */
  predicate VisitedDownTo(before: seq<Device>, after: seq<Device>, i: nat, hi: nat, a: Answers, pmpCapable: bool) {
    && |after| == |before|
    && forall j :: 0 <= j < |before| ==>
         && after[j] == (if i <= j < hi then Visit(before[j], j, a, pmpCapable).0 else before[j])
         && (i <= j < hi ==> Visit(before[j], j, a, pmpCapable).1.None?)
  }

  /** The device was attached in this pass and is to be configured. */
  predicate IsNew(d: Device, e: Device) {
    d.cls == Unknown && e.cls != Unknown && e.cls != Pmp
  }

  /** ata_eh_revalidate_and_attach on devices lo to hi: it visits them downwards and configures the
    * new ones upwards, and stops at the first error. */
  predicate AttachOutcome(before: seq<Device>, after: seq<Device>, lo: nat, hi: nat, a: Answers, pmpCapable: bool,
                          failed: Option<Failure>)
  {
    match failed
    case None => Configured(before, after, lo, hi, hi, a, pmpCapable)
    case Some(f) =>
      && lo <= f.dev < hi && f.dev < |before|
      && if Visit(before[f.dev], f.dev, a, pmpCapable).1.Some?
         then VisitedDownTo(before, after, f.dev + 1, hi, a, pmpCapable)
              && Visit(before[f.dev], f.dev, a, pmpCapable).1 == Some(f.err)
         else Configured(before, after, lo, hi, f.dev, a, pmpCapable)
              && IsNew(before[f.dev], after[f.dev]) && a.configure(f.dev) == Some(f.err)
  }

  /** All are visited, and the new ones below k configured. */
  predicate Configured(before: seq<Device>, after: seq<Device>, lo: nat, hi: nat, k: nat, a: Answers,
                       pmpCapable: bool)
  {
    && VisitedDownTo(before, after, lo, hi, a, pmpCapable)
    && forall j :: lo <= j < k && j < |before| && IsNew(before[j], after[j]) ==> a.configure(j).None?
  }

  lemma VisitedAttaches(before: seq<Device>, after: seq<Device>, i: nat, hi: nat, a: Answers, pmpCapable: bool)
    requires VisitedDownTo(before, after, i, hi, a, pmpCapable) && AllReady(before)
    ensures AllAttach(before, after)
    ensures NoPmp(before) && !pmpCapable ==> NoPmp(after)
  {}

  /** Whatever its outcome, attaching changes no tries, and a device that fails has one left. */
  lemma AttachKeeps(before: seq<Device>, after: seq<Device>, lo: nat, hi: nat, a: Answers, pmpCapable: bool,
                    failed: Option<Failure>)
    requires AttachOutcome(before, after, lo, hi, a, pmpCapable, failed) && AllReady(before)
    requires pmpCapable ==> |before| == 1
    ensures AllAttach(before, after)
    ensures failed.Some? ==> failed.value.dev < |after| && MayFail(after[failed.value.dev])
    ensures NoPmp(before) && (!pmpCapable || failed.Some?) ==> NoPmp(after)
  {
    if failed.Some? && Visit(before[failed.value.dev], failed.value.dev, a, pmpCapable).1.Some? {
      VisitedAttaches(before, after, failed.value.dev + 1, hi, a, pmpCapable);
      FailedVisit(before[failed.value.dev], failed.value.dev, a, pmpCapable);
    } else {
      VisitedAttaches(before, after, lo, hi, a, pmpCapable);
    }
  }

  /** The first enabled device of lo to hi without a PIO mode, or else the first one whose transfer
    * mode cannot be set. */
  predicate ModeOutcome(devs: seq<Device>, lo: nat, hi: nat, a: Answers, failed: Option<Failure>) {
    match failed
    case None => PioThere(devs, lo, hi, a) && ModesSet(devs, lo, hi, a)
    case Some(f) =>
      && lo <= f.dev < hi && f.dev < |devs| && ClassEnabled(devs[f.dev].cls)
      && if !a.hasPio(f.dev) then PioThere(devs, lo, f.dev, a) && f.err == EINVAL
         else PioThere(devs, lo, hi, a) && ModesSet(devs, lo, f.dev, a) && a.setMode(f.dev) == Some(f.err)
  }

  predicate PioThere(devs: seq<Device>, lo: nat, hi: nat, a: Answers) {
    forall j :: lo <= j < hi && j < |devs| && ClassEnabled(devs[j].cls) ==> a.hasPio(j)
  }

  predicate ModesSet(devs: seq<Device>, lo: nat, hi: nat, a: Answers) {
    forall j :: lo <= j < hi && j < |devs| && ClassEnabled(devs[j].cls) ==> a.setMode(j).None?
  }

  /** The recovery of a link in a pass: what attaching reported and left, the transfer modes, and
    * the price of a failure. */
  predicate LinkOutcome(before: seq<Device>, attached: seq<Device>, report: Option<Failure>, after: seq<Device>,
                        lo: nat, hi: nat, a: Answers, pmpCapable: bool, failed: Option<Failure>)
  {
    && AttachOutcome(before, attached, lo, hi, a, pmpCapable, report)
    && lo < |attached| == |before|
    && (if report.Some? then failed == report
        else if attached[lo].cls == Pmp then failed.None?
        else ModeOutcome(attached, lo, hi, a, failed))
    && match failed
       case None => after == attached
       case Some(f) =>
         && f.dev < |attached|
         && after == attached[f.dev := AfterFailure(attached[f.dev], f.err, a.offlineAfter(f.dev)).0]
  }

  lemma FailingDeviceReady(attached: seq<Device>, lo: nat, hi: nat, a: Answers, failed: Option<Failure>)
    requires ModeOutcome(attached, lo, hi, a, failed) && AllReady(attached)
    ensures failed.Some? ==> failed.value.dev < |attached| && MayFail(attached[failed.value.dev])
  {}

  lemma OneFailure(attached: seq<Device>, f: Failure, offline: bool)
    requires f.dev < |attached| && MayFail(attached[f.dev]) && AllReady(attached) && NoPmp(attached)
    ensures
      var after := attached[f.dev := AfterFailure(attached[f.dev], f.err, offline).0];
      && AllReady(after) && AllWithinBudget(attached, after) && NoPmp(after) && TotalRank(after) < TotalRank(attached)
  {
    FailureCosts(attached[f.dev], f.err, offline);
    TotalRankUpdate(attached, f.dev, AfterFailure(attached[f.dev], f.err, offline).0);
  }

  /** A link that fails has cost rank; one that does not has cost nothing. */
  lemma LinkKeeps(before: seq<Device>, attached: seq<Device>, report: Option<Failure>, after: seq<Device>,
                  lo: nat, hi: nat, a: Answers, pmpCapable: bool, failed: Option<Failure>)
    requires LinkOutcome(before, attached, report, after, lo, hi, a, pmpCapable, failed)
    requires AllReady(before) && NoPmp(before) && (pmpCapable ==> |before| == 1 && lo == 0)
    ensures AllReady(after) && AllWithinBudget(before, after)
    ensures TotalRank(after) <= TotalRank(before) - (if failed.Some? then 1 else 0)
    ensures NoPmp(after) || (pmpCapable && failed.None? && after[lo].cls == Pmp)
  {
    AttachKeeps(before, attached, lo, hi, a, pmpCapable, report);
    AllAttachKeeps(before, attached);
    if failed.Some? {
      if report.None? {
        FailingDeviceReady(attached, lo, hi, a, failed);
      }
      OneFailure(attached, failed.value, a.offlineAfter(failed.value.dev));
      BudgetChain(before, attached, after);
    }
  }

  /** A device waits to be attached, and the hardware answers as a port multiplier. */
  predicate PmpThere(d: Device, a: Answers) {
    && d.cls == Unknown && d.tries > 0
    && !a.unloading && a.reset(0).None? && a.found(0) == Pmp && a.identify(0).None?
  }

  /** A multiplier that answers is attached. */
  lemma PmpAttaches(before: seq<Device>, attached: seq<Device>, report: Option<Failure>, after: seq<Device>, hi: nat,
                    a: Answers, failed: Option<Failure>)
    requires LinkOutcome(before, attached, report, after, 0, hi, a, true, failed) && hi > 0
    requires |before| == 1 && PmpThere(before[0], a)
    ensures failed.None? && after[0].cls == Pmp
  {}

  /** The devices below k have come through a pass without a failure. */
  predicate Clean(before: seq<Device>, after: seq<Device>, k: nat, a: Answers, pmpCapable: bool) {
    && |after| == |before|
    && forall j :: 0 <= j < |before| && j < k ==>
         && Visit(before[j], j, a, pmpCapable) == (after[j], None)
         && (IsNew(before[j], after[j]) ==> a.configure(j).None?)
         && (ClassEnabled(after[j].cls) ==> a.hasPio(j) && a.setMode(j).None?)
  }

  // ---------------------------------------------------------------------------------------------
  // What a pass says about the answers

  /** A device of unknown class is attached, and as what. */
  predicate Comes(d: Device, i: nat, a: Answers, pmpCapable: bool) {
    && d.cls == Unknown && d.tries != 0 && ClassEnabled(a.found(i))
    && a.found(i) != Semb && (a.found(i) == Pmp ==> pmpCapable) && a.identify(i).None?
  }

  function ClassFound(i: nat, a: Answers): Class {
    if a.found(i) == Pmp then Pmp else if a.atapi(i) then Atapi else Ata
  }

  /** Nothing is attached at a device of unknown class, and that is no error. */
  predicate NobodyThere(d: Device, i: nat, a: Answers, pmpCapable: bool) {
    || d.tries == 0 || !ClassEnabled(a.found(i))
    || (a.found(i) != Semb && (a.found(i) == Pmp ==> pmpCapable) && a.identify(i) == Some(ENOENT))
  }

  /** Device i came through a pass: if it was to be revalidated its link was online and it answered; a
    * new one was identified and configured; and whatever is enabled now has a mode that could be set. */
  predicate Answered(d: Device, e: Device, i: nat, a: Answers, pmpCapable: bool) {
    && (a.revalidates(i) && ClassEnabled(d.cls) ==> !a.offline(i) && a.revalidation(i).None?)
    && (d.cls != Unknown ==> e == d)
    && (d.cls == Unknown && e != d ==>
          && Comes(d, i, a, pmpCapable) && e == d.(cls := ClassFound(i, a))
          && (e.cls != Pmp ==> a.configure(i).None?))
    && (d.cls == Unknown && e == d ==> NobodyThere(d, i, a, pmpCapable))
    && (ClassEnabled(e.cls) ==> a.hasPio(i) && a.setMode(i).None?)
  }

  /** Devices lo to hi came through. */
  predicate AllAnswered(before: seq<Device>, after: seq<Device>, lo: nat, hi: nat, a: Answers, pmpCapable: bool) {
    |after| == |before| && forall j :: lo <= j < hi && j < |before| ==> Answered(before[j], after[j], j, a, pmpCapable)
  }

  /** A pass without a failure is one in which every device answered well, and the other way round. */
  lemma CleanExact(before: seq<Device>, after: seq<Device>, k: nat, a: Answers, pmpCapable: bool)
    ensures Clean(before, after, k, a, pmpCapable) <==> AllAnswered(before, after, 0, k, a, pmpCapable)
  {}

  /** Why device i failed with this error: it was offline or gone, it could not be identified or
    * configured, or it has no mode that can be set. */
  predicate Blames(d: Device, i: nat, a: Answers, pmpCapable: bool, err: Errno) {
    || (a.revalidates(i) && ClassEnabled(d.cls) && if a.offline(i) then err == EIO else a.revalidation(i) == Some(err))
    || (d.cls == Unknown && d.tries != 0 && ClassEnabled(a.found(i))
        && if a.found(i) == Pmp && !pmpCapable then err == EINVAL
           else if a.found(i) == Semb then err == ENODEV
           else err != ENOENT && a.identify(i) == Some(err))
    || (Comes(d, i, a, pmpCapable) && a.found(i) != Pmp && a.configure(i) == Some(err))
    || ((ClassEnabled(d.cls) || Comes(d, i, a, pmpCapable))
        && if a.hasPio(i) then a.setMode(i) == Some(err) else err == EINVAL)
  }

  /** What the recovery of the link with devices lo to hi says: all of them answered, or which failed. */
  predicate LinkSeen(before: seq<Device>, after: seq<Device>, lo: nat, hi: nat, a: Answers, pmpCapable: bool,
                     failed: Option<Failure>)
  {
    match failed
    case None => AllAnswered(before, after, lo, hi, a, pmpCapable)
    case Some(f) => lo <= f.dev < hi && f.dev < |before| && Blames(before[f.dev], f.dev, a, pmpCapable, f.err)
  }

  predicate SameOutside(before: seq<Device>, after: seq<Device>, lo: nat, hi: nat) {
    |after| == |before| && forall j :: 0 <= j < |before| && !(lo <= j < hi) ==> after[j] == before[j]
  }

  /** A visit reports an error exactly for a reason. */
  lemma VisitExact(d: Device, i: nat, a: Answers, pmpCapable: bool)
    ensures
      var (e, rc) := Visit(d, i, a, pmpCapable);
      match rc
      case Some(err) => Blames(d, i, a, pmpCapable, err)
      case None =>
        && (a.revalidates(i) && ClassEnabled(d.cls) ==> !a.offline(i) && a.revalidation(i).None?)
        && (if Comes(d, i, a, pmpCapable) then e == d.(cls := ClassFound(i, a)) else e == d)
        && (d.cls == Unknown ==> Comes(d, i, a, pmpCapable) || NobodyThere(d, i, a, pmpCapable))
  {}

  lemma AttachBlames(before: seq<Device>, after: seq<Device>, lo: nat, hi: nat, a: Answers, pmpCapable: bool,
                     f: Failure)
    requires AttachOutcome(before, after, lo, hi, a, pmpCapable, Some(f))
    ensures lo <= f.dev < hi && f.dev < |before| && Blames(before[f.dev], f.dev, a, pmpCapable, f.err)
    ensures SameOutside(before, after, lo, hi)
  {
    VisitExact(before[f.dev], f.dev, a, pmpCapable);
  }

  lemma ModeBlames(before: seq<Device>, attached: seq<Device>, lo: nat, hi: nat, a: Answers, pmpCapable: bool,
                   f: Failure)
    requires VisitedDownTo(before, attached, lo, hi, a, pmpCapable) && ModeOutcome(attached, lo, hi, a, Some(f))
    ensures lo <= f.dev < hi && f.dev < |before| && Blames(before[f.dev], f.dev, a, pmpCapable, f.err)
  {
    VisitExact(before[f.dev], f.dev, a, pmpCapable);
  }

  lemma ModesAnswer(before: seq<Device>, after: seq<Device>, lo: nat, hi: nat, a: Answers, pmpCapable: bool)
    requires Configured(before, after, lo, hi, hi, a, pmpCapable) && ModeOutcome(after, lo, hi, a, None)
    ensures AllAnswered(before, after, lo, hi, a, pmpCapable)
  {
    forall j | lo <= j < hi && j < |before|
      ensures Answered(before[j], after[j], j, a, pmpCapable)
    {
      VisitExact(before[j], j, a, pmpCapable);
    }
  }

  /** A link is recovered without touching another's devices, and fails exactly for a reason. */
  lemma LinkExact(before: seq<Device>, attached: seq<Device>, report: Option<Failure>, after: seq<Device>,
                  lo: nat, hi: nat, a: Answers, pmpCapable: bool, failed: Option<Failure>)
    requires LinkOutcome(before, attached, report, after, lo, hi, a, pmpCapable, failed)
    ensures SameOutside(before, after, lo, hi)
    ensures failed.Some? || attached[lo].cls != Pmp ==> LinkSeen(before, after, lo, hi, a, pmpCapable, failed)
  {
    if report.Some? {
      AttachBlames(before, attached, lo, hi, a, pmpCapable, report.value);
    } else if failed.Some? {
      ModeBlames(before, attached, lo, hi, a, pmpCapable, failed.value);
    } else if attached[lo].cls != Pmp {
      ModesAnswer(before, after, lo, hi, a, pmpCapable);
    }
  }

  predicate SameFrom(before: seq<Device>, after: seq<Device>, k: nat) {
    |after| == |before| && forall j :: k <= j < |before| ==> after[j] == before[j]
  }

  /** A pass that began with the devices `start` has been over one link for each entry of `fails`, which
    * is its failure if it had one; the devices of the other links are as they were. */
  ghost predicate Traced(start: seq<Device>, now: seq<Device>, first: seq<nat>, fails: seq<Option<Failure>>, a: Answers,
                         pmpCapable: bool)
  {
    |fails| < |first| && SameFrom(start, now, first[|fails|]) && EachSeen(start, now, first, fails, a, pmpCapable)
  }

  ghost predicate EachSeen(start: seq<Device>, now: seq<Device>, first: seq<nat>, fails: seq<Option<Failure>>,
                           a: Answers, pmpCapable: bool)
    requires |fails| < |first|
  {
    fails == [] ||
    (var l := |fails| - 1;
     && EachSeen(start, now, first, fails[..l], a, pmpCapable)
     && LinkSeen(start, now, first[l], first[l + 1], a, pmpCapable, fails[l]))
  }

  /** What later links do does not matter to the earlier ones. */
  lemma {:induction false} SeenStays(start: seq<Device>, was: seq<Device>, now: seq<Device>, first: seq<nat>,
                                     fails: seq<Option<Failure>>, a: Answers, pmpCapable: bool)
    requires |fails| < |first| && Ascending(first) && EachSeen(start, was, first, fails, a, pmpCapable)
    requires |was| == |now| && forall j :: 0 <= j < |was| && j < first[|fails|] ==> now[j] == was[j]
    ensures EachSeen(start, now, first, fails, a, pmpCapable)
  {
    if fails != [] {
      SeenStays(start, was, now, first, fails[..|fails| - 1], a, pmpCapable);
    }
  }

  predicate AnyFailed(fails: seq<Option<Failure>>) {
    exists l :: 0 <= l < |fails| && fails[l].Some?
  }

  /** No link that failed froze the port. */
  predicate NoneFroze(fails: seq<Option<Failure>>, a: Answers) {
    forall l :: 0 <= l < |fails| && fails[l].Some? ==> !a.frozen(l)
  }

  lemma OneMore(fails: seq<Option<Failure>>, failed: Option<Failure>, a: Answers)
    ensures AnyFailed(fails + [failed]) <==> AnyFailed(fails) || failed.Some?
    ensures NoneFroze(fails + [failed], a) <==> NoneFroze(fails, a) && !(failed.Some? && a.frozen(|fails|))
  {
    assert forall l :: 0 <= l < |fails| ==> (fails + [failed])[l] == fails[l];
    assert (fails + [failed])[|fails|] == failed;
  }

  /** How far a pass over the links `first` went: up to the first link that failed and froze the port,
    * which ends the recovery of fan-out links and otherwise only the pass. */
  predicate WentOver(exit: Option<Exit>, fails: seq<Option<Failure>>, links: nat, fanOut: bool, a: Answers) {
    match exit
    case None => if NoneFroze(fails, a) then |fails| == links else !fanOut && StoppedAt(fails, a)
    case Some(FrozenFanOut(l, err)) =>
      fanOut && |fails| == l + 1 <= links && StoppedAt(fails, a) && fails[l].Some? && fails[l].value.err == err
    case _ => fails == []
  }

  /** The last link failed and froze the port, and no other. */
  predicate StoppedAt(fails: seq<Option<Failure>>, a: Answers) {
    && fails != [] && fails[|fails| - 1].Some? && a.frozen(|fails| - 1)
    && NoneFroze(fails[..|fails| - 1], a)
  }

  predicate Ascending(first: seq<nat>) {
    forall l, m :: 0 <= l < m < |first| ==> first[l] < first[m]
  }

  lemma TraceNext(start: seq<Device>, was: seq<Device>, now: seq<Device>, first: seq<nat>, fails: seq<Option<Failure>>,
                  a: Answers, pmpCapable: bool, failed: Option<Failure>)
    requires Traced(start, was, first, fails, a, pmpCapable) && Ascending(first) && |fails| + 1 < |first|
    requires SameOutside(was, now, first[|fails|], first[|fails| + 1])
    requires LinkSeen(was, now, first[|fails|], first[|fails| + 1], a, pmpCapable, failed)
    ensures Traced(start, now, first, fails + [failed], a, pmpCapable)
  {
    SeenStays(start, was, now, first, fails, a, pmpCapable);
    assert (fails + [failed])[..|fails|] == fails;
  }

  /** A link recovered without a failure extends a clean pass. */
  lemma CleanNext(start: seq<Device>, before: seq<Device>, attached: seq<Device>, report: Option<Failure>,
                  after: seq<Device>, lo: nat, hi: nat, a: Answers, pmpCapable: bool)
    requires Clean(start, before, lo, a, pmpCapable) && SameFrom(start, before, lo) && lo <= hi <= |start|
    requires LinkOutcome(before, attached, report, after, lo, hi, a, pmpCapable, None)
    requires attached[lo].cls != Pmp
    ensures Clean(start, after, hi, a, pmpCapable) && SameFrom(start, after, hi)
  {}

  /** The state of a pass after the links below device k: each failure has cost rank, and without
    * one everything below k is seen to and the rest untouched; a multiplier would have ended it. */
  predicate Passed(start: seq<Device>, now: seq<Device>, k: nat, nrFailed: nat, a: Answers, pmpCapable: bool) {
    && AllWithinBudget(start, now)
    && TotalRank(now) <= TotalRank(start) - nrFailed
    && (if k == 0 then now == start else !(pmpCapable && |start| > 0 && PmpThere(start[0], a)))
    && (nrFailed == 0 ==> Clean(start, now, k, a, pmpCapable) && SameFrom(start, now, k))
  }

  lemma PassedNext(start: seq<Device>, before: seq<Device>, attached: seq<Device>, report: Option<Failure>,
                   after: seq<Device>, lo: nat, hi: nat, nrFailed: nat, a: Answers, pmpCapable: bool,
                   failed: Option<Failure>)
    requires Passed(start, before, lo, nrFailed, a, pmpCapable) && lo < hi <= |start|
    requires LinkOutcome(before, attached, report, after, lo, hi, a, pmpCapable, failed)
    requires AllReady(before) && NoPmp(before) && (pmpCapable ==> |before| == 1 && lo == 0)
    ensures AllWithinBudget(start, after)
    ensures NoPmp(after) || (pmpCapable && failed.None? && after[lo].cls == Pmp)
    ensures failed.Some? || attached[lo].cls != Pmp ==>
      NoPmp(after) && Passed(start, after, hi, nrFailed + (if failed.Some? then 1 else 0), a, pmpCapable)
  {
    LinkKeeps(before, attached, report, after, lo, hi, a, pmpCapable, failed);
    BudgetChain(start, before, after);
    if pmpCapable && PmpThere(before[0], a) {
      PmpAttaches(before, attached, report, after, hi, a, failed);
    }
    if failed.None? && nrFailed == 0 && attached[lo].cls != Pmp {
      CleanNext(start, before, attached, report, after, lo, hi, a, pmpCapable);
    }
  }

  class Recovery {
    var devs: seq<Device>
    const first: seq<nat>
    const fanOut: bool
    const pmpCapable: bool

    /** The links partition the devices; a port multiplier can only be the one device of a host. */
    ghost predicate Valid()
      reads this
    {
      && |first| > 0 && first[0] == 0 && first[|first| - 1] == |devs|
      && Ascending(first)
      && (pmpCapable ==> !fanOut && |first| == 2 && |devs| == 1)
      && AllReady(devs)
    }

    constructor (devices: seq<Device>, links: seq<nat>, fanOut: bool, pmpCapable: bool)
      requires |links| > 0 && links[0] == 0 && links[|links| - 1] == |devices|
      requires Ascending(links)
      requires pmpCapable ==> !fanOut && |links| == 2 && |devices| == 1
      requires AllReady(devices)
      ensures Valid() && devs == devices && first == links
      ensures this.fanOut == fanOut && this.pmpCapable == pmpCapable
    {
      devs, first, this.fanOut, this.pmpCapable := devices, links, fanOut, pmpCapable;
    }

    /** The opening of ata_eh_recover: fresh tries, requested detaches, probes of disabled devices. */
    method Prepare(noRetry: nat -> bool)
      requires Valid()
      modifies this
      ensures Valid() && |devs| == |old(devs)|
      ensures forall i :: 0 <= i < |devs| ==> devs[i] == Prepared(old(devs)[i], noRetry(i))
      ensures forall i :: 0 <= i < |devs| ==> 1 <= devs[i].tries <= ATA_EH_DEV_TRIES
      ensures AllWithinBudget(old(devs), devs)
      ensures NoPmp(old(devs)) ==> NoPmp(devs)
    {
      var i := 0;
      while i < |devs|
        invariant i <= |devs| == |old(devs)|
        invariant forall j :: i <= j < |devs| ==> devs[j] == old(devs)[j]
        invariant forall j :: 0 <= j < i ==>
          && devs[j] == Prepared(old(devs)[j], noRetry(j))
          && 1 <= devs[j].tries <= ATA_EH_DEV_TRIES && WithinBudget(old(devs)[j], devs[j])
          && (devs[j].cls == Pmp ==> old(devs)[j].cls == Pmp)
      {
        var d := devs[i].(tries := if noRetry(i) then 1 else ATA_EH_DEV_TRIES);
        if d.detach {
          d := Detached(d);
        }
        if !ClassEnabled(d.cls) {
          d := Probed(d);
        }
        devs := devs[i := d];
        i := i + 1;
      }
    }

    /** The attempt of ata_eh_revalidate_and_attach at a device of unknown class. */
    method Attach(i: nat, a: Answers) returns (rc: Option<Errno>)
      requires Valid() && i < |devs| && devs[i].cls == Unknown && devs[i].tries != 0
      requires ClassEnabled(a.found(i))
      modifies this
      ensures Valid()
      ensures rc == Identified(i, a, pmpCapable).1
      ensures
        var found := old(devs)[i].(cls := Identified(i, a, pmpCapable).0);
        devs == if rc.None? then old(devs)[i := found] else old(devs)
    {
      var cls := a.found(i);
      if cls == Pmp {
        rc := if pmpCapable then a.identify(i) else Some(EINVAL);
      } else if cls == Semb {
        rc := Some(ENODEV);
      } else {
        rc := a.identify(i);
        cls := if a.atapi(i) then Atapi else Ata;
      }
      if rc.None? {
        devs := devs[i := devs[i].(cls := cls)];
      }
    }

    /** The body of the backward loop of ata_eh_revalidate_and_attach. */
    method VisitOne(i: nat, a: Answers) returns (rc: Option<Errno>, isNew: bool)
      requires Valid() && i < |devs|
      modifies this
      ensures Valid()
      ensures
        var v := Visit(old(devs)[i], i, a, pmpCapable);
        devs == old(devs)[i := v.0] && rc == v.1
      ensures isNew <==> old(devs)[i].cls == Unknown && devs[i].cls != Unknown
      ensures rc.Some? ==> Blames(old(devs)[i], i, a, pmpCapable, rc.value)
      ensures rc.None? && a.revalidates(i) && ClassEnabled(old(devs)[i].cls) ==>
        !a.offline(i) && a.revalidation(i).None?
    {
      rc, isNew := None, false;
      var d := devs[i];
      if a.revalidates(i) && ClassEnabled(d.cls) {
        if a.offline(i) {
          return Some(EIO), false;
        }
        rc := a.revalidation(i);
      } else if d.cls == Unknown && d.tries != 0 && ClassEnabled(a.found(i)) {
        rc := Attach(i, a);
        if rc.None? {
          isNew := true;
        } else if rc.value == ENOENT {
          rc := None;
        }
      }
    }

    /** The backward loop of ata_eh_revalidate_and_attach on link l. */
    method VisitAll(l: nat, a: Answers) returns (failed: Option<Failure>, newMask: set<nat>)
      requires Valid() && l + 1 < |first|
      modifies this
      ensures Valid()
      ensures failed.None? ==> VisitedDownTo(old(devs), devs, first[l], first[l + 1], a, pmpCapable)
      ensures failed.None? ==> NewOnes(newMask, old(devs), devs, first[l], first[l + 1])
      ensures failed.Some? ==>
        var f := failed.value;
        && first[l] <= f.dev < first[l + 1] && f.dev < |old(devs)|
        && Visit(old(devs)[f.dev], f.dev, a, pmpCapable).1 == Some(f.err)
        && VisitedDownTo(old(devs), devs, f.dev + 1, first[l + 1], a, pmpCapable)
    {
      var i := first[l + 1];
      failed, newMask := None, {};
      while i > first[l]
        invariant first[l] <= i <= first[l + 1]
        invariant Valid()
        invariant VisitedDownTo(old(devs), devs, i, first[l + 1], a, pmpCapable)
        invariant NewOnes(newMask, old(devs), devs, i, first[l + 1])
        decreases i
      {
        i := i - 1;
        FailedVisit(devs[i], i, a, pmpCapable);
        var rc, isNew := VisitOne(i, a);
        if rc.Some? {
          return Some(Failure(i, rc.value)), newMask;
        }
        if isNew {
          newMask := newMask + {i};
        }
      }
    }

    /** ata_eh_revalidate_and_attach on link l. */
    method RevalidateAndAttach(l: nat, a: Answers) returns (failed: Option<Failure>)
      requires Valid() && l + 1 < |first|
      modifies this
      ensures Valid()
      ensures AttachOutcome(old(devs), devs, first[l], first[l + 1], a, pmpCapable, failed)
      ensures failed.Some? ==>
        var f := failed.value;
        f.dev < |old(devs)| && Blames(old(devs)[f.dev], f.dev, a, pmpCapable, f.err)
    {
      var newMask;
      failed, newMask := VisitAll(l, a);
      if failed.Some? {
        AttachBlames(old(devs), devs, first[l], first[l + 1], a, pmpCapable, failed.value);
        return;
      }
      var i := first[l];
      while i < first[l + 1]
        invariant first[l] <= i <= first[l + 1]
        invariant Valid()
        invariant Configured(old(devs), devs, first[l], first[l + 1], i, a, pmpCapable)
      {
        if i in newMask && devs[i].cls != Pmp {
          var rc := a.configure(i);
          if rc.Some? {
            AttachBlames(old(devs), devs, first[l], first[l + 1], a, pmpCapable, Failure(i, rc.value));
            return Some(Failure(i, rc.value));
          }
        }
        i := i + 1;
      }
    }

    /** ata_do_set_mode on link l: PIO timings for all of its devices, then their transfer modes. */
    method SetMode(l: nat, a: Answers) returns (failed: Option<Failure>)
      requires Valid() && l + 1 < |first|
      ensures ModeOutcome(devs, first[l], first[l + 1], a, failed)
    {
      var i := first[l];
      while i < first[l + 1]
        invariant first[l] <= i <= first[l + 1]
        invariant PioThere(devs, first[l], i, a)
      {
        if ClassEnabled(devs[i].cls) && !a.hasPio(i) {
          return Some(Failure(i, EINVAL));
        }
        i := i + 1;
      }
      i := first[l];
      while i < first[l + 1]
        invariant first[l] <= i <= first[l + 1]
        invariant ModesSet(devs, first[l], i, a)
      {
        if ClassEnabled(devs[i].cls) {
          var rc := a.setMode(i);
          if rc.Some? {
            return Some(Failure(i, rc.value));
          }
        }
        i := i + 1;
      }
      return None;
    }

    /** ata_eh_handle_dev_fail. */
    method HandleDevFail(f: Failure, offline: bool) returns (disabled: bool)
      requires Valid() && f.dev < |devs| && MayFail(devs[f.dev])
      modifies this
      ensures Valid()
      ensures devs == old(devs)[f.dev := AfterFailure(old(devs)[f.dev], f.err, offline).0]
      ensures disabled == AfterFailure(old(devs)[f.dev], f.err, offline).1
    {
      FailureCosts(devs[f.dev], f.err, offline);
      var d;
      d, disabled := FailDevice(devs[f.dev], f.err, offline);
      devs := devs[f.dev := d];
    }

    /** The recovery of one link in a pass.  `report` is what attaching reported and `attached` the
      * devices after it. */
    method RecoverLink(l: nat, a: Answers)
      returns (failed: Option<Failure>, ghost attached: seq<Device>, ghost report: Option<Failure>)
      requires Valid() && l + 1 < |first| && NoPmp(devs)
      modifies this
      ensures Valid()
      ensures LinkOutcome(old(devs), attached, report, devs, first[l], first[l + 1], a, pmpCapable, failed)
    {
      failed := RevalidateAndAttach(l, a);
      attached, report := devs, failed;
      AttachKeeps(old(devs), devs, first[l], first[l + 1], a, pmpCapable, failed);
      if failed.None? {
        if devs[first[l]].cls == Pmp {
          return;
        }
        failed := SetMode(l, a);
        FailingDeviceReady(devs, first[l], first[l + 1], a, failed);
      }
      if failed.Some? {
        var disabled := HandleDevFail(failed.value, a.offlineAfter(failed.value.dev));
      }
    }

    /** The resets of a pass; a link whose reset fails ends the recovery. */
    method ResetLinks(a: Answers) returns (failed: Option<Exit>)
      ensures failed.None? <==> forall l :: 0 <= l < |first| - 1 ==> a.reset(l).None?
      ensures failed.Some? ==>
        var f := failed.value;
        && f.ResetFailed? && f.link < |first| - 1 && a.reset(f.link) == Some(f.err)
        && forall l :: 0 <= l < f.link ==> a.reset(l).None?
    {
      var l := 0;
      while l + 1 < |first|
        invariant forall m :: 0 <= m < l ==> a.reset(m).None?
      {
        var rc := a.reset(l);
        if rc.Some? {
          return Some(ResetFailed(l, rc.value));
        }
        l := l + 1;
      }
      return None;
    }

    /** One link of a pass that began with the devices `start`. */
    method PassLink(l: nat, a: Answers, before: nat, ghost start: seq<Device>, ghost fails: seq<Option<Failure>>)
      returns (failed: Option<Failure>, nrFailed: nat)
      requires Valid() && l + 1 < |first| && NoPmp(devs) && Passed(start, devs, first[l], before, a, pmpCapable)
      requires |fails| == l && Traced(start, devs, first, fails, a, pmpCapable)
      modifies this
      ensures Valid() && AllWithinBudget(start, devs)
      ensures nrFailed == before + (if failed.Some? then 1 else 0)
      ensures failed.None? && devs[first[l]].cls == Pmp ==> pmpCapable
      ensures failed.Some? || devs[first[l]].cls != Pmp ==>
        && NoPmp(devs) && Passed(start, devs, first[l + 1], nrFailed, a, pmpCapable)
        && Traced(start, devs, first, fails + [failed], a, pmpCapable)
    {
      ghost var was := devs;
      ghost var attached, report;
      failed, attached, report := RecoverLink(l, a);
      nrFailed := before + if failed.Some? then 1 else 0;
      PassedNext(start, was, attached, report, devs, first[l], first[l + 1], before, a, pmpCapable, failed);
      LinkExact(was, attached, report, devs, first[l], first[l + 1], a, pmpCapable, failed);
      if failed.Some? || devs[first[l]].cls != Pmp {
        TraceNext(start, was, devs, first, fails, a, pmpCapable, failed);
      }
    }

    /** A multiplier is there to be attached to the host. */
    ghost predicate PmpWaits(a: Answers)
      reads this
    {
      pmpCapable && |devs| > 0 && PmpThere(devs[0], a)
    }

    /** The links of a pass that began with the devices `start` have all been seen to, or enough of them:
      * a pass that has to be repeated has cost rank, and one without a failure has seen to every
      * device.  `fails` is what each link came to. */
    ghost predicate PassedOver(start: seq<Device>, exit: Option<Exit>, nrFailed: nat, fails: seq<Option<Failure>>,
                               a: Answers)
      reads this
    {
      && (exit.None? && nrFailed > 0 ==> TotalRank(devs) < TotalRank(start))
      && (exit.None? && nrFailed == 0 ==> Clean(start, devs, |devs|, a, pmpCapable))
      && |first| > 0 && WentOver(exit, fails, |first| - 1, fanOut, a) && (nrFailed > 0 <==> AnyFailed(fails))
      && if exit == Some(PmpAttached) then pmpCapable && |devs| > 0 && devs[0].cls == Pmp
         else NoPmp(devs) && Traced(start, devs, first, fails, a, pmpCapable)
    }

    /** One pass of the retry loop: an exit, or the number of devices that failed. */
    method Pass(a: Answers) returns (exit: Option<Exit>, nrFailed: nat, ghost fails: seq<Option<Failure>>)
      requires Valid() && NoPmp(devs)
      modifies this
      ensures Valid() && AllWithinBudget(old(devs), devs)
      ensures ExitFits(exit, a) && PassedOver(old(devs), exit, nrFailed, fails, a)
      ensures old(PmpWaits(a)) ==> exit == Some(PmpAttached)
    {
      nrFailed, fails := 0, [];
      if a.unloading {
        return Some(Unloaded), nrFailed, fails;
      }
      exit := ResetLinks(a);
      if exit.None? {
        exit, nrFailed, fails := PassLinks(a);
      }
    }

    /** The links of a pass, one after the other. */
    method PassLinks(a: Answers) returns (exit: Option<Exit>, nrFailed: nat, ghost fails: seq<Option<Failure>>)
      requires Valid() && NoPmp(devs)
      modifies this
      ensures Valid() && AllWithinBudget(old(devs), devs)
      ensures exit.Some? ==> exit.value.PmpAttached? || exit.value.FrozenFanOut?
      ensures PassedOver(old(devs), exit, nrFailed, fails, a)
      ensures old(PmpWaits(a)) ==> exit == Some(PmpAttached)
    {
      exit, nrFailed, fails := None, 0, [];
      ghost var start := devs;
      var l := 0;
      while l + 1 < |first|
        invariant l < |first|
        invariant MidPass(start, l, nrFailed, fails, a)
      {
        var stop;
        stop, exit, nrFailed, fails := NextLink(l, a, nrFailed, start, fails);
        if stop {
          return;
        }
        l := l + 1;
      }
      return None, nrFailed, fails;
    }

    /** A pass that began with the devices `start` comes to link l. */
    ghost predicate MidPass(start: seq<Device>, l: nat, nrFailed: nat, fails: seq<Option<Failure>>, a: Answers)
      reads this
    {
      && Valid() && NoPmp(devs) && l == |fails| < |first|
      && Passed(start, devs, first[l], nrFailed, a, pmpCapable) && Traced(start, devs, first, fails, a, pmpCapable)
      && NoneFroze(fails, a) && (nrFailed > 0 <==> AnyFailed(fails))
    }

    /** One turn of the loop over the links. */
    method NextLink(l: nat, a: Answers, before: nat, ghost start: seq<Device>, ghost fails: seq<Option<Failure>>)
      returns (stop: bool, exit: Option<Exit>, nrFailed: nat, ghost fails': seq<Option<Failure>>)
      requires MidPass(start, l, before, fails, a) && l + 1 < |first|
      modifies this
      ensures Valid() && AllWithinBudget(start, devs)
      ensures if stop then PassedOver(start, exit, nrFailed, fails', a) else MidPass(start, l + 1, nrFailed, fails', a)
      ensures stop && exit.Some? ==> exit.value.PmpAttached? || exit.value.FrozenFanOut?
      ensures stop && pmpCapable && |start| > 0 && PmpThere(start[0], a) ==> exit == Some(PmpAttached)
    {
      var failed;
      failed, nrFailed := PassLink(l, a, before, start, fails);
      stop, exit, fails' := false, None, fails;
      if failed.None? && devs[first[l]].cls == Pmp {
        return true, Some(PmpAttached), nrFailed, fails';
      }
      OneMore(fails, failed, a);
      fails' := fails + [failed];
      assert fails'[..l] == fails;
      if failed.Some? && a.frozen(l) {
        stop := true;
        if fanOut {
          exit := Some(FrozenFanOut(l, failed.value.err));
        }
      }
    }

    /** What an exit says about the pass it ended. */
    ghost predicate ExitFits(exit: Option<Exit>, a: Answers) {
      && (exit == Some(Unloaded) <==> a.unloading)
      && (exit.Some? && exit.value.ResetFailed? ==>
            exit.value.link < |first| - 1 && a.reset(exit.value.link) == Some(exit.value.err))
      && (exit.None? ==> forall l :: 0 <= l < |first| - 1 ==> a.reset(l).None?)
      && exit != Some(Recovered)
    }

    /** The error is that of a device on the link. */
    ghost predicate BlamedOn(l: nat, err: Errno, a: Answers, last: seq<Device>)
      requires l + 1 < |first|
    {
      exists j :: first[l] <= j < first[l + 1] && j < |last| && Blames(last[j], j, a, pmpCapable, err)
    }

    /** How recovery ends, in a pass that began with the devices `last`: recovered devices are those the
      * pass saw to without a failure, and only a host recovery that found a multiplier leaves one. */
    ghost predicate Ended(exit: Exit, a: Answers, last: seq<Device>)
      reads this
    {
      && (exit == Recovered ==> AllAnswered(last, devs, 0, |devs|, a, pmpCapable))
      && (exit.FrozenFanOut? ==> fanOut && exit.link < |first| - 1 && a.frozen(exit.link)
                                 && BlamedOn(exit.link, exit.err, a, last))
      && ExitFits(if exit == Recovered then None else Some(exit), a)
      && (if exit == PmpAttached then pmpCapable && |devs| > 0 && devs[0].cls == Pmp else NoPmp(devs))
    }

    /** A pass of a recovery that began with the devices `start`. */
    method NextPass(a: Answers, ghost start: seq<Device>) returns (exit: Exit, again: bool)
      requires Valid() && NoPmp(devs) && AllWithinBudget(start, devs)
      modifies this
      ensures Valid() && AllWithinBudget(start, devs) && 0 <= TotalRank(devs)
      ensures again ==> TotalRank(devs) < TotalRank(old(devs))
      ensures if again then NoPmp(devs) else Ended(exit, a, old(devs))
      ensures old(PmpWaits(a)) ==> !again && exit == PmpAttached
    {
      var result, nrFailed;
      ghost var fails;
      result, nrFailed, fails := Pass(a);
      CleanExact(old(devs), devs, |devs|, a, pmpCapable);
      BudgetChain(start, old(devs), devs);
      TotalRankBounds(devs);
      exit := if result.Some? then result.value else Recovered;
      again := result.None? && nrFailed > 0;
    }

    /** The retry loop of ata_eh_recover.  `last` holds the devices before the last pass. */
    method Passes(answers: nat -> Answers) returns (exit: Exit, passes: nat, ghost last: seq<Device>)
      requires Valid() && NoPmp(devs)
      modifies this
      ensures Valid() && AllWithinBudget(old(devs), devs)
      ensures 1 <= passes <= 1 + TotalRank(old(devs))
      ensures Ended(exit, answers(passes - 1), last)
      ensures old(PmpWaits(answers(0))) ==> exit == PmpAttached
    {
      passes := 0;
      ghost var start := devs;
      TotalRankBounds(devs);
      BudgetSelf(devs);
      while true
        invariant Valid() && NoPmp(devs) && AllWithinBudget(start, devs)
        invariant 0 <= TotalRank(devs) <= TotalRank(start) - passes
        invariant passes == 0 ==> devs == start
        invariant old(PmpWaits(answers(0))) ==> passes == 0
        decreases TotalRank(devs)
      {
        last := devs;
        var again;
        exit, again := NextPass(answers(passes), start);
        passes := passes + 1;
        if !again {
          return;
        }
      }
    }

    /** ata_eh_recover.  It ends whatever the hardware answers, within as many passes as the devices
      * have rank after the preparation; every enabled device keeps a try; a port multiplier that
      * turns up has used up one of the device's chances to be attached; and devices are recovered
      * when a whole pass saw to each of them without a failure. */
    method Recover(noRetry: nat -> bool, answers: nat -> Answers)
      returns (exit: Exit, passes: nat, ghost last: seq<Device>)
      requires Valid() && NoPmp(devs)
      modifies this
      ensures Valid() && AllWithinBudget(old(devs), devs)
      ensures 1 <= passes <= 1 + (2 * ATA_EH_DEV_TRIES + 1) * |devs|
      ensures Ended(exit, answers(passes - 1), last)
      ensures pmpCapable && PmpThere(Prepared(old(devs)[0], noRetry(0)), answers(0)) ==> exit == PmpAttached
      ensures forall i :: 0 <= i < |devs| ==> !devs[i].detach
    {
      Prepare(noRetry);
      ghost var prepared := devs;
      TotalRankBounds(devs);
      exit, passes, last := Passes(answers);
      BudgetChain(old(devs), prepared, devs);
    }
  }
}
