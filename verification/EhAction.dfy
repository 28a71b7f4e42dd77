/** Recovery actions requested for a whole link or for one of its devices (libata-eh.c). */
module EhActions {
  import opened Libata

  /** The part of ata_eh_info the helpers work on; `resume` is the reset modifier flag. */
  class EhInfo {
    var action: set<Action>
    var devAction: seq<set<Action>>
    var resume: bool

    constructor (devices: nat)
      ensures action == {} && |devAction| == devices && !resume
      ensures forall d :: 0 <= d < devices ==> devAction[d] == {}
    {
      action, devAction, resume := {}, seq(devices, _ => {}), false;
    }

    /** What is to be done to a device, link-wide actions included. */
    function Due(dev: nat): set<Action>
      reads this
      requires dev < |devAction|
    {
      action + devAction[dev]
    }

    /** ata_eh_clear_action.  Clearing an action for one device leaves everything due to the others
      * in place, even if it was requested link-wide. */
    method ClearAction(dev: Option<nat>, acts: set<Action>)
      requires dev.Some? ==> dev.value < |devAction|
      modifies this
      ensures |devAction| == old(|devAction|) && resume == old(resume)
      ensures dev.None? ==> action == old(action) - acts
      ensures dev.Some? ==> action * acts == {} && action <= old(action)
      ensures forall d :: 0 <= d < |devAction| ==>
        Due(d) == if dev.None? || dev.value == d then old(Due(d)) - acts else old(Due(d))
    {
      if dev.None? {
        action := action - acts;
        var i := 0;
        while i < |devAction|
          invariant i <= |devAction| == old(|devAction|)
          invariant action == old(action) - acts && resume == old(resume)
          invariant forall d :: 0 <= d < |devAction| ==>
            devAction[d] == if d < i then old(devAction[d]) - acts else old(devAction[d])
        {
          devAction := devAction[i := devAction[i] - acts];
          i := i + 1;
        }
      } else {
        if action * acts != {} {
          var moved := action * acts;
          var i := 0;
          while i < |devAction|
            invariant i <= |devAction| == old(|devAction|)
            invariant action == old(action) && resume == old(resume)
            invariant forall d :: 0 <= d < |devAction| ==>
              devAction[d] == if d < i then old(devAction[d]) + moved else old(devAction[d])
          {
            devAction := devAction[i := devAction[i] + moved];
            i := i + 1;
          }
          action := action - acts;
        }
        devAction := devAction[dev.value := devAction[dev.value] - acts];
        assert forall x :: x in old(action) && x in acts ==> x in old(action) * acts;
        forall d | 0 <= d < |devAction|
          ensures Due(d) == if dev.value == d then old(Due(d)) - acts else old(Due(d))
        {
          var moved := old(action) * acts;
          assert old(action) == (old(action) - acts) + moved;
          if dev.value == d {
            assert devAction[d] == old(devAction[d]) + moved - acts;
          } else {
            assert devAction[d] == old(devAction[d]) + moved;
          }
        }
      }
    }
  }

  /** A reset stands for both kinds. */
  function WithReset(acts: set<Action>): (r: set<Action>)
    ensures forall x :: x in r <==>
      x in acts || ((x == SoftReset || x == HardReset) && (SoftReset in acts || HardReset in acts))
  {
    assert SoftReset in acts ==> SoftReset in acts * RESET_MASK;
    assert HardReset in acts ==> HardReset in acts * RESET_MASK;
    if acts * RESET_MASK != {} then acts + RESET_MASK else acts
  }

  /** Clearing the pending resets clears every reset. */
  lemma ClearsEveryReset(acts: set<Action>)
    ensures acts - WithReset(acts * RESET_MASK) == acts - RESET_MASK
  {}

  /** ata_eh_about_to_do.  Requests that arrived in the meantime are dropped from `info`, but a
    * pending reset is first taken over into the running context: no reset request is lost. */
  method AboutToDo(info: EhInfo, ctx: EhInfo, dev: Option<nat>, acts: set<Action>)
    requires info != ctx && (dev.Some? ==> dev.value < |info.devAction|)
    modifies info, ctx
    ensures |info.devAction| == old(|info.devAction|) && ctx.devAction == old(ctx.devAction)
    ensures forall d :: 0 <= d < |info.devAction| ==>
      info.Due(d) == if dev.None? || dev.value == d then old(info.Due(d)) - WithReset(acts) else old(info.Due(d))
    ensures dev.None? ==> info.action == old(info.action) - WithReset(acts)
    ensures acts * RESET_MASK != {} ==> forall d :: 0 <= d < |info.devAction| && (dev.None? || dev.value == d) ==>
      info.Due(d) * RESET_MASK == {}
    ensures acts * RESET_MASK != {} ==>
      && ctx.action == old(ctx.action) + old(info.action) * RESET_MASK
      && (ctx.resume <==> old(ctx.resume) || old(info.resume)) && !info.resume
    ensures acts * RESET_MASK == {} ==>
      ctx.action == old(ctx.action) && ctx.resume == old(ctx.resume) && info.resume == old(info.resume)
  {
    var toClear := acts;
    if acts * RESET_MASK != {} {
      ctx.action := ctx.action + info.action * RESET_MASK;
      ctx.resume := ctx.resume || info.resume;
      toClear := acts + RESET_MASK;
      info.resume := false;
    }
    info.ClearAction(dev, toClear);
  }

  /** ata_eh_done. */
  method Done(ctx: EhInfo, dev: Option<nat>, acts: set<Action>)
    requires dev.Some? ==> dev.value < |ctx.devAction|
    modifies ctx
    ensures |ctx.devAction| == old(|ctx.devAction|)
    ensures forall d :: 0 <= d < |ctx.devAction| ==>
      ctx.Due(d) == if dev.None? || dev.value == d then old(ctx.Due(d)) - WithReset(acts) else old(ctx.Due(d))
    ensures dev.None? ==> ctx.action == old(ctx.action) - WithReset(acts)
    ensures acts * RESET_MASK != {} ==> forall d :: 0 <= d < |ctx.devAction| && (dev.None? || dev.value == d) ==>
      ctx.Due(d) * RESET_MASK == {}
    ensures ctx.resume <==> old(ctx.resume) && acts * RESET_MASK == {}
  {
    var toClear := acts;
    if acts * RESET_MASK != {} {
      toClear := acts + RESET_MASK;
      ctx.resume := false;
    }
    ctx.ClearAction(dev, toClear);
  }
}
