/** Which link of a port may have commands in flight: the deferral protocols over `excl_link` and
  * `nr_active_links` (libata-pmp.c, sata_sil24.c), with libata's bookkeeping around them.
  */
module LinkArbitration {
  import opened Libata

  /** A command in flight.  `exclusive` is an ATAPI or RESULT_TF command, `clearExcl` the flag that
    * makes its completion clear the exclusion.  A command that fails between libata and the driver
    * is in flight, until error handling, without having `reached` the driver. */
  datatype Active = Active(link: nat, ncq: bool, exclusive: bool, clearExcl: bool, reached: bool)

  datatype Decision = Go | DeferLink | DeferPort

  datatype State = State(
    sactive: seq<set<nat>>,
    activeTag: seq<Option<nat>>,
    nrActive: int,
    excl: Option<nat>,
    cmds: map<nat, Active>,
    activeLink: nat)

  /** The host's rule for admitting a command. */
  datatype Policy = CommandSwitch | Sil24

  /** A deferral decision, the flag it leaves on the command, and the exclusion afterwards. */
  datatype Verdict = Verdict(decision: Decision, clearExcl: bool, excl: Option<nat>)

  /** Error handling ends with nothing in flight.  It may attach or detach a multiplier, which changes
    * the number of links, and its internal commands leave some link remembered. */
  datatype Event =
    | Offer(tag: nat, link: nat, ncq: bool, exclusive: bool, reaches: bool)
    | Complete(tag: nat)
    | ErrorHandling(links: nat, activeLink: nat)

  function Idle(links: nat): State {
    State(seq(links, _ => {}), seq(links, _ => None), 0, None, map[], 0)
  }

  predicate LinkActive(s: State, l: nat)
    requires l < |s.sactive| == |s.activeTag|
  {
    s.activeTag[l].Some? || s.sactive[l] != {}
  }

  predicate Shaped(s: State, links: nat) {
    |s.sactive| == |s.activeTag| == links
  }

  // ---------------------------------------------------------------------------------------------
  // The rules

  /** ata_std_qc_defer. */
  function StdDefer(s: State, l: nat, ncq: bool): Decision
    requires Shaped(s, |s.sactive|) && l < |s.sactive|
  {
    if (if ncq then s.activeTag[l].None? else s.activeTag[l].None? && s.sactive[l] == {}) then Go else DeferLink
  }

  /** sata_pmp_qc_defer_cmd_switch. */
  function SwitchDefer(s: State, l: nat, ncq: bool): Verdict
    requires Shaped(s, |s.sactive|) && l < |s.sactive|
  {
    if s.excl.None? || s.excl.value == l then
      if s.nrActive == 0 || LinkActive(s, l) then Verdict(StdDefer(s, l, ncq), true, s.excl)
      else Verdict(DeferPort, false, Some(l))
    else Verdict(DeferPort, false, s.excl)
  }

  /** sil24_qc_defer. */
  function Sil24Defer(s: State, l: nat, ncq: bool, exclusive: bool): Verdict
    requires Shaped(s, |s.sactive|) && l < |s.sactive|
  {
    if s.excl.Some? then
      if s.excl.value == l && s.nrActive == 0 then Verdict(StdDefer(s, l, ncq), true, s.excl)
      else Verdict(DeferPort, false, s.excl)
    else if exclusive then
      if s.nrActive != 0 then Verdict(DeferPort, false, Some(l))
      else Verdict(StdDefer(s, l, ncq), true, Some(l))
    else Verdict(StdDefer(s, l, ncq), false, None)
  }

  function Judge(p: Policy, s: State, l: nat, ncq: bool, exclusive: bool): Verdict
    requires Shaped(s, |s.sactive|) && l < |s.sactive|
  {
    if p == CommandSwitch then SwitchDefer(s, l, ncq) else Sil24Defer(s, l, ncq, exclusive)
  }

  /** The bookkeeping of ata_qc_issue, and the link ahci_qc_issue remembers if it is reached. */
  function Issue(s: State, t: nat, c: Active): State
    requires Shaped(s, |s.sactive|) && c.link < |s.sactive|
  {
    var l := c.link;
    var s := s.(cmds := s.cmds[t := c], activeLink := if c.reached then l else s.activeLink);
    if c.ncq then
      s.(nrActive := if s.sactive[l] == {} then s.nrActive + 1 else s.nrActive,
         sactive := s.sactive[l := s.sactive[l] + {t}])
    else s.(nrActive := s.nrActive + 1, activeTag := s.activeTag[l := Some(t)])
  }

  /** The bookkeeping of __ata_qc_complete. */
  function Finish(s: State, t: nat): State
    requires Shaped(s, |s.sactive|) && t in s.cmds && s.cmds[t].link < |s.sactive|
  {
    var c := s.cmds[t];
    var l := c.link;
    var excl := if c.clearExcl && s.excl == Some(l) then None else s.excl;
    if c.ncq then
      var left := s.sactive[l] - {t};
      s.(sactive := s.sactive[l := left], nrActive := if left == {} then s.nrActive - 1 else s.nrActive,
         excl := excl, cmds := s.cmds - {t})
    else
      s.(activeTag := s.activeTag[l := None], nrActive := s.nrActive - 1, excl := excl, cmds := s.cmds - {t})
  }

  /** libata offers free tags on existing links, and completes what is in flight. */
  predicate Possible(s: State, e: Event) {
    match e
    case Offer(t, l, _, _, _) => t !in s.cmds && l < |s.sactive|
    case Complete(t) => t in s.cmds
    case ErrorHandling(_, _) => true
  }

  predicate Admits(p: Policy, s: State, e: Event)
    requires Shaped(s, |s.sactive|) && Possible(s, e)
  {
    e.Offer? && Judge(p, s, e.link, e.ncq, e.exclusive).decision == Go
  }

  predicate LinksKnown(s: State) {
    Shaped(s, |s.sactive|) && forall t :: t in s.cmds ==> s.cmds[t].link < |s.sactive|
  }

  function Next(p: Policy, s: State, e: Event): (r: State)
    requires LinksKnown(s) && Possible(s, e)
    ensures LinksKnown(r)
  {
    match e
    case Offer(t, l, ncq, exclusive, reaches) =>
      var v := Judge(p, s, l, ncq, exclusive);
      var s := s.(excl := v.excl);
      if v.decision == Go then Issue(s, t, Active(l, ncq, exclusive, v.clearExcl, reaches)) else s
    case Complete(t) => Finish(s, t)
    case ErrorHandling(links, activeLink) => Idle(links).(activeLink := activeLink)
  }

  // ---------------------------------------------------------------------------------------------
  // What the bookkeeping means

  function Busy(s: State): set<nat>
    requires Shaped(s, |s.sactive|)
  {
    set l | 0 <= l < |s.sactive| && LinkActive(s, l)
  }

  /** A link's fields list exactly its commands in flight, NCQ and other commands never mix on a
    * link, and `nrActive` is the number of links with commands. */
  ghost predicate Consistent(s: State) {
    && LinksKnown(s)
    && (forall l, t :: 0 <= l < |s.sactive| ==>
          (t in s.sactive[l] <==> t in s.cmds && s.cmds[t].link == l && s.cmds[t].ncq))
    && (forall l, t :: 0 <= l < |s.sactive| ==>
          (s.activeTag[l] == Some(t) <==> t in s.cmds && s.cmds[t].link == l && !s.cmds[t].ncq))
    && (forall l :: 0 <= l < |s.sactive| && s.activeTag[l].Some? ==> s.sactive[l] == {})
    && s.nrActive == |Busy(s)|
  }

  /** Issuing an admitted command makes its link busy, and no other. */
  lemma IssueBusy(s: State, t: nat, c: Active)
    requires Consistent(s) && t !in s.cmds && c.link < |s.sactive|
    requires StdDefer(s, c.link, c.ncq) == Go
    ensures var r := Issue(s, t, c); Busy(r) == Busy(s) + {c.link} && r.nrActive == |Busy(r)|
  {
    var r := Issue(s, t, c);
    forall l | 0 <= l < |s.sactive|
      ensures LinkActive(r, l) <==> LinkActive(s, l) || l == c.link
    {
      if l == c.link && c.ncq {
        assert t in r.sactive[l];
      }
    }
    assert Busy(r) == Busy(s) + {c.link};
    assert c.link in Busy(s) <==> (c.ncq && s.sactive[c.link] != {});
    if c.link in Busy(s) {
      assert Busy(r) == Busy(s);
    } else {
      assert |Busy(s) + {c.link}| == |Busy(s)| + 1;
    }
  }

  lemma IssueConsistent(s: State, t: nat, c: Active)
    requires Consistent(s) && t !in s.cmds && c.link < |s.sactive|
    requires StdDefer(s, c.link, c.ncq) == Go
    ensures Consistent(Issue(s, t, c))
    ensures Busy(Issue(s, t, c)) == Busy(s) + {c.link}
  {
    IssueBusy(s, t, c);
    IssueFields(s, t, c);
  }

  lemma IssueFields(s: State, t: nat, c: Active)
    requires Consistent(s) && t !in s.cmds && c.link < |s.sactive|
    requires StdDefer(s, c.link, c.ncq) == Go
    ensures
      var r := Issue(s, t, c);
      && (forall l, u :: 0 <= l < |s.sactive| ==>
            (u in r.sactive[l] <==> u in r.cmds && r.cmds[u].link == l && r.cmds[u].ncq))
      && (forall l, u :: 0 <= l < |s.sactive| ==>
            (r.activeTag[l] == Some(u) <==> u in r.cmds && r.cmds[u].link == l && !r.cmds[u].ncq))
  {
    var r := Issue(s, t, c);
    forall l, u | 0 <= l < |s.sactive|
      ensures u in r.sactive[l] <==> u in r.cmds && r.cmds[u].link == l && r.cmds[u].ncq
      ensures r.activeTag[l] == Some(u) <==> u in r.cmds && r.cmds[u].link == l && !r.cmds[u].ncq
    {
      assert u in s.sactive[l] <==> u in s.cmds && s.cmds[u].link == l && s.cmds[u].ncq;
      assert s.activeTag[l] == Some(u) <==> u in s.cmds && s.cmds[u].link == l && !s.cmds[u].ncq;
    }
  }

  /** Completing a command changes what is busy on its link only. */
  lemma FinishBusy(s: State, t: nat)
    requires Consistent(s) && t in s.cmds
    ensures
      var r, k := Finish(s, t), s.cmds[t].link;
      k in Busy(s) && Busy(r) == (if LinkActive(r, k) then Busy(s) else Busy(s) - {k}) && r.nrActive == |Busy(r)|
  {
    var r := Finish(s, t);
    var k := s.cmds[t].link;
    assert LinkActive(s, k) by { if s.cmds[t].ncq { assert t in s.sactive[k]; } }
    assert forall l :: 0 <= l < |s.sactive| && l != k ==> (LinkActive(r, l) <==> LinkActive(s, l));
    assert Busy(r) == if LinkActive(r, k) then Busy(s) else Busy(s) - {k};
    assert s.cmds[t].ncq ==> s.activeTag[k].None?;
    assert !s.cmds[t].ncq ==> s.activeTag[k] == Some(t) && s.sactive[k] == {};
  }

  lemma FinishConsistent(s: State, t: nat)
    requires Consistent(s) && t in s.cmds
    ensures Consistent(Finish(s, t))
    ensures Busy(Finish(s, t)) <= Busy(s)
  {
    FinishBusy(s, t);
    FinishFields(s, t);
  }

  lemma FinishFields(s: State, t: nat)
    requires Consistent(s) && t in s.cmds
    ensures
      var r := Finish(s, t);
      && (forall l, u :: 0 <= l < |s.sactive| ==>
            (u in r.sactive[l] <==> u in r.cmds && r.cmds[u].link == l && r.cmds[u].ncq))
      && (forall l, u :: 0 <= l < |s.sactive| ==>
            (r.activeTag[l] == Some(u) <==> u in r.cmds && r.cmds[u].link == l && !r.cmds[u].ncq))
  {
    var r := Finish(s, t);
    assert !s.cmds[t].ncq ==> s.activeTag[s.cmds[t].link] == Some(t);
    forall l, u | 0 <= l < |s.sactive|
      ensures u in r.sactive[l] <==> u in r.cmds && r.cmds[u].link == l && r.cmds[u].ncq
      ensures r.activeTag[l] == Some(u) <==> u in r.cmds && r.cmds[u].link == l && !r.cmds[u].ncq
    {
      assert s.activeTag[l] == Some(u) <==> u in s.cmds && s.cmds[u].link == l && !s.cmds[u].ncq;
    }
  }

  lemma BusyHasCommand(s: State, l: nat) returns (t: nat)
    requires Consistent(s) && l in Busy(s)
    ensures t in s.cmds && s.cmds[t].link == l
  {
    if s.activeTag[l].Some? {
      t := s.activeTag[l].value;
    } else {
      t :| t in s.sactive[l];
    }
  }

  lemma CommandMakesBusy(s: State, t: nat)
    requires Consistent(s) && t in s.cmds
    ensures s.cmds[t].link in Busy(s)
  {}

  lemma NothingActive(s: State)
    requires Consistent(s)
    ensures s.nrActive == 0 <==> s.cmds == map[]
  {
    if s.nrActive != 0 {
      var l :| l in Busy(s);
      var t := BusyHasCommand(s, l);
    } else if s.cmds != map[] {
      var t :| t in s.cmds;
      CommandMakesBusy(s, t);
    }
  }

  // ---------------------------------------------------------------------------------------------
  // What each host keeps

  /** Command switching: whatever is in flight is on one link, and it is the link AHCI remembers if
    * any of it has reached the driver. */
  ghost predicate SwitchInv(s: State) {
    && Consistent(s)
    && (forall t, u :: t in s.cmds && u in s.cmds ==> s.cmds[t].link == s.cmds[u].link)
    && (forall t :: t in s.cmds && s.cmds[t].reached ==> s.cmds[t].link == s.activeLink)
  }

  /** sil24: a command with the exclusion is alone in flight, and the exclusion is of its link. */
  ghost predicate Sil24Inv(s: State) {
    && Consistent(s)
    && forall t :: t in s.cmds ==>
         && (s.cmds[t].exclusive ==> s.cmds[t].clearExcl)
         && (s.cmds[t].clearExcl ==> s.cmds.Keys == {t} && s.excl == Some(s.cmds[t].link))
  }

  ghost predicate Inv(p: Policy, s: State) {
    if p == CommandSwitch then SwitchInv(s) else Sil24Inv(s)
  }

  lemma OneLinkBusy(s: State, t: nat)
    requires SwitchInv(s) && t in s.cmds
    ensures Busy(s) == {s.cmds[t].link}
  {
    CommandMakesBusy(s, t);
    forall l | l in Busy(s)
      ensures l == s.cmds[t].link
    {
      var u := BusyHasCommand(s, l);
    }
  }

  lemma ExclKeepsConsistent(s: State, excl: Option<nat>)
    requires Consistent(s)
    ensures Busy(s.(excl := excl)) == Busy(s)
    ensures Consistent(s.(excl := excl))
  {}

  /** Nothing on the link stands in the way of the command: NCQ and other commands do not mix, and
    * other commands are alone on their link. */
  ghost predicate MixesNothing(s: State, l: nat, ncq: bool) {
    forall t :: t in s.cmds && s.cmds[t].link == l ==> ncq && s.cmds[t].ncq
  }

  ghost predicate AllOn(s: State, l: nat) {
    forall t :: t in s.cmds ==> s.cmds[t].link == l
  }

  /** ata_std_qc_defer admits a command exactly when it mixes with nothing on its link. */
  lemma StdDeferMeans(s: State, l: nat, ncq: bool)
    requires Consistent(s) && l < |s.sactive|
    ensures StdDefer(s, l, ncq) == Go <==> MixesNothing(s, l, ncq)
  {
    assert forall t :: t in s.cmds && s.cmds[t].link == l ==>
      if s.cmds[t].ncq then t in s.sactive[l] else s.activeTag[l] == Some(t);
    if s.activeTag[l].Some? {
      var t := s.activeTag[l].value;
      assert t in s.cmds && s.cmds[t].link == l && !s.cmds[t].ncq;
    } else if !ncq && s.sactive[l] != {} {
      var t :| t in s.sactive[l];
      assert t in s.cmds && s.cmds[t].link == l;
    }
  }

  /** Command switching admits a command exactly when no other link is recorded, nothing is in flight
    * elsewhere, and it mixes with nothing.  It records the command's link only, and only if commands
    * of another link are in its way. */
  lemma SwitchMeans(s: State, l: nat, ncq: bool)
    requires SwitchInv(s) && l < |s.sactive|
    ensures SwitchDefer(s, l, ncq).decision == Go <==>
      (s.excl.None? || s.excl == Some(l)) && AllOn(s, l) && MixesNothing(s, l, ncq)
    ensures SwitchDefer(s, l, ncq).decision == DeferLink <==>
      (s.excl.None? || s.excl == Some(l)) && AllOn(s, l) && !MixesNothing(s, l, ncq)
    ensures SwitchDefer(s, l, ncq).decision == Go ==> SwitchDefer(s, l, ncq).clearExcl
    ensures SwitchDefer(s, l, ncq).excl == s.excl || SwitchDefer(s, l, ncq).excl == Some(l)
    ensures SwitchDefer(s, l, ncq).excl != s.excl ==> s.excl.None? && !AllOn(s, l)
  {
    StdDeferMeans(s, l, ncq);
    AloneMeans(s, l);
  }

  lemma AloneMeans(s: State, l: nat)
    requires SwitchInv(s) && l < |s.sactive|
    ensures AllOn(s, l) <==> s.nrActive == 0 || LinkActive(s, l)
  {
    NothingActive(s);
    if s.cmds != map[] {
      var t :| t in s.cmds;
      OneLinkBusy(s, t);
      assert LinkActive(s, l) <==> l in Busy(s);
    }
  }

  lemma OfferKeepsSwitch(s: State, e: Event)
    requires SwitchInv(s) && e.Offer? && Possible(s, e)
    ensures SwitchInv(Next(CommandSwitch, s, e))
  {
    var v := SwitchDefer(s, e.link, e.ncq);
    var r := s.(excl := v.excl);
    ExclKeepsConsistent(s, v.excl);
    SwitchMeans(s, e.link, e.ncq);
    if v.decision == Go {
      IssueKeepsSwitch(r, e.tag, Active(e.link, e.ncq, e.exclusive, v.clearExcl, e.reaches));
    }
  }

  lemma IssueKeepsSwitch(s: State, t: nat, c: Active)
    requires SwitchInv(s) && t !in s.cmds && c.link < |s.sactive|
    requires StdDefer(s, c.link, c.ncq) == Go && AllOn(s, c.link)
    ensures SwitchInv(Issue(s, t, c))
  {
    IssueConsistent(s, t, c);
    assert Issue(s, t, c).cmds == s.cmds[t := c];
  }

  /** What sil24 decides, in terms of what is in flight. */
  lemma Sil24Decides(s: State, l: nat, ncq: bool, exclusive: bool)
    requires Sil24Inv(s) && l < |s.sactive|
    ensures
      var v := Sil24Defer(s, l, ncq, exclusive);
      && (v.decision == Go && v.clearExcl ==> s.cmds == map[] && v.excl == Some(l))
      && (v.decision == Go && !v.clearExcl ==> s.excl.None? && v.excl.None? && !exclusive)
      && (s.excl.Some? ==> v.excl == s.excl)
      && (v.decision == Go ==> StdDefer(s, l, ncq) == Go)
  {
    NothingActive(s);
  }

  /** sil24 admits a command exactly when nothing else is in flight, if the command is exclusive or
    * its own link is recorded; when it mixes with nothing on its link, if neither; and never if
    * another link is recorded.  Only exclusive commands record a link, and only their own. */
  lemma Sil24Means(s: State, l: nat, ncq: bool, exclusive: bool)
    requires Sil24Inv(s) && l < |s.sactive|
    ensures
      var v := Sil24Defer(s, l, ncq, exclusive);
      && (v.decision == Go <==>
            if s.excl.Some? then s.excl == Some(l) && s.cmds == map[]
            else if exclusive then s.cmds == map[]
            else MixesNothing(s, l, ncq))
      && (v.decision == DeferLink <==> s.excl.None? && !exclusive && !MixesNothing(s, l, ncq))
      && (v.decision == Go ==> (v.clearExcl <==> s.excl.Some? || exclusive))
      && (v.excl != s.excl ==> s.excl.None? && exclusive && v.excl == Some(l))
  {
    NothingActive(s);
    StdDeferMeans(s, l, ncq);
  }

  lemma IssueKeepsSil24(s: State, t: nat, c: Active)
    requires Sil24Inv(s) && t !in s.cmds && c.link < |s.sactive|
    requires StdDefer(s, c.link, c.ncq) == Go
    requires if c.clearExcl then s.cmds == map[] && s.excl == Some(c.link) else s.excl.None? && !c.exclusive
    ensures Sil24Inv(Issue(s, t, c))
  {
    IssueConsistent(s, t, c);
    var r := Issue(s, t, c);
    assert r.cmds == s.cmds[t := c] && r.excl == s.excl;
    if c.clearExcl {
      assert r.cmds.Keys == {t};
    }
  }

  lemma OfferKeepsSil24(s: State, e: Event)
    requires Sil24Inv(s) && e.Offer? && Possible(s, e)
    ensures Sil24Inv(Next(Sil24, s, e))
    ensures Admits(Sil24, s, e) && e.exclusive ==> s.cmds == map[]
  {
    var v := Sil24Defer(s, e.link, e.ncq, e.exclusive);
    Sil24Decides(s, e.link, e.ncq, e.exclusive);
    ExclKeepsConsistent(s, v.excl);
    var r := s.(excl := v.excl);
    assert Sil24Inv(r);
    if v.decision == Go {
      IssueKeepsSil24(r, e.tag, Active(e.link, e.ncq, e.exclusive, v.clearExcl, e.reaches));
    }
  }

  lemma CompleteKeeps(p: Policy, s: State, t: nat)
    requires Inv(p, s) && t in s.cmds
    ensures Inv(p, Finish(s, t))
  {
    FinishConsistent(s, t);
  }

  lemma IdleInv(p: Policy, links: nat, activeLink: nat)
    ensures Inv(p, Idle(links).(activeLink := activeLink))
  {}

  lemma StepKeeps(p: Policy, s: State, e: Event)
    requires Inv(p, s) && Possible(s, e)
    ensures Inv(p, Next(p, s, e))
  {
    match e
    case Offer(_, _, _, _, _) =>
      if p == CommandSwitch { OfferKeepsSwitch(s, e); } else { OfferKeepsSil24(s, e); }
    case Complete(t) => CompleteKeeps(p, s, t);
    case ErrorHandling(links, activeLink) => IdleInv(p, links, activeLink);
  }

  // ---------------------------------------------------------------------------------------------
  // Runs

  predicate PossibleRun(p: Policy, s: State, events: seq<Event>)
    requires LinksKnown(s)
    decreases |events|
  {
    events == [] || (Possible(s, events[0]) && PossibleRun(p, Next(p, s, events[0]), events[1..]))
  }

  function Run(p: Policy, s: State, events: seq<Event>): (r: State)
    requires LinksKnown(s) && PossibleRun(p, s, events)
    ensures LinksKnown(r)
    decreases |events|
  {
    if events == [] then s else Run(p, Next(p, s, events[0]), events[1..])
  }

  lemma {:induction false} RunKeeps(p: Policy, s: State, events: seq<Event>)
    requires Inv(p, s) && PossibleRun(p, s, events)
    ensures Inv(p, Run(p, s, events))
    decreases |events|
  {
    if events != [] {
      StepKeeps(p, s, events[0]);
      RunKeeps(p, Next(p, s, events[0]), events[1..]);
    }
  }

  predicate SomeReached(s: State) {
    exists t :: t in s.cmds && s.cmds[t].reached
  }

  /** Command switching, in every run: at most one link is busy, and whenever a command in flight has
    * reached the driver that link is the one AHCI remembers in `active_link`. */
  lemma SwitchExcludes(links: nat, events: seq<Event>)
    requires PossibleRun(CommandSwitch, Idle(links), events)
    ensures
      var s := Run(CommandSwitch, Idle(links), events);
      && s.nrActive <= 1
      && (forall l, m :: 0 <= l < |s.sactive| && 0 <= m < |s.sactive| && LinkActive(s, l) && LinkActive(s, m) ==>
            l == m)
      && (SomeReached(s) ==> s.activeLink < |s.sactive| && LinkActive(s, s.activeLink))
  {
    IdleInv(CommandSwitch, links, 0);
    RunKeeps(CommandSwitch, Idle(links), events);
    var s := Run(CommandSwitch, Idle(links), events);
    NothingActive(s);
    if s.cmds != map[] {
      var t :| t in s.cmds && (SomeReached(s) ==> s.cmds[t].reached);
      OneLinkBusy(s, t);
      assert forall l :: 0 <= l < |s.sactive| && LinkActive(s, l) ==> l in Busy(s);
    } else {
      assert forall l :: 0 <= l < |s.sactive| && LinkActive(s, l) ==> l in Busy(s);
      assert Busy(s) == {};
    }
  }

  /** It need not be when none has: a command that fails before the driver leaves the link of an
    * earlier one remembered. */
  lemma ForgottenLink()
    ensures
      var events := [Offer(0, 0, false, false, true), Complete(0), Offer(1, 1, false, false, false)];
      && PossibleRun(CommandSwitch, Idle(2), events)
      && var s := Run(CommandSwitch, Idle(2), events);
         s.activeLink == 0 && LinkActive(s, 1) && !LinkActive(s, 0)
  {
    var e0, e1, e2 := Offer(0, 0, false, false, true), Complete(0), Offer(1, 1, false, false, false);
    var s0 := Idle(2);
    var s1 := Next(CommandSwitch, s0, e0);
    var s2 := Next(CommandSwitch, s1, e1);
    var s3 := Next(CommandSwitch, s2, e2);
    assert [e0, e1, e2][1..] == [e1, e2] && [e1, e2][1..] == [e2] && [e2][1..] == [];
    assert Run(CommandSwitch, s3, []) == s3;
    assert Run(CommandSwitch, s2, [e2]) == s3;
    assert Run(CommandSwitch, s1, [e1, e2]) == s3;
  }

  /** sil24, in every run: an ATAPI or RESULT_TF command in flight is the only command on the port. */
  lemma Sil24Excludes(links: nat, events: seq<Event>, t: nat)
    requires PossibleRun(Sil24, Idle(links), events)
    requires var s := Run(Sil24, Idle(links), events); t in s.cmds && s.cmds[t].exclusive
    ensures Run(Sil24, Idle(links), events).cmds.Keys == {t}
  {
    IdleInv(Sil24, links, 0);
    RunKeeps(Sil24, Idle(links), events);
  }

  /** ... and it is admitted only when no link is active. */
  lemma Sil24AdmitsAlone(links: nat, events: seq<Event>, e: Event)
    requires PossibleRun(Sil24, Idle(links), events)
    requires
      var s := Run(Sil24, Idle(links), events);
      Possible(s, e) && Admits(Sil24, s, e) && e.exclusive
    ensures
      var s := Run(Sil24, Idle(links), events);
      forall l :: 0 <= l < |s.sactive| ==> !LinkActive(s, l)
  {
    IdleInv(Sil24, links, 0);
    RunKeeps(Sil24, Idle(links), events);
    var s := Run(Sil24, Idle(links), events);
    OfferKeepsSil24(s, e);
    NothingActive(s);
    forall l | 0 <= l < |s.sactive|
      ensures !LinkActive(s, l)
    {
      assert l !in Busy(s);
    }
  }

  /** None of the events is error handling or an admission to link l. */
  predicate KeepsOff(p: Policy, s: State, events: seq<Event>, l: nat)
    requires LinksKnown(s) && PossibleRun(p, s, events)
    decreases |events|
  {
    events == [] ||
    (&& !events[0].ErrorHandling?
     && !(Admits(p, s, events[0]) && events[0].link == l)
     && KeepsOff(p, Next(p, s, events[0]), events[1..], l))
  }

  predicate AdmitsNothing(p: Policy, s: State, events: seq<Event>)
    requires LinksKnown(s) && PossibleRun(p, s, events)
    decreases |events|
  {
    events == [] || (!Admits(p, s, events[0]) && AdmitsNothing(p, Next(p, s, events[0]), events[1..]))
  }

  /** No command in flight on the link is going to clear the exclusion. */
  predicate NoneClears(s: State, l: nat) {
    forall t :: t in s.cmds && s.cmds[t].link == l ==> !s.cmds[t].clearExcl
  }

  /** No overtaking: once a link is recorded in `excl_link`, idle or busy with commands that do not
    * carry the flag, nothing at all is admitted until a command of that link is. */
  lemma {:induction false} NoOvertaking(p: Policy, s: State, events: seq<Event>, l: nat)
    requires LinksKnown(s) && PossibleRun(p, s, events)
    requires s.excl == Some(l) && NoneClears(s, l)
    requires KeepsOff(p, s, events, l)
    ensures AdmitsNothing(p, s, events)
    ensures Run(p, s, events).excl == Some(l)
    decreases |events|
  {
    if events != [] {
      var s' := Next(p, s, events[0]);
      assert !Admits(p, s, events[0]);
      assert s'.excl == Some(l) && NoneClears(s', l);
      NoOvertaking(p, s', events[1..], l);
    }
  }

  /** A command refused for the port records its own link if none was recorded, and nothing in flight
    * there carries the flag: under command switching the link is idle, under sil24 it may be busy. */
  lemma RefusalRecords(p: Policy, s: State, l: nat, ncq: bool, exclusive: bool)
    requires Inv(p, s) && l < |s.sactive| && s.excl.None?
    requires Judge(p, s, l, ncq, exclusive).decision == DeferPort
    ensures Judge(p, s, l, ncq, exclusive).excl == Some(l) && NoneClears(s, l)
    ensures p == CommandSwitch ==> !LinkActive(s, l)
  {
    if p == CommandSwitch {
      forall t | t in s.cmds
        ensures s.cmds[t].link in Busy(s)
      {
        CommandMakesBusy(s, t);
      }
    }
  }

  /** In every run, a command refused for the port while no link is recorded is not overtaken: until
    * a command of its link is admitted, or error handling, nothing is. */
  lemma RefusedIsNext(p: Policy, links: nat, before: seq<Event>, e: Event, events: seq<Event>)
    requires PossibleRun(p, Idle(links), before)
    requires
      var s := Run(p, Idle(links), before);
      && e.Offer? && Possible(s, e) && s.excl.None?
      && Judge(p, s, e.link, e.ncq, e.exclusive).decision == DeferPort
      && PossibleRun(p, Next(p, s, e), events) && KeepsOff(p, Next(p, s, e), events, e.link)
    ensures AdmitsNothing(p, Next(p, Run(p, Idle(links), before), e), events)
  {
    IdleInv(p, links, 0);
    RunKeeps(p, Idle(links), before);
    var s := Run(p, Idle(links), before);
    RefusalRecords(p, s, e.link, e.ncq, e.exclusive);
    NoOvertaking(p, Next(p, s, e), events, e.link);
  }

  // ---------------------------------------------------------------------------------------------
  // Release

  /** Nothing is recorded and nothing in flight: whatever is offered next is admitted, on any link. */
  predicate Free(s: State) {
    s.excl.None? && s.cmds == map[]
  }

  lemma FreeAdmits(p: Policy, s: State, e: Event)
    requires Inv(p, s) && Free(s) && e.Offer? && Possible(s, e)
    ensures Admits(p, s, e)
  {
    NothingActive(s);
    StdDeferMeans(s, e.link, e.ncq);
  }

  /** With nothing in flight and a link recorded, a command of that link is admitted, and its completion
    * frees the port. */
  lemma RecordedGoes(p: Policy, s: State, e: Event)
    requires Inv(p, s) && s.cmds == map[] && e.Offer? && Possible(s, e) && s.excl == Some(e.link)
    ensures
      var s1 := Next(p, s, e);
      Admits(p, s, e) && e.tag in s1.cmds && Free(Finish(s1, e.tag)) && Inv(p, Finish(s1, e.tag))
  {
    NothingActive(s);
    StdDeferMeans(s, e.link, e.ncq);
    var s1 := Next(p, s, e);
    assert s1.cmds == map[e.tag := s1.cmds[e.tag]];
    assert Finish(s1, e.tag).cmds == map[];
    StepKeeps(p, s, e);
    CompleteKeeps(p, s1, e.tag);
  }

  /** In every run, under either rule, an exclusion is no dead end: with nothing in flight a command of
    * the recorded link is admitted, and when it completes every link may go again. */
  lemma ExclusionEnds(p: Policy, links: nat, events: seq<Event>, e: Event)
    requires PossibleRun(p, Idle(links), events)
    requires
      var s := Run(p, Idle(links), events);
      s.cmds == map[] && e.Offer? && Possible(s, e) && s.excl == Some(e.link)
    ensures
      var s := Run(p, Idle(links), events);
      && Admits(p, s, e) && e.tag in Next(p, s, e).cmds
      && var s2 := Next(p, Next(p, s, e), Complete(e.tag));
      && s2.excl.None? && s2.cmds == map[]
      && forall next: Event :: next.Offer? && Possible(s2, next) ==> Admits(p, s2, next)
  {
    IdleInv(p, links, 0);
    RunKeeps(p, Idle(links), events);
    var s := Run(p, Idle(links), events);
    RecordedGoes(p, s, e);
    var s2 := Next(p, Next(p, s, e), Complete(e.tag));
    forall next: Event | next.Offer? && Possible(s2, next)
      ensures Admits(p, s2, next)
    {
      FreeAdmits(p, s2, next);
    }
  }

  /** Under sil24 the completion of an ATAPI or RESULT_TF command leaves no link recorded and the port
    * free, in every run. */
  lemma ExclusiveReleases(links: nat, events: seq<Event>, t: nat)
    requires PossibleRun(Sil24, Idle(links), events)
    requires var s := Run(Sil24, Idle(links), events); t in s.cmds && s.cmds[t].exclusive
    ensures Free(Next(Sil24, Run(Sil24, Idle(links), events), Complete(t)))
  {
    IdleInv(Sil24, links, 0);
    RunKeeps(Sil24, Idle(links), events);
    var s := Run(Sil24, Idle(links), events);
    assert s.cmds.Keys == {t};
    assert Finish(s, t).cmds.Keys == {};
  }

  /** Under command switching every command in flight carries the flag ... */
  ghost predicate AllClear(s: State) {
    forall t :: t in s.cmds ==> s.cmds[t].clearExcl
  }

  lemma {:induction false} SwitchFlags(s: State, events: seq<Event>)
    requires SwitchInv(s) && AllClear(s) && PossibleRun(CommandSwitch, s, events)
    ensures AllClear(Run(CommandSwitch, s, events))
    decreases |events|
  {
    if events != [] {
      StepKeeps(CommandSwitch, s, events[0]);
      SwitchFlags(Next(CommandSwitch, s, events[0]), events[1..]);
    }
  }

  /** ... so in every run the completion of any command of the recorded link ends the exclusion, and that
    * of another link's does not. */
  lemma SwitchReleases(links: nat, events: seq<Event>, t: nat)
    requires PossibleRun(CommandSwitch, Idle(links), events) && t in Run(CommandSwitch, Idle(links), events).cmds
    ensures
      var s := Run(CommandSwitch, Idle(links), events);
      Next(CommandSwitch, s, Complete(t)).excl == if s.excl == Some(s.cmds[t].link) then None else s.excl
  {
    IdleInv(CommandSwitch, links, 0);
    SwitchFlags(Idle(links), events);
  }

  // ---------------------------------------------------------------------------------------------
  // The completion register

  predicate NcqInFlight(s: State) {
    exists t :: t in s.cmds && s.cmds[t].ncq
  }

  predicate OnlyNcq(s: State) {
    forall t :: t in s.cmds ==> s.cmds[t].ncq
  }

  /** AHCI's choice of completion register: the remembered link has SActive bits exactly when NCQ
    * commands are in flight, and then nothing else is, once a command has reached the driver. */
  lemma RegisterChoice(s: State)
    requires SwitchInv(s) && SomeReached(s)
    ensures s.activeLink < |s.sactive| && (s.sactive[s.activeLink] != {} <==> NcqInFlight(s))
    ensures NcqInFlight(s) ==> OnlyNcq(s)
  {
    var r :| r in s.cmds && s.cmds[r].reached;
    assert forall t :: t in s.cmds ==> s.cmds[t].link == s.activeLink;
    if t :| t in s.cmds && s.cmds[t].ncq {
      assert t in s.sactive[s.activeLink];
    }
  }

  predicate NcqOn(s: State, l: nat) {
    exists t :: t in s.cmds && s.cmds[t].ncq && s.cmds[t].link == l
  }

  /** Whether or not one has, the link's SActive bits say that NCQ commands are in flight on it. */
  lemma RegisterAsks(s: State)
    requires Consistent(s)
    ensures NcqOn(s, s.activeLink) <==>
      s.cmds != map[] && s.activeLink < |s.sactive| && s.sactive[s.activeLink] != {}
  {
    if t :| t in s.cmds && s.cmds[t].ncq && s.cmds[t].link == s.activeLink {
      assert t in s.sactive[s.activeLink];
    }
    if s.activeLink < |s.sactive| && s.sactive[s.activeLink] != {} {
      var t :| t in s.sactive[s.activeLink];
      assert t in s.cmds && s.cmds[t].ncq && s.cmds[t].link == s.activeLink;
    }
  }

  /** With the host link alone, command switching decides exactly as ata_std_qc_defer does. */
  lemma HostLinkAlone(s: State, ncq: bool)
    requires SwitchInv(s) && |s.sactive| == 1 && (s.excl.Some? ==> s.excl.value == 0)
    ensures SwitchDefer(s, 0, ncq).decision == StdDefer(s, 0, ncq)
    ensures SwitchDefer(s, 0, ncq).excl == s.excl
  {}

  // ---------------------------------------------------------------------------------------------
  // The port

  /** What the deferral of a queued command answers. */
  datatype Answer = Answer(decision: Decision, clearExcl: bool)

  /** struct ata_port with its links, and the link ahci remembers.  Link 0 is the host link. */
  class AtaPort {
    var sactive: seq<set<nat>>
    var activeTag: seq<Option<nat>>
    var nrActive: int
    var excl: Option<nat>
    var cmds: map<nat, Active>
    var activeLink: nat

    constructor (links: nat)
      ensures Snapshot() == Idle(links)
    {
      sactive, activeTag, nrActive, excl := seq(links, _ => {}), seq(links, _ => None), 0, None;
      cmds, activeLink := map[], 0;
    }

    function Snapshot(): State
      reads this
    {
      State(sactive, activeTag, nrActive, excl, cmds, activeLink)
    }

    /** ata_std_qc_defer. */
    method AtaStdQcDefer(l: nat, ncq: bool) returns (d: Decision)
      requires Shaped(Snapshot(), |sactive|) && l < |sactive|
      ensures d == StdDefer(Snapshot(), l, ncq)
      ensures Consistent(Snapshot()) ==> (d == Go <==> MixesNothing(Snapshot(), l, ncq))
    {
      if Consistent(Snapshot()) {
        StdDeferMeans(Snapshot(), l, ncq);
      }
      if ncq {
        if activeTag[l].None? {
          return Go;
        }
      } else if activeTag[l].None? && sactive[l] == {} {
        return Go;
      }
      return DeferLink;
    }

    /** sata_pmp_qc_defer_cmd_switch. */
    method SataPmpQcDeferCmdSwitch(l: nat, ncq: bool) returns (a: Answer)
      requires Shaped(Snapshot(), |sactive|) && l < |sactive|
      modifies `excl
      ensures
        var v := SwitchDefer(old(Snapshot()), l, ncq);
        a == Answer(v.decision, v.clearExcl) && Snapshot() == old(Snapshot()).(excl := v.excl)
      ensures SwitchInv(old(Snapshot())) && a.decision == Go ==>
        MixesNothing(Snapshot(), l, ncq) && AllOn(Snapshot(), l)
      ensures excl == old(excl) || excl == Some(l)
    {
      if SwitchInv(Snapshot()) {
        SwitchMeans(Snapshot(), l, ncq);
      }
      if excl.None? || excl == Some(l) {
        if nrActive == 0 || activeTag[l].Some? || sactive[l] != {} {
          var d := AtaStdQcDefer(l, ncq);
          return Answer(d, true);
        }
        excl := Some(l);
      }
      return Answer(DeferPort, false);
    }

    /** sil24_qc_defer. */
    method Sil24QcDefer(l: nat, ncq: bool, exclusive: bool) returns (a: Answer)
      requires Shaped(Snapshot(), |sactive|) && l < |sactive|
      modifies `excl
      ensures
        var v := Sil24Defer(old(Snapshot()), l, ncq, exclusive);
        && a.decision == v.decision && Snapshot() == old(Snapshot()).(excl := v.excl)
        && (v.decision == Go ==> a.clearExcl == v.clearExcl)
      ensures Sil24Inv(old(Snapshot())) && a.decision == Go ==>
        MixesNothing(Snapshot(), l, ncq) && (exclusive || old(excl).Some? ==> cmds == map[])
      ensures excl == old(excl) || (exclusive && excl == Some(l))
    {
      if Sil24Inv(Snapshot()) {
        Sil24Means(Snapshot(), l, ncq, exclusive);
      }
      var clear := false;
      if excl.Some? {
        if excl.value != l || nrActive != 0 {
          return Answer(DeferPort, false);
        }
        clear := true;
      } else if exclusive {
        excl := Some(l);
        if nrActive != 0 {
          return Answer(DeferPort, false);
        }
        clear := true;
      }
      var d := AtaStdQcDefer(l, ncq);
      return Answer(d, clear);
    }

    /** ahci_pmp_qc_defer without FIS-based switching.  Whatever the number of links, it decides as
      * command switching does. */
    method AhciPmpQcDefer(l: nat, ncq: bool) returns (a: Answer)
      requires SwitchInv(Snapshot()) && l < |sactive| && (excl.Some? ==> excl.value < |sactive|)
      modifies `excl
      ensures
        var v := SwitchDefer(old(Snapshot()), l, ncq);
        a.decision == v.decision && Snapshot() == old(Snapshot()).(excl := v.excl)
    {
      if |sactive| == 1 {
        HostLinkAlone(Snapshot(), ncq);
        var d := AtaStdQcDefer(l, ncq);
        a := Answer(d, false);
      } else {
        a := SataPmpQcDeferCmdSwitch(l, ncq);
      }
    }

    /** The bookkeeping of ata_qc_issue, followed by ahci_qc_issue if the command gets there. */
    method QcIssue(t: nat, c: Active)
      requires Shaped(Snapshot(), |sactive|) && c.link < |sactive|
      modifies this
      ensures Snapshot() == Issue(old(Snapshot()), t, c)
      ensures Consistent(old(Snapshot())) && t !in old(cmds) && StdDefer(old(Snapshot()), c.link, c.ncq) == Go ==>
        Consistent(Snapshot()) && Busy(Snapshot()) == Busy(old(Snapshot())) + {c.link}
    {
      if Consistent(Snapshot()) && t !in cmds && StdDefer(Snapshot(), c.link, c.ncq) == Go {
        IssueConsistent(Snapshot(), t, c);
      }
      var l := c.link;
      if c.ncq {
        if sactive[l] == {} {
          nrActive := nrActive + 1;
        }
        sactive := sactive[l := sactive[l] + {t}];
      } else {
        nrActive := nrActive + 1;
        activeTag := activeTag[l := Some(t)];
      }
      cmds := cmds[t := c];
      if c.reached {
        activeLink := l;
      }
    }

    /** The bookkeeping of __ata_qc_complete. */
    method QcComplete(t: nat)
      requires LinksKnown(Snapshot()) && t in cmds
      modifies this
      ensures Snapshot() == Finish(old(Snapshot()), t)
      ensures excl == if old(cmds[t].clearExcl && excl == Some(cmds[t].link)) then None else old(excl)
      ensures Consistent(old(Snapshot())) ==> Consistent(Snapshot()) && Busy(Snapshot()) <= Busy(old(Snapshot()))
    {
      if Consistent(Snapshot()) {
        FinishConsistent(Snapshot(), t);
      }
      var c := cmds[t];
      var l := c.link;
      if c.ncq {
        sactive := sactive[l := sactive[l] - {t}];
        if sactive[l] == {} {
          nrActive := nrActive - 1;
        }
      } else {
        activeTag := activeTag[l := None];
        nrActive := nrActive - 1;
      }
      if c.clearExcl && excl == Some(l) {
        excl := None;
      }
      cmds := cmds - {t};
    }

    /** The link ahci_error_intr blames without FIS-based switching: the first active one, or the
      * host link.  It is the only busy link, and the one in `active_link` once a command in flight
      * has reached the driver. */
    method ErrorLink() returns (l: nat)
      requires SwitchInv(Snapshot()) && |sactive| > 0
      ensures cmds == map[] ==> l == 0
      ensures forall t :: t in cmds ==> cmds[t].link == l
      ensures SomeReached(Snapshot()) ==> l == activeLink
    {
      l := 0;
      while l < |sactive| && activeTag[l].None? && sactive[l] == {}
        invariant l <= |sactive|
        invariant forall k :: 0 <= k < l ==> !LinkActive(Snapshot(), k)
      {
        l := l + 1;
      }
      NothingActive(Snapshot());
      if cmds != map[] {
        ghost var t :| t in cmds && (SomeReached(Snapshot()) ==> cmds[t].reached);
        OneLinkBusy(Snapshot(), t);
        assert cmds[t].link in Busy(Snapshot()) && LinkActive(Snapshot(), cmds[t].link);
        assert l in Busy(Snapshot());
        assert l == cmds[t].link;
      }
      if l == |sactive| {
        l := 0;
      }
    }

    /** ahci_port_intr's choice of the register that says what has not completed: SActive for NCQ
      * commands, the command-issue register for the others.  It asks the link remembered, which has no
      * bits if it is gone with a multiplier. */
    method ReadsSActive() returns (yes: bool)
      requires SwitchInv(Snapshot())
      ensures yes <==> NcqOn(Snapshot(), activeLink)
      ensures SomeReached(Snapshot()) ==>
        (yes <==> NcqInFlight(Snapshot())) && (yes ==> OnlyNcq(Snapshot()))
    {
      RegisterAsks(Snapshot());
      if SomeReached(Snapshot()) {
        RegisterChoice(Snapshot());
      }
      yes := cmds != map[] && activeLink < |sactive| && sactive[activeLink] != {};
      assert NcqInFlight(Snapshot()) ==> cmds != map[];
    }
  }
}
