/** When the controller grants a lease, stated on the history of grants and releases (pkg/controller/server.go). */
module LeaseGrants {
  import opened MonitorTypes
  import opened Collections
  import opened LeaseServer
  import opened LeaseProtocol

  /** Until a crash, memory holds granted leases as granted, and a released one is not active. */
  ghost predicate Known(s: Sys) {
    !s.crashed ==> s.up && forall id :: id in s.ctl.leases ==> KnownLease(s, id)
  }

  ghost predicate KnownLease(s: Sys, id: LeaseId)
    requires id in s.ctl.leases
  {
    var l := s.ctl.leases[id];
    id in s.grants && l.node == s.grants[id].node && l.expiresAt == s.grants[id].expiresAt && (l.status == Active ==> id !in s.released)
  }

  lemma {:induction false} KnownStep(cfg: Config, s: Sys, step: Step)
    requires Known(s) && Owned(cfg, s) && Enabled(cfg, s, step)
    ensures Known(Apply(cfg, s, step))
  {
    match step
    case Serve(_, _, _, _, _) =>
    case Cleanup(written) => hide Served;
    case Release(id) => hide Served, CleanedUp;
    case _ => hide Served, CleanedUp, KnownLease, Released;
  }

  lemma {:induction false} OwnedOnRun(cfg: Config, states: seq<Sys>, steps: seq<Step>, i: nat)
    requires Run(cfg, states, steps) && i < |states|
    ensures Owned(cfg, states[i])
  {
    RunKeepsInv(cfg, states, steps, i);
  }

  lemma {:induction false} RunKnown(cfg: Config, states: seq<Sys>, steps: seq<Step>, i: nat)
    requires Run(cfg, states, steps) && i < |states|
    ensures Known(states[i])
  {
    if i > 0 {
      RunKnown(cfg, states, steps, i - 1);
      OwnedOnRun(cfg, states, steps, i - 1);
      assert states[i - 1 + 1] == Apply(cfg, states[i - 1], steps[i - 1]);
      hide *;
      KnownStep(cfg, states[i - 1], steps[i - 1]);
    }
  }

  /** Until a crash the live leases in memory are exactly the granted, unreleased, unexpired ones: a released lease is
      never live again. */
  lemma {:induction false} LiveIffOutstanding(cfg: Config, states: seq<Sys>, steps: seq<Step>, i: nat)
    requires Run(cfg, states, steps) && i < |states| && !states[i].crashed
    ensures LiveIds(states[i].ctl.leases, states[i].now) == OutstandingIds(states[i])
    ensures forall id :: Outstanding(states[i], id) ==> Matches(states[i].ctl.leases, id, states[i].grants[id])
  {
    RunKnown(cfg, states, steps, i);
    RunKeepsInv(cfg, states, steps, i);
    var s := states[i];
    hide Owned, Recorded, Saved, Capped, Stamped, Run;
    forall id ensures id in LiveIds(s.ctl.leases, s.now) <==> Outstanding(s, id) {
      if Outstanding(s, id) { assert Matches(s.ctl.leases, id, s.grants[id]); }
      if id in s.ctl.leases { assert KnownLease(s, id); }
    }
  }

  /** Every finished lease of the node completed at least the cooldown ago. */
  ghost predicate CooledDown(s: Sys, node: string, cooldown: int) {
    forall id :: FinishedRow(s, id) && s.ctl.rows[id].node == node ==>
      s.ctl.rows[id].completedAt.Some? && s.ctl.rows[id].completedAt.value + cooldown <= s.now
  }

  /** The history leaves room for a lease on this node. */
  ghost predicate Room(cfg: Config, s: Sys, node: string) {
    |OutstandingIds(s)| < cfg.coordination.maxConcurrent && forall id :: Outstanding(s, id) ==> s.grants[id].node != node
  }

  /** On every run before the first crash, a well-formed request is granted exactly when fewer leases than the maximum
      are outstanding, none of them on that node, and the node has cooled down, as far as there is a cooldown and the
      table can be read. */
  lemma {:induction false} GrantedIff(cfg: Config, states: seq<Sys>, steps: seq<Step>, i: nat)
    requires Run(cfg, states, steps) && i < |steps| && steps[i].Serve? && !states[i].crashed
    requires steps[i].req.node != "" && steps[i].req.kind != ""
    ensures steps[i].id in states[i + 1].grants <==>
            && Room(cfg, states[i], steps[i].req.node)
            && (cfg.coordination.cooldown > 0 && steps[i].readable ==> CooledDown(states[i], steps[i].req.node, cfg.coordination.cooldown))
  {
    var s, step := states[i], steps[i];
    LiveIffOutstanding(cfg, states, steps, i);
    RunKeepsInv(cfg, states, steps, i);
    assert Enabled(cfg, s, step) && states[i + 1] == Apply(cfg, s, step);
    assert step.id in states[i + 1].grants <==> Grants(cfg, s, step);
    hide Owned, Recorded, Saved, Backed, Capped, Run, Apply, Enabled, Served;
    BusyIff(s, step.req.node);
    hide NodeHasLease, CoolingDown, CooledDown, Stamped, Outstanding;
  }

  lemma {:induction false} BusyIff(s: Sys, node: string)
    requires LiveIds(s.ctl.leases, s.now) == OutstandingIds(s)
    requires forall id :: Outstanding(s, id) ==> Matches(s.ctl.leases, id, s.grants[id])
    ensures NodeHasLease(s.ctl.leases, node, s.now) <==> !forall id :: Outstanding(s, id) ==> s.grants[id].node != node
  {
    if NodeHasLease(s.ctl.leases, node, s.now) {
      var id :| id in s.ctl.leases && s.ctl.leases[id].node == node && Live(s.ctl.leases[id], s.now);
      assert id in OutstandingIds(s);
    }
    if id :| Outstanding(s, id) && s.grants[id].node == node {
      assert id in LiveIds(s.ctl.leases, s.now);
    }
  }

  /** A release ends the lease at once, and completing it in the table finishes its row at that time. */
  lemma {:induction false} ReleaseEnds(cfg: Config, s: Sys, id: LeaseId)
    ensures Enabled(cfg, s, Release(id)) ==>
              var leases := Apply(cfg, s, Release(id)).ctl.leases;
              id !in LiveIds(leases, s.now) && (id in s.ctl.leases ==> id in leases && leases[id].status == Completed)
    ensures Enabled(cfg, s, Complete(id, true)) && id in s.ctl.rows ==>
              var row := Apply(cfg, s, Complete(id, true)).ctl.rows[id];
              row.status == Completed && row.completedAt == Some(s.now) && row.node == s.ctl.rows[id].node
  {
  }
}
