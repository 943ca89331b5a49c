/** When the cluster-wide limit on concurrent remediations holds: runs that break each of its premises, and the
    exact condition on the configuration. */
module LeaseLimits {
  import opened MonitorTypes
  import opened LeaseServer
  import opened LeaseProtocol
  import opened LeaseRuns

  function NodeName(k: nat): (name: string)
    ensures name != ""
  {
    seq(k + 1, _ => 'n')
  }

  ghost function FirstNodes(n: nat): set<string> {
    set k | 0 <= k < n :: NodeName(k)
  }

  lemma {:induction false} FirstNodesSize(n: nat)
    ensures |FirstNodes(n)| == n
  {
    if n > 0 {
      FirstNodesSize(n - 1);
      assert FirstNodes(n) == FirstNodes(n - 1) + {NodeName(n - 1)};
      forall k | 0 <= k < n - 1 ensures NodeName(k) != NodeName(n - 1) {
        assert |NodeName(k)| != |NodeName(n - 1)|;
      }
    }
  }

  /** The calls are `0..n`, each remediating on a node of its own. */
  ghost predicate AllRemediate(s: Sys, n: nat) {
    forall k: nat :: (k in s.calls <==> k < n)
                     && (k < n ==> (s.calls[k].Holding? || s.calls[k].Unleased?) && s.calls[k].node == NodeName(k))
  }

  lemma {:induction false} RemediatingCount(s: Sys, n: nat)
    requires AllRemediate(s, n)
    ensures |RemediatingNodes(s)| == n
  {
    FirstNodesSize(n);
    assert RemediatingCalls(s) == s.calls.Keys;
    forall k | 0 <= k < n ensures NodeName(k) in RemediatingNodes(s) {
      assert k in RemediatingCalls(s) && s.calls[k].node == NodeName(k);
    }
    assert RemediatingNodes(s) == FirstNodes(n);
  }

  lemma {:induction false} OneMoreRemediates(s: Sys, s': Sys, n: nat, call: Call)
    requires AllRemediate(s, n) && s'.calls == s.calls[n := call]
    requires (call.Holding? || call.Unleased?) && call.node == NodeName(n)
    ensures AllRemediate(s', n + 1)
  {
    forall k: nat ensures (k in s'.calls <==> k < n + 1)
                          && (k < n + 1 ==> (s'.calls[k].Holding? || s'.calls[k].Unleased?) && s'.calls[k].node == NodeName(k))
    {
      assert k in s.calls <==> k < n;
    }
  }

  // ----- Fallback -----

  ghost predicate AllFellBack(s: Sys, n: nat) {
    AllRemediate(s, n) && forall c :: c in s.calls ==> s.calls[c].Unleased?
  }

  /** Any number of nodes that cannot reach the controller remediate at once, without a lease. */
  lemma {:induction false} FallBack(cfg: Config, n: nat) returns (states: seq<Sys>, steps: seq<Step>, s: Sys)
    requires cfg.fallback
    ensures EndsIn(cfg, states, steps, s) && AllFellBack(s, n)
  {
    if n == 0 {
      states, steps, s := [Init()], [], Init();
    } else {
      var before;
      states, steps, before := FallBack(cfg, n - 1);
      var name := NodeName(n - 1);
      var more := [Begin(n - 1, name, "reboot"), GiveUp(n - 1)];
      assert n - 1 !in before.calls;
      var asked := Apply(cfg, before, more[0]);
      s := Apply(cfg, asked, more[1]);
      assert s.calls == before.calls[n - 1 := Unleased(name)];
      OneMoreRemediates(before, s, n - 1, Unleased(name));
      assert Leads(cfg, s, [], s) && Leads(cfg, asked, more[1..], s);
      states, steps := RunOn(cfg, states, steps, before, more, s);
    }
  }

  // ----- Granting one lease after another -----

  /** The controller is up and sees no live lease and no finished one; `n` calls hold one each. */
  ghost predicate Quiet(s: Sys, n: nat) {
    && s.up && AllRemediate(s, n)
    && (forall c :: c in s.calls ==> s.calls[c].Holding?)
    && (forall id :: id in s.grants ==> |id| <= n)
    && (forall id :: id in s.ctl.leases ==> s.ctl.leases[id].expiresAt <= s.now)
    && (forall id :: id in s.ctl.rows ==> s.ctl.rows[id].status == Active)
  }

  lemma {:induction false} QuietGrants(cfg: Config, s: Sys, n: nat, node: string)
    requires Quiet(s, n) && !NeverGrants(cfg)
    ensures Decision(s.ctl, cfg.coordination, node, s.now, true) == Grant
  {
    assert LiveIds(s.ctl.leases, s.now) == {};
  }

  function LeaseSteps(n: nat, saved: bool): seq<Step> {
    var name := NodeName(n);
    [Begin(n, name, "reboot"), Serve(Request(n, 1, name, "reboot"), Some(1), name, true, saved), Deliver(Answer(n, 1, Some(name)))]
  }

  function LeaseOf(n: nat, now: int): Lease {
    Lease(NodeName(n), "reboot", now, now + 1, Active, None)
  }

  /** What one new lease changes. */
  ghost predicate LeasedTo(s: Sys, t: Sys, n: nat, saved: bool) {
    var name := NodeName(n);
    && t.now == s.now && t.up && t.calls == s.calls[n := Holding(name, name)]
    && t.ctl == Granted(s.ctl, name, LeaseOf(n, s.now), saved)
    && t.grants == s.grants[name := GrantRecord(n, name, s.now + 1)]
  }

  /** Serving the new node's request grants it a lease. */
  lemma {:induction false} ServeStep(cfg: Config, s: Sys, n: nat, saved: bool)
    requires s.up && Request(n, 1, NodeName(n), "reboot") in s.requests && NodeName(n) !in s.grants && (cfg.saves ==> saved)
    requires Decision(s.ctl, cfg.coordination, NodeName(n), s.now, true) == Grant
    ensures var step, name := LeaseSteps(n, saved)[1], NodeName(n);
            Enabled(cfg, s, step) && Apply(cfg, s, step) ==
            s.(requests := s.requests - {Request(n, 1, name, "reboot")},
               ctl := Granted(s.ctl, name, LeaseOf(n, s.now), saved),
               grants := s.grants[name := GrantRecord(n, name, s.now + 1)],
               answers := s.answers + {Answer(n, 1, Some(name))})
  {
    hide Decision, NodeName;
  }

  lemma {:induction false} DeliverStep(cfg: Config, s: Sys, n: nat, saved: bool)
    requires Answer(n, 1, Some(NodeName(n))) in s.answers && n in s.calls && s.calls[n] == Requesting(NodeName(n), "reboot", 1)
    ensures var step, name := LeaseSteps(n, saved)[2], NodeName(n);
            Enabled(cfg, s, step) && Apply(cfg, s, step) ==
            s.(answers := s.answers - {Answer(n, 1, Some(name))}, calls := s.calls[n := Holding(name, name)])
  {
    hide NodeName;
  }

  lemma {:induction false} LeasedStepwise(cfg: Config, s: Sys, n: nat, saved: bool) returns (s1: Sys, s2: Sys, t: Sys)
    requires Quiet(s, n) && !NeverGrants(cfg) && (cfg.saves ==> saved)
    ensures var steps := LeaseSteps(n, saved);
            && Enabled(cfg, s, steps[0]) && s1 == Apply(cfg, s, steps[0])
            && Enabled(cfg, s1, steps[1]) && s2 == Apply(cfg, s1, steps[1])
            && Enabled(cfg, s2, steps[2]) && t == Apply(cfg, s2, steps[2])
    ensures LeasedTo(s, t, n, saved)
  {
    var steps, name := LeaseSteps(n, saved), NodeName(n);
    QuietGrants(cfg, s, n, name);
    assert n !in s.calls && name !in s.grants && s.up;
    assert Enabled(cfg, s, steps[0]);
    s1 := Apply(cfg, s, steps[0]);
    assert s1 == Sent(s, n, name, "reboot", 1);
    ServeStep(cfg, s1, n, saved);
    s2 := Apply(cfg, s1, steps[1]);
    hide Apply, Enabled, Quiet, LeaseSteps, Decision;
    DeliverStep(cfg, s2, n, saved);
    t := Apply(cfg, s2, steps[2]);
    assert t.calls == s.calls[n := Holding(name, name)];
  }

  /** A request for a new node, served and answered at once, with a lease of one time unit. */
  lemma {:induction false} Leased(cfg: Config, s: Sys, n: nat, saved: bool) returns (t: Sys)
    requires Quiet(s, n) && !NeverGrants(cfg) && (cfg.saves ==> saved)
    ensures Leads(cfg, s, LeaseSteps(n, saved), t) && LeasedTo(s, t, n, saved)
  {
    var steps := LeaseSteps(n, saved);
    var s1, s2;
    s1, s2, t := LeasedStepwise(cfg, s, n, saved);
    assert steps[2..] == [steps[2]] && steps[1..][1..] == steps[2..];
    hide Apply, Enabled, Quiet, LeaseSteps, LeasedTo;
    assert Leads(cfg, t, [], t);
    assert Leads(cfg, s2, steps[2..], t);
    assert Leads(cfg, s1, steps[1..], t);
  }

  // ----- Remediations that outlive their leases -----

  lemma {:induction false} OneMoreOverstays(cfg: Config, s: Sys, n: nat) returns (more: seq<Step>, t: Sys)
    requires Quiet(s, n) && !NeverGrants(cfg)
    ensures Leads(cfg, s, more, t) && Quiet(t, n + 1)
  {
    var leased := Leased(cfg, s, n, true);
    t := Apply(cfg, leased, Tick(1));
    assert t == leased.(now := leased.now + 1) && Enabled(cfg, leased, Tick(1));
    more := LeaseSteps(n, true) + [Tick(1)];
    TickQuiet(s, leased, n);
    hide Apply, Enabled, LeaseSteps, LeasedTo, Quiet;
    LeadsOneMore(cfg, s, LeaseSteps(n, true), leased, Tick(1));
  }

  lemma {:induction false} TickQuiet(s: Sys, leased: Sys, n: nat)
    requires Quiet(s, n) && LeasedTo(s, leased, n, true)
    ensures Quiet(leased.(now := leased.now + 1), n + 1)
  {
    OneMoreRemediates(s, leased.(now := leased.now + 1), n, Holding(NodeName(n), NodeName(n)));
    hide AllRemediate;
  }

  lemma {:induction false} LeadsOneMore(cfg: Config, s: Sys, steps: seq<Step>, t: Sys, step: Step)
    requires Leads(cfg, s, steps, t) && Enabled(cfg, t, step)
    ensures Leads(cfg, s, steps + [step], Apply(cfg, t, step))
    decreases |steps|
  {
    hide Apply, Enabled;
    var more := steps + [step];
    if steps == [] {
      assert more[1..] == [] && Leads(cfg, Apply(cfg, t, step), [], Apply(cfg, t, step));
    } else {
      assert more[1..] == steps[1..] + [step];
      LeadsOneMore(cfg, Apply(cfg, s, steps[0]), steps[1..], t, step);
    }
  }

  lemma {:induction false} Overstay(cfg: Config, n: nat) returns (states: seq<Sys>, steps: seq<Step>, s: Sys)
    requires !NeverGrants(cfg)
    ensures EndsIn(cfg, states, steps, s) && Quiet(s, n)
  {
    if n == 0 {
      states, steps, s := [Init()], [], Init();
    } else {
      var before;
      states, steps, before := Overstay(cfg, n - 1);
      var more;
      more, s := OneMoreOverstays(cfg, before, n - 1);
      states, steps := RunOn(cfg, states, steps, before, more, s);
    }
  }

  /** Whatever the configuration, any number of nodes can remediate at once if remediations may outlive their leases. */
  lemma {:induction false} OverstayExceedsLimit(cfg: Config, n: nat) returns (states: seq<Sys>, steps: seq<Step>)
    requires !NeverGrants(cfg)
    ensures Run(cfg, states, steps) && |RemediatingNodes(states[|steps|])| == n
  {
    var s;
    states, steps, s := Overstay(cfg, n);
    RemediatingCount(s, n);
  }

  // ----- A controller that forgets its leases in a crash -----

  /** `n` calls hold unexpired leases that a restarted controller knows nothing of. */
  ghost predicate Forgotten(cfg: Config, s: Sys, n: nat) {
    && Quiet(s, n) && s.ctl.leases == map[] && (!cfg.saves ==> s.ctl.rows == map[])
    && NoneOverstays(s)
  }

  lemma {:induction false} OneMoreForgotten(cfg: Config, s: Sys, n: nat) returns (more: seq<Step>, t: Sys)
    requires Forgotten(cfg, s, n) && !NeverGrants(cfg) && !(cfg.saves && cfg.rehydrates)
    ensures Leads(cfg, s, more, t) && Forgotten(cfg, t, n + 1)
  {
    var leased := Leased(cfg, s, n, cfg.saves);
    assert leased.up;
    var down := Apply(cfg, leased, Crash);
    t := Apply(cfg, down, Restart(cfg.rehydrates));
    hide LeasedTo, Forgotten, AllRemediate;
    RestartForgets(cfg, s, leased, t, n);
    more := LeaseSteps(n, cfg.saves) + [Crash] + [Restart(cfg.rehydrates)];
    assert Enabled(cfg, leased, Crash) && Enabled(cfg, down, Restart(cfg.rehydrates));
    hide Apply, Enabled, LeaseSteps;
    LeadsOneMore(cfg, s, LeaseSteps(n, cfg.saves), leased, Crash);
    LeadsOneMore(cfg, s, LeaseSteps(n, cfg.saves) + [Crash], down, Restart(cfg.rehydrates));
  }

  /** The restarted controller finds no lease: none was saved, or the table could not be read. */
  lemma {:induction false} RestartForgets(cfg: Config, s: Sys, leased: Sys, t: Sys, n: nat)
    requires Forgotten(cfg, s, n) && LeasedTo(s, leased, n, cfg.saves) && !(cfg.saves && cfg.rehydrates)
    requires t.now == leased.now && t.up && t.calls == leased.calls && t.grants == leased.grants
    requires t.ctl.rows == leased.ctl.rows
    requires t.ctl.leases == if cfg.rehydrates then ActiveRows(leased.ctl.rows, leased.now) else map[]
    ensures Forgotten(cfg, t, n + 1)
  {
    OneMoreRemediates(s, t, n, Holding(NodeName(n), NodeName(n)));
    assert t.ctl.leases == map[];
    assert forall c :: c in s.calls ==> c != n;
    hide AllRemediate;
    assert NoneOverstays(t) by {
      forall c | c in t.calls && t.calls[c].Holding?
        ensures t.calls[c].lease in t.grants && t.now < t.grants[t.calls[c].lease].expiresAt
      {
        if c != n { assert s.calls[c].lease in s.grants; }
      }
    }
  }

  /** With fallback off, a save or a rehydrating read that may fail lets crashes put any number of nodes to work at
      once, all on unexpired leases. */
  lemma {:induction false} CrashExceedsLimit(cfg: Config, n: nat) returns (states: seq<Sys>, steps: seq<Step>, s: Sys)
    requires !NeverGrants(cfg) && !(cfg.saves && cfg.rehydrates)
    ensures EndsIn(cfg, states, steps, s) && Forgotten(cfg, s, n) && |RemediatingNodes(s)| == n
  {
    if n == 0 {
      states, steps, s := [Init()], [], Init();
      RemediatingCount(s, 0);
    } else {
      var before;
      states, steps, before := CrashExceedsLimit(cfg, n - 1);
      var more;
      more, s := OneMoreForgotten(cfg, before, n - 1);
      states, steps := RunOn(cfg, states, steps, before, more, s);
      RemediatingCount(s, n);
    }
  }

  // ----- The exact condition -----

  ghost predicate LimitHolds(cfg: Config) {
    forall states, steps :: Run(cfg, states, steps) && NoneOverstays(states[|steps|]) ==>
      |RemediatingNodes(states[|steps|])| <= cfg.coordination.maxConcurrent
  }

  /** On runs in which no remediation outlives its lease, the limit holds exactly when fallback is off and
      either saving and rehydrating never fail or no lease is ever granted. */
  lemma {:induction false} LimitHoldsIff(cfg: Config)
    ensures LimitHolds(cfg) <==> !cfg.fallback && ((cfg.saves && cfg.rehydrates) || NeverGrants(cfg))
  {
    var n := cfg.coordination.maxConcurrent + 1;
    if cfg.fallback {
      var states, steps, s := FallBack(cfg, n);
      RemediatingCount(s, n);
      assert NoneOverstays(s);
    } else if (cfg.saves && cfg.rehydrates) || NeverGrants(cfg) {
      forall states, steps | Run(cfg, states, steps) && NoneOverstays(states[|steps|])
        ensures |RemediatingNodes(states[|steps|])| <= cfg.coordination.maxConcurrent
      {
        ConcurrencyLimited(cfg, states, steps, |steps|);
      }
    } else {
      var states, steps, s := CrashExceedsLimit(cfg, n);
    }
  }

  /** On all runs, with remediations that may outlive their leases, it holds only if nothing is ever granted. */
  lemma {:induction false} UnconditionalLimitIff(cfg: Config)
    ensures (forall states, steps :: Run(cfg, states, steps) ==>
               |RemediatingNodes(states[|steps|])| <= cfg.coordination.maxConcurrent)
            <==> !cfg.fallback && NeverGrants(cfg)
  {
    var n := cfg.coordination.maxConcurrent + 1;
    if cfg.fallback {
      var states, steps, s := FallBack(cfg, n);
      RemediatingCount(s, n);
    } else if !NeverGrants(cfg) {
      var states, steps := OverstayExceedsLimit(cfg, n);
    } else {
      forall states, steps | Run(cfg, states, steps)
        ensures |RemediatingNodes(states[|steps|])| <= cfg.coordination.maxConcurrent
      {
        RunKeepsInv(cfg, states, steps, |steps|);
        ConcurrencyLimited(cfg, states, steps, |steps|);
      }
    }
  }
}
