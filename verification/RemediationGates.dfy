/** When a remediation is attempted (pkg/remediators/registry.go): every gate of the pipeline, stated on the history of the run. */
module RemediationGates {
  import opened MonitorTypes
  import CB = CircuitBreaker
  import RL = RateLimit
  import opened Registry

  /** A call the controller denied, like one that could not ask, leaves instances and rate log as they were. */
  lemma {:induction false} RefusedChangesNothing(cfg: Config, s: State, c: Call)
    requires c.lease == LeaseDenied || c.lease == LeaseError
    ensures var (after, o) := Remediated(cfg, s, c);
            !o.Attempted? && after.trackers == s.trackers && after.log == s.log && after.dryRun == s.dryRun
  {
  }

  // ----- The breaker's history -----

  /** What a call tells the breaker, by its outcome. */
  function CallEvents(c: Call, o: Outcome): seq<CB.Event> {
    match o
    case CircuitOpen => [CB.Check(c.begin)]
    case RateLimited => [CB.Check(c.begin)]
    case LeaseRefused => [CB.Check(c.begin)]
    case LeaseFailed => [CB.Check(c.begin), CB.Failure(c.gate)]
    case NoRemediator => [CB.Check(c.begin), CB.Failure(c.gate)]
    case Ineligible => [CB.Check(c.begin), CB.Failure(c.gate)]
    case DryRun => [CB.Check(c.begin), CB.Success(c.finish)]
    case Attempted(_, ok) => [CB.Check(c.begin), if ok then CB.Success(c.finish) else CB.Failure(c.finish)]
  }

  function BreakerEvents(cfg: Config, es: seq<Event>): seq<CB.Event> {
    if es == [] then []
    else
      var front, last := es[..|es| - 1], es[|es| - 1];
      BreakerEvents(cfg, front) + if last.Do? then CallEvents(last.call, Remediated(cfg, AfterAll(cfg, front), last.call).1) else []
  }

  lemma {:induction false} CallBreaker(cfg: Config, s: State, c: Call)
    ensures var (after, o) := Remediated(cfg, s, c);
            var checked := CB.After(s.breaker, cfg.breaker, CB.Check(c.begin));
            after.breaker == if |CallEvents(c, o)| == 1 then checked else CB.After(checked, cfg.breaker, CallEvents(c, o)[1])
  {
    hide CB.AfterCheck, CB.AfterFailure, CB.AfterSuccess, CB.Passes, RateAllows, CanRemediate, Recorded, Logged, Instance;
  }

  /** The breaker's state is what its history makes it. */
  lemma {:induction false} BreakerFollows(cfg: Config, es: seq<Event>)
    ensures AfterAll(cfg, es).breaker == CB.AfterAll(cfg.breaker, BreakerEvents(cfg, es))
    decreases |es|
  {
    if es != [] {
      var front, last := es[..|es| - 1], es[|es| - 1];
      BreakerFollows(cfg, front);
      if last.Do? {
        var s, before := AfterAll(cfg, front), BreakerEvents(cfg, front);
        CallBreaker(cfg, s, last.call);
        var more := CallEvents(last.call, Remediated(cfg, s, last.call).1);
        assert more[0] == CB.Check(last.call.begin) && BreakerEvents(cfg, es) == before + more;
        assert AfterAll(cfg, es) == Remediated(cfg, s, last.call).0;
        hide *;
        AppendEvents(cfg.breaker, before, more);
      } else {
        assert BreakerEvents(cfg, es) == BreakerEvents(cfg, front);
      }
    }
  }

  lemma {:induction false} AppendEvents(cfg: CB.BreakerConfig, es: seq<CB.Event>, more: seq<CB.Event>)
    requires 1 <= |more| <= 2
    ensures var one := CB.After(CB.AfterAll(cfg, es), cfg, more[0]);
            CB.AfterAll(cfg, es + more) == if |more| == 1 then one else CB.After(one, cfg, more[1])
  {
    hide CB.After;
    assert (es + [more[0]])[..|es|] == es;
    assert CB.AfterAll(cfg, es + [more[0]]) == CB.After(CB.AfterAll(cfg, es), cfg, more[0]);
    if |more| == 2 {
      assert (es + more)[..|es| + 1] == es + [more[0]];
    } else {
      assert more == [more[0]];
    }
  }

  /** The events are in order, before every later call, and without resets. */
  ghost predicate EventsUpTo(events: seq<CB.Event>, now: int) {
    && CB.ClockMonotone(events) && (forall i :: 0 <= i < |events| ==> events[i].now <= now && !events[i].Reset?)
  }

  lemma {:induction false} CallEventsOrdered(events: seq<CB.Event>, c: Call, o: Outcome, now: int)
    requires EventsUpTo(events, c.begin) && CallTimes(c) && c.finish <= now
    ensures EventsUpTo(events + CallEvents(c, o), now)
  {
    var more := CallEvents(c, o);
    assert |more| == 2 ==> more[0].now <= more[1].now;
    assert forall i :: 0 <= i < |more| ==> c.begin <= more[i].now <= now && !more[i].Reset?;
    hide CallEvents;
  }

  lemma {:induction false} EventsOrdered(cfg: Config, es: seq<Event>, now: int)
    requires Serialized(es) && forall i :: 0 <= i < |es| && es[i].Do? ==> es[i].call.finish <= now
    ensures EventsUpTo(BreakerEvents(cfg, es), now)
    decreases |es|
  {
    if es != [] {
      var front, last := es[..|es| - 1], es[|es| - 1];
      if last.Do? {
        EventsOrdered(cfg, front, last.call.begin);
        assert CallTimes(last.call);
        hide EventsUpTo, Remediated, CallEvents, Serialized;
        CallEventsOrdered(BreakerEvents(cfg, front), last.call, Remediated(cfg, AfterAll(cfg, front), last.call).1, now);
      } else {
        EventsOrdered(cfg, front, now);
      }
    }
  }

  // ----- The other gates' histories -----

  predicate Succeeded(o: Outcome) {
    o == DryRun || (o.Attempted? && o.ok)
  }

  /** When the successful calls of a run ended. */
  function SuccessTimes(cfg: Config, es: seq<Event>): seq<int> {
    if es == [] then []
    else
      var front, last := es[..|es| - 1], es[|es| - 1];
      SuccessTimes(cfg, front) +
        if last.Do? && Succeeded(Remediated(cfg, AfterAll(cfg, front), last.call).1) then [last.call.finish] else []
  }

  /** The rate log lists the successful calls. */
  lemma {:induction false} LogFollows(cfg: Config, es: seq<Event>)
    ensures AfterAll(cfg, es).log == if cfg.maxPerHour == 0 then [] else SuccessTimes(cfg, es)
    decreases |es|
  {
    if es != [] {
      LogFollows(cfg, es[..|es| - 1]);
      if es[|es| - 1].Do? { CallLog(cfg, AfterAll(cfg, es[..|es| - 1]), es[|es| - 1].call); }
      hide Remediated;
    }
  }

  lemma {:induction false} CallLog(cfg: Config, s: State, c: Call)
    ensures var (after, o) := Remediated(cfg, s, c);
            after.log == if Succeeded(o) && cfg.maxPerHour != 0 then s.log + [c.finish] else s.log
  {
    hide CB.AfterCheck, CB.AfterFailure, CB.AfterSuccess, CB.Passes, RateAllows, CanRemediate, Recorded, Instance;
  }

  /** Event `j` found or created an instance of this kind. */
  ghost predicate UsedAt(cfg: Config, es: seq<Event>, kind: string, j: nat) {
    j < |es| && es[j].Do? && es[j].call.kind == kind
    && (OutcomeAt(cfg, es, j) == Ineligible || OutcomeAt(cfg, es, j) == DryRun || OutcomeAt(cfg, es, j).Attempted?)
  }

  lemma {:induction false} CallInstance(cfg: Config, s: State, c: Call, kind: string)
    ensures var (after, o) := Remediated(cfg, s, c);
            kind in after.trackers <==> kind in s.trackers || (c.kind == kind && (o == Ineligible || o == DryRun || o.Attempted?))
  {
    hide CB.AfterCheck, CB.AfterFailure, CB.AfterSuccess, CB.Passes, RateAllows, CanRemediate, Recorded, Logged;
  }

  /** An instance is cached exactly when some earlier call used one. */
  lemma {:induction false} CachedIffUsed(cfg: Config, es: seq<Event>, kind: string, n: nat)
    requires n <= |es|
    ensures kind in AfterAll(cfg, es[..n]).trackers <==> exists j :: 0 <= j < n && UsedAt(cfg, es, kind, j)
  {
    if n == 0 {
      assert es[..0] == [];
    } else {
      CachedIffUsed(cfg, es, kind, n - 1);
      AfterNext(cfg, es, n - 1);
      if es[n - 1].Do? {
        CallInstance(cfg, AfterAll(cfg, es[..n - 1]), es[n - 1].call, kind);
      }
      hide Remediated, AfterAll;
      assert UsedAt(cfg, es, kind, n - 1) ==> exists j :: 0 <= j < n && UsedAt(cfg, es, kind, j);
    }
  }

  ghost predicate LastAt(s: State, kind: string, key: string, at: int) {
    kind in s.trackers && key in s.trackers[kind].lastAttempt && s.trackers[kind].lastAttempt[key] == at
  }

  lemma {:induction false} CallLast(cfg: Config, s: State, c: Call, kind: string, key: string, at: int)
    requires LastAt(Remediated(cfg, s, c).0, kind, key, at)
    ensures LastAt(s, kind, key, at) || (c.kind == kind && c.key == key && Remediated(cfg, s, c).1.Attempted? && c.attempt == at)
  {
    hide CB.AfterCheck, CB.AfterFailure, CB.AfterSuccess, CB.Passes, RateAllows, CanRemediate, Logged;
  }

  /** A remembered attempt is one of the run. */
  lemma {:induction false} LastIsAttempt(cfg: Config, es: seq<Event>, kind: string, key: string, n: nat, at: int) returns (j: nat)
    requires n <= |es| && LastAt(AfterAll(cfg, es[..n]), kind, key, at)
    ensures j < n && AttemptAt(cfg, es, kind, key, j) && es[j].call.attempt == at
  {
    NothingLast(cfg, es, kind, key, at);
    AfterNext(cfg, es, n - 1);
    if es[n - 1].Do? {
      CallLast(cfg, AfterAll(cfg, es[..n - 1]), es[n - 1].call, kind, key, at);
    }
    hide Remediated, AfterAll;
    if AttemptAt(cfg, es, kind, key, n - 1) && es[n - 1].call.attempt == at {
      j := n - 1;
    } else {
      j := LastIsAttempt(cfg, es, kind, key, n - 1, at);
    }
  }

  lemma {:induction false} NothingLast(cfg: Config, es: seq<Event>, kind: string, key: string, at: int)
    ensures !LastAt(AfterAll(cfg, es[..0]), kind, key, at)
  {
    assert es[..0] == [];
  }

  // ----- All gates -----

  /** Every opening of the circuit so far is at least the timeout ago. */
  ghost predicate CircuitGate(cfg: Config, es: seq<Event>, c: Call) {
    var events := BreakerEvents(cfg, es);
    forall i: nat :: CB.OpensAt(cfg.breaker, events, i) ==> c.begin - events[i].now >= cfg.breaker.timeout
  }

  /** Fewer than the hourly limit of earlier calls succeeded within the window. */
  ghost predicate RateGate(cfg: Config, es: seq<Event>, c: Call) {
    cfg.maxPerHour == 0 || RL.CountAfter(SuccessTimes(cfg, es), c.begin - cfg.window) < cfg.maxPerHour
  }

  /** There is a factory, and it works now or worked for an earlier call. */
  ghost predicate InstanceGate(cfg: Config, es: seq<Event>, n: nat, c: Call) {
    c.kind in cfg.factories && (c.factoryOk || exists j :: 0 <= j < n && UsedAt(cfg, es, c.kind, j))
  }

  /** The problem has attempts left and its last attempt is at least the cooldown ago. */
  ghost predicate ProblemGate(cfg: Config, es: seq<Event>, n: nat, c: Call) {
    && c.kind in cfg.factories
    && CountAttempts(cfg, es, c.kind, c.key, n) < cfg.factories[c.kind].maxAttempts
    && forall j :: 0 <= j < n && AttemptAt(cfg, es, c.kind, c.key, j) ==> c.gate - es[j].call.attempt >= cfg.factories[c.kind].cooldown
  }

  lemma {:induction false} CircuitGateIff(cfg: Config, es: seq<Event>, c: Call)
    requires CB.ValidConfig(cfg.breaker) && Serialized(es) && forall i :: 0 <= i < |es| && es[i].Do? ==> es[i].call.finish <= c.begin
    ensures CB.Passes(AfterAll(cfg, es).breaker, cfg.breaker, c.begin) <==> CircuitGate(cfg, es, c)
  {
    BreakerFollows(cfg, es);
    EventsOrdered(cfg, es, c.begin);
    var events := BreakerEvents(cfg, es);
    assert forall i: nat :: CB.NoResetAfter(events, i);
    hide BreakerEvents, AfterAll, CB.OpensAt, CB.Passes, Serialized;
    CB.PassesIff(cfg.breaker, events, c.begin);
  }

  lemma {:induction false} InstanceGateIff(cfg: Config, es: seq<Event>, n: nat, c: Call)
    requires n <= |es|
    ensures Instance(cfg, AfterAll(cfg, es[..n]), c).Some? <==> InstanceGate(cfg, es, n, c)
  {
    CachedIffUsed(cfg, es, c.kind, n);
    RunTracked(cfg, es, c.kind, c.key, n);
    hide AfterAll, UsedAt;
  }

  lemma {:induction false} ProblemGateIff(cfg: Config, es: seq<Event>, n: nat, c: Call)
    requires n <= |es| && Serialized(es) && Instance(cfg, AfterAll(cfg, es[..n]), c).Some?
    ensures CanRemediate(Instance(cfg, AfterAll(cfg, es[..n]), c).value, c.key, c.gate) <==> ProblemGate(cfg, es, n, c)
  {
    var s := AfterAll(cfg, es[..n]);
    var t := Instance(cfg, s, c).value;
    RunTracked(cfg, es, c.kind, c.key, n);
    hide AfterAll, Serialized;
    if InCooldown(t, c.key, c.gate) {
      var j := LastIsAttempt(cfg, es, c.kind, c.key, n, t.lastAttempt[c.key]);
      assert AttemptAt(cfg, es, c.kind, c.key, j) && c.gate - es[j].call.attempt < cfg.factories[c.kind].cooldown;
    } else {
      forall j | 0 <= j < n && AttemptAt(cfg, es, c.kind, c.key, j) ensures c.gate - es[j].call.attempt >= cfg.factories[c.kind].cooldown {
        LastAttemptKept(cfg, es, c.kind, c.key, j, n);
      }
    }
    hide AttemptAt, CountAttempts;
  }

  /** In every serialized run a call attempts its remediation exactly when the circuit has not opened within its timeout,
      the hour has room, the minute's token is there, the lease is granted or not asked for, an instance can be had, the
      problem has attempts left and is out of its cooldown, and dry-run is off. */
  lemma {:induction false} AttemptedIff(cfg: Config, es: seq<Event>, i: nat)
    requires CB.ValidConfig(cfg.breaker) && Serialized(es) && i < |es| && es[i].Do?
    ensures var c := es[i].call;
            AttemptAt(cfg, es, c.kind, c.key, i) <==>
              && CircuitGate(cfg, es[..i], c) && RateGate(cfg, es[..i], c) && c.token
              && c.lease in {NotCoordinated, LeaseGranted}
              && InstanceGate(cfg, es, i, c) && ProblemGate(cfg, es, i, c) && !DryRunSetting(es, i)
  {
    var c, s := es[i].call, AfterAll(cfg, es[..i]);
    assert AttemptAt(cfg, es, c.kind, c.key, i) <==> Remediated(cfg, s, c).1.Attempted?;
    assert Serialized(es[..i]);
    assert forall j :: 0 <= j < i && es[..i][j].Do? ==> es[..i][j].call.finish <= c.begin;
    hide *;
    CircuitGateIff(cfg, es[..i], c);
    RateGateIff(cfg, es[..i], c);
    DryRunFollowsSetting(cfg, es, i);
    InstanceGateIff(cfg, es, i, c);
    if Instance(cfg, s, c).Some? { ProblemGateIff(cfg, es, i, c); }
  }

  lemma {:induction false} RateGateIff(cfg: Config, es: seq<Event>, c: Call)
    ensures RateAllows(cfg, AfterAll(cfg, es).log, c.begin) <==> RateGate(cfg, es, c)
  {
    LogFollows(cfg, es);
    hide AfterAll, SuccessTimes;
  }
}
