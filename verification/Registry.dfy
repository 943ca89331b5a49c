/** The remediation pipeline of one node: per-problem cooldown and attempts (pkg/remediators/base.go) under the
    registry's circuit breaker, rate limit, lease and dry-run gates (pkg/remediators/registry.go). */
module Registry {
  import opened MonitorTypes
  import CB = CircuitBreaker
  import RL = RateLimit

  // ----- Per-problem safety -----

  /** Cooldown and attempt bookkeeping of one remediator instance, per problem key. */
  datatype Tracker = Tracker(cooldown: nat, maxAttempts: nat, lastAttempt: map<string, int>, attempts: map<string, nat>)

  function Attempts(t: Tracker, key: string): nat {
    if key in t.attempts then t.attempts[key] else 0
  }

  predicate InCooldown(t: Tracker, key: string, now: int) {
    key in t.lastAttempt && now - t.lastAttempt[key] < t.cooldown
  }

  predicate CanRemediate(t: Tracker, key: string, now: int) {
    !InCooldown(t, key, now) && Attempts(t, key) < t.maxAttempts
  }

  function Recorded(t: Tracker, key: string, now: int): Tracker {
    t.(lastAttempt := t.lastAttempt[key := now], attempts := t.attempts[key := Attempts(t, key) + 1])
  }

  class BaseRemediator {
    const cooldown: nat
    const maxAttempts: nat
    const hasBody: bool          // whether a remediate function was set
    var lastAttemptTime: map<string, int>
    var attemptCount: map<string, nat>

    ghost function Model(): Tracker reads this {
      Tracker(cooldown, maxAttempts, lastAttemptTime, attemptCount)
    }

    constructor (cooldown: nat, maxAttempts: nat, hasBody: bool)
      ensures Model() == Tracker(cooldown, maxAttempts, map[], map[]) && this.hasBody == hasBody
    {
      this.cooldown, this.maxAttempts, this.hasBody := cooldown, maxAttempts, hasBody;
      lastAttemptTime, attemptCount := map[], map[];
    }

    method CooldownRemaining(key: string, now: int) returns (remaining: int)
      ensures remaining > 0 <==> InCooldown(Model(), key, now)
      ensures remaining > 0 ==> now + remaining == lastAttemptTime[key] + cooldown
    {
      if key !in lastAttemptTime {
        return 0;
      }
      var elapsed := now - lastAttemptTime[key];
      if elapsed >= cooldown {
        return 0;
      }
      return cooldown - elapsed;
    }

    method MayRemediate(key: string, now: int) returns (ok: bool)
      ensures ok <==> CanRemediate(Model(), key, now)
    {
      var remaining := CooldownRemaining(key, now);
      if remaining > 0 {
        return false;
      }
      var count := if key in attemptCount then attemptCount[key] else 0;
      return count < maxAttempts;
    }

    /** The attempt is recorded before the body runs; a cancelled context records it without running the body.
        Without a body nothing is recorded and the call fails. */
    method Remediate(key: string, now: int, cancelled: bool, bodyOk: bool) returns (ran: bool, ok: bool)
      modifies this
      ensures Model() == if hasBody then Recorded(old(Model()), key, now) else old(Model())
      ensures ran == (hasBody && !cancelled) && ok == (ran && bodyOk)
    {
      if !hasBody {
        return false, false;
      }
      lastAttemptTime := lastAttemptTime[key := now];
      var count := if key in attemptCount then attemptCount[key] else 0;
      attemptCount := attemptCount[key := count + 1];
      if cancelled {
        return false, false;
      }
      return true, bodyOk;
    }
  }

  // ----- The pipeline -----

  datatype Factory = Factory(cooldown: nat, maxAttempts: nat)

  datatype Config = Config(breaker: CB.BreakerConfig, maxPerHour: nat, window: nat, factories: map<string, Factory>)

  datatype State = State(breaker: CB.Breaker, log: seq<int>, trackers: map<string, Tracker>, dryRun: bool)

  datatype LeaseVerdict = NotCoordinated | LeaseGranted | LeaseDenied | LeaseError

  /** One Remediate call and everything it learns from outside: the clock at the safety checks, at the
      remediator's own check, when the attempt is recorded and at the end; the per-minute token; the lease;
      whether the factory works; whether the context is cancelled; and how the body ends. */
  datatype Call = Call(kind: string, key: string, begin: int, gate: int, attempt: int, finish: int, token: bool,
                       lease: LeaseVerdict, factoryOk: bool, cancelled: bool, bodyOk: bool)

  datatype Outcome = CircuitOpen | RateLimited | LeaseFailed | LeaseRefused | NoRemediator | Ineligible | DryRun
                   | Attempted(ran: bool, ok: bool)

  function RateAllows(cfg: Config, log: seq<int>, now: int): bool {
    cfg.maxPerHour == 0 || RL.CountAfter(log, now - cfg.window) < cfg.maxPerHour
  }

  function Logged(cfg: Config, log: seq<int>, now: int): seq<int> {
    if cfg.maxPerHour == 0 then log else log + [now]
  }

  /** The cached instance, created on first use. */
  function Instance(cfg: Config, s: State, c: Call): Option<Tracker> {
    if c.kind in s.trackers then Some(s.trackers[c.kind])
    else if c.kind in cfg.factories && c.factoryOk
    then Some(Tracker(cfg.factories[c.kind].cooldown, cfg.factories[c.kind].maxAttempts, map[], map[]))
    else None
  }

  function Failing(cfg: Config, s: State, now: int): State {
    s.(breaker := CB.AfterFailure(s.breaker, cfg.breaker, now))
  }

  function Succeeding(cfg: Config, s: State, now: int): State {
    s.(breaker := CB.AfterSuccess(s.breaker, cfg.breaker), log := Logged(cfg, s.log, now))
  }

  /** Phases 4 to 8, with the instance `t` of the call's type cached in `s`. */
  function ExecutedWith(cfg: Config, s: State, c: Call, t: Tracker): (State, Outcome) {
    if !CanRemediate(t, c.key, c.gate) then (Failing(cfg, s, c.gate), Ineligible)
    else if s.dryRun then (Succeeding(cfg, s, c.finish), DryRun)
    else
      var tried := s.(trackers := s.trackers[c.kind := Recorded(t, c.key, c.attempt)]);
      if !c.cancelled && c.bodyOk then (Succeeding(cfg, tried, c.finish), Attempted(true, true))
      else (Failing(cfg, tried, c.finish), Attempted(!c.cancelled, false))
  }

  /** Phases 3 to 8, with the safety gates passed. */
  function Executed(cfg: Config, s: State, c: Call): (State, Outcome) {
    match Instance(cfg, s, c)
    case None => (Failing(cfg, s, c.gate), NoRemediator)
    case Some(t) => ExecutedWith(cfg, s.(trackers := s.trackers[c.kind := t]), c, t)
  }

  function Remediated(cfg: Config, s: State, c: Call): (State, Outcome) {
    var s1 := s.(breaker := CB.AfterCheck(s.breaker, cfg.breaker, c.begin));
    if !CB.Passes(s.breaker, cfg.breaker, c.begin) then (s1, CircuitOpen)
    else if !RateAllows(cfg, s.log, c.begin) || !c.token then (s1, RateLimited)
    else if c.lease == LeaseError then (Failing(cfg, s1, c.gate), LeaseFailed)
    else if c.lease == LeaseDenied then (s1, LeaseRefused)
    else Executed(cfg, s1, c)
  }

  // ----- Runs -----

  datatype Event = Do(call: Call) | SetDryRun(on: bool)

  const NEW_STATE := State(CB.NEW_BREAKER, [], map[], false)

  function After(cfg: Config, s: State, e: Event): State {
    match e
    case Do(c) => Remediated(cfg, s, c).0
    case SetDryRun(on) => s.(dryRun := on)
  }

  function AfterAll(cfg: Config, es: seq<Event>): State {
    if es == [] then NEW_STATE else After(cfg, AfterAll(cfg, es[..|es| - 1]), es[|es| - 1])
  }

  function OutcomeAt(cfg: Config, es: seq<Event>, i: nat): Outcome
    requires i < |es| && es[i].Do?
  {
    Remediated(cfg, AfterAll(cfg, es[..i]), es[i].call).1
  }

  ghost predicate CallTimes(c: Call) {
    c.begin <= c.gate <= c.attempt <= c.finish
  }

  /** One call at a time, on a clock that never goes back. */
  ghost predicate Serialized(es: seq<Event>) {
    && (forall i :: 0 <= i < |es| && es[i].Do? ==> CallTimes(es[i].call))
    && forall i, j :: 0 <= i < j < |es| && es[i].Do? && es[j].Do? ==> es[i].call.finish <= es[j].call.begin
  }

  /** Event `i` attempts a remediation of `key` with the remediator `kind`. */
  ghost predicate AttemptAt(cfg: Config, es: seq<Event>, kind: string, key: string, i: nat) {
    i < |es| && es[i].Do? && es[i].call.kind == kind && es[i].call.key == key && OutcomeAt(cfg, es, i).Attempted?
  }

  ghost predicate BodyRunAt(cfg: Config, es: seq<Event>, kind: string, key: string, i: nat) {
    AttemptAt(cfg, es, kind, key, i) && OutcomeAt(cfg, es, i).ran
  }

  ghost function CountAttempts(cfg: Config, es: seq<Event>, kind: string, key: string, n: nat): (c: nat)
  {
    if n == 0 then 0
    else CountAttempts(cfg, es, kind, key, n - 1) + if AttemptAt(cfg, es, kind, key, n - 1) then 1 else 0
  }

  ghost function CountBodyRuns(cfg: Config, es: seq<Event>, kind: string, key: string, n: nat): (c: nat)
  {
    if n == 0 then 0
    else CountBodyRuns(cfg, es, kind, key, n - 1) + if BodyRunAt(cfg, es, kind, key, n - 1) then 1 else 0
  }

  /** The tracker of `kind`, once created, keeps its factory's limits and counts every attempt. */
  ghost predicate Tracked(cfg: Config, s: State, kind: string, key: string, attempts: nat) {
    if kind in s.trackers then
      && kind in cfg.factories
      && s.trackers[kind].cooldown == cfg.factories[kind].cooldown
      && s.trackers[kind].maxAttempts == cfg.factories[kind].maxAttempts
      && Attempts(s.trackers[kind], key) == attempts <= cfg.factories[kind].maxAttempts
    else attempts == 0
  }

  lemma {:induction false} AfterNext(cfg: Config, es: seq<Event>, i: nat)
    requires i < |es|
    ensures AfterAll(cfg, es[..i + 1]) == After(cfg, AfterAll(cfg, es[..i]), es[i])
  {
    assert es[..i + 1][..i] == es[..i];
  }

  lemma {:induction false} TrackedStep(cfg: Config, s: State, e: Event, kind: string, key: string, attempts: nat)
    requires Tracked(cfg, s, kind, key, attempts)
    ensures var tried := e.Do? && e.call.kind == kind && e.call.key == key && Remediated(cfg, s, e.call).1.Attempted?;
            Tracked(cfg, After(cfg, s, e), kind, key, if tried then attempts + 1 else attempts)
  {
    hide CB.AfterCheck, CB.AfterFailure, CB.AfterSuccess, RateAllows, Logged;
  }

  lemma {:induction false} RunTracked(cfg: Config, es: seq<Event>, kind: string, key: string, n: nat)
    requires n <= |es|
    ensures Tracked(cfg, AfterAll(cfg, es[..n]), kind, key, CountAttempts(cfg, es, kind, key, n))
  {
    hide Remediated, After;
    if n == 0 {
      assert es[..0] == [];
    } else {
      RunTracked(cfg, es, kind, key, n - 1);
      hide Tracked, AfterAll;
      TrackedStep(cfg, AfterAll(cfg, es[..n - 1]), es[n - 1], kind, key, CountAttempts(cfg, es, kind, key, n - 1));
      AfterNext(cfg, es, n - 1);
    }
  }

  lemma {:induction false} BodyRunsWithinAttempts(cfg: Config, es: seq<Event>, kind: string, key: string, n: nat)
    requires n <= |es|
    ensures CountBodyRuns(cfg, es, kind, key, n) <= CountAttempts(cfg, es, kind, key, n)
  {
    if n > 0 {
      BodyRunsWithinAttempts(cfg, es, kind, key, n - 1);
    }
  }

  /** Because an instance is created once and cached, a problem key's remediation body runs at most maxAttempts
      times over a whole run. */
  lemma {:induction false} BodyRunsCapped(cfg: Config, es: seq<Event>, kind: string, key: string)
    ensures CountBodyRuns(cfg, es, kind, key, |es|) <= if kind in cfg.factories then cfg.factories[kind].maxAttempts else 0
  {
    RunTracked(cfg, es, kind, key, |es|);
    BodyRunsWithinAttempts(cfg, es, kind, key, |es|);
  }

  ghost predicate AttemptedSince(s: State, kind: string, key: string, time: int) {
    kind in s.trackers && key in s.trackers[kind].lastAttempt && time <= s.trackers[kind].lastAttempt[key]
  }

  lemma {:induction false} AttemptedSinceStep(cfg: Config, s: State, e: Event, kind: string, key: string, time: int)
    requires AttemptedSince(s, kind, key, time) && (e.Do? ==> time <= e.call.attempt)
    ensures AttemptedSince(After(cfg, s, e), kind, key, time)
  {
    hide CB.AfterCheck, CB.AfterFailure, CB.AfterSuccess, RateAllows, Logged;
  }

  lemma {:induction false} LastAttemptKept(cfg: Config, es: seq<Event>, kind: string, key: string, i: nat, n: nat)
    requires Serialized(es) && AttemptAt(cfg, es, kind, key, i) && i < n <= |es|
    ensures AttemptedSince(AfterAll(cfg, es[..n]), kind, key, es[i].call.attempt)
  {
    AfterNext(cfg, es, n - 1);
    if i < n - 1 {
      LastAttemptKept(cfg, es, kind, key, i, n - 1);
      hide After;
      assert es[n - 1].Do? ==> es[i].call.finish <= es[n - 1].call.begin;
      AttemptedSinceStep(cfg, AfterAll(cfg, es[..n - 1]), es[n - 1], kind, key, es[i].call.attempt);
    }
  }

  /** Two attempts at one problem key are at least the remediator's cooldown apart. */
  lemma {:induction false} AttemptsSpaced(cfg: Config, es: seq<Event>, kind: string, key: string, i: nat, j: nat)
    requires Serialized(es) && i < j && AttemptAt(cfg, es, kind, key, i) && AttemptAt(cfg, es, kind, key, j)
    ensures kind in cfg.factories && es[j].call.attempt - es[i].call.attempt >= cfg.factories[kind].cooldown
  {
    LastAttemptKept(cfg, es, kind, key, i, j);
    RunTracked(cfg, es, kind, key, j);
    hide CB.AfterCheck, CB.AfterFailure, CB.AfterSuccess, RateAllows, Logged, After, AfterAll;
    assert CallTimes(es[j].call);
  }

  /** The dry-run flag as last set before event `n`. */
  function DryRunSetting(es: seq<Event>, n: nat): bool
    requires n <= |es|
  {
    if n == 0 then false else if es[n - 1].SetDryRun? then es[n - 1].on else DryRunSetting(es, n - 1)
  }

  lemma {:induction false} DryRunFollowsSetting(cfg: Config, es: seq<Event>, n: nat)
    requires n <= |es|
    ensures AfterAll(cfg, es[..n]).dryRun == DryRunSetting(es, n)
  {
    if n > 0 {
      DryRunFollowsSetting(cfg, es, n - 1);
      AfterNext(cfg, es, n - 1);
    }
  }

  /** No remediation is attempted, so no body runs, while dry-run is set. */
  lemma {:induction false} DryRunAttemptsNothing(cfg: Config, es: seq<Event>, kind: string, key: string, i: nat)
    requires AttemptAt(cfg, es, kind, key, i)
    ensures !DryRunSetting(es, i)
  {
    DryRunFollowsSetting(cfg, es, i);
  }

  // ----- Hourly limit on serialized runs -----

  function Clock(es: seq<Event>, start: int): int {
    if es == [] then start else if es[|es| - 1].Do? then es[|es| - 1].call.finish else Clock(es[..|es| - 1], start)
  }

  ghost predicate LogWithin(cfg: Config, log: seq<int>, now: int) {
    RL.Within(cfg.maxPerHour, cfg.window, 1, RL.Limiter(now, log, 0))
  }

  /** A call records at most one remediation, at its end, and only if the limit allowed it at its beginning. */
  lemma {:induction false} LogAfterCall(cfg: Config, s: State, c: Call)
    ensures var log := Remediated(cfg, s, c).0.log;
            log == s.log || (RateAllows(cfg, s.log, c.begin) && log == s.log + [c.finish])
  {
    hide CB.AfterCheck, CB.AfterFailure, CB.AfterSuccess, CB.Passes, RateAllows, CanRemediate, Recorded;
  }

  lemma {:induction false} LogStep(cfg: Config, s: State, c: Call, now: int)
    requires cfg.maxPerHour > 0 && LogWithin(cfg, s.log, now) && now <= c.begin && CallTimes(c)
    ensures LogWithin(cfg, Remediated(cfg, s, c).0.log, c.finish)
  {
    var max, w := cfg.maxPerHour, cfg.window;
    var l0 := RL.Limiter(now, s.log, 0);
    LogAfterCall(cfg, s, c);
    hide RL.Within, RL.CountAfter, Remediated;
    RL.WithinTick(max, w, 1, l0, c.finish - now);
    var log := Remediated(cfg, s, c).0.log;
    if log != s.log {
      RL.WithinTick(max, w, 1, l0, c.begin - now);
      var l1 := RL.Limiter(c.begin, s.log, 0);
      RL.WithinAdmit(max, w, 1, l1);
      RL.WithinTick(max, w, 1, RL.Limiter(c.begin, s.log, 1), c.finish - c.begin);
      RL.WithinRecord(max, w, 1, RL.Limiter(c.finish, s.log, 1));
    }
  }

  lemma {:induction false} RunLogWithin(cfg: Config, es: seq<Event>, start: int, n: nat)
    requires cfg.maxPerHour > 0 && Serialized(es) && n <= |es|
    requires forall i :: 0 <= i < |es| && es[i].Do? ==> start <= es[i].call.begin
    ensures LogWithin(cfg, AfterAll(cfg, es[..n]).log, Clock(es[..n], start))
    ensures forall i :: n <= i < |es| && es[i].Do? ==> Clock(es[..n], start) <= es[i].call.begin
  {
    if n > 0 {
      RunLogWithin(cfg, es, start, n - 1);
      AfterNext(cfg, es, n - 1);
      assert es[..n][..n - 1] == es[..n - 1];
      hide Remediated, LogWithin;
      if es[n - 1].Do? {
        LogStep(cfg, AfterAll(cfg, es[..n - 1]), es[n - 1].call, Clock(es[..n - 1], start));
      }
    }
  }

  /** With calls one at a time, no window holds more than maxPerHour recorded remediations. */
  lemma {:induction false} HourlyLimit(cfg: Config, es: seq<Event>, a: int)
    requires cfg.maxPerHour > 0 && Serialized(es)
    ensures RL.CountWindow(AfterAll(cfg, es).log, a, cfg.window) <= cfg.maxPerHour
  {
    var start := EarliestBegin(es);
    RunLogWithin(cfg, es, start, |es|);
    assert es[..|es|] == es;
  }

  lemma {:induction false} EarliestBegin(es: seq<Event>) returns (start: int)
    requires Serialized(es)
    ensures forall i :: 0 <= i < |es| && es[i].Do? ==> start <= es[i].call.begin
  {
    start := 0;
    if es != [] {
      var front := es[..|es| - 1];
      start := EarliestBegin(front);
      if es[|es| - 1].Do? && es[|es| - 1].call.begin < start { start := es[|es| - 1].call.begin; }
      forall i | 0 <= i < |es| && es[i].Do? ensures start <= es[i].call.begin {
        if i < |es| - 1 { assert front[i] == es[i]; }
      }
    }
  }

  // ----- The registry object -----

  class RemediatorRegistry {
    const factories: map<string, Factory>
    const breaker: CB.CircuitBreaker
    const limiter: RL.RateLimiter
    var instances: map<string, BaseRemediator>
    var dryRun: bool

    /** Instances of different types are different objects, and factories set their remediate functions. */
    ghost predicate Valid()
      reads this, limiter
    {
      && limiter.Valid() && (forall a :: a in instances ==> instances[a].hasBody)
      && forall a, b :: a in instances && b in instances && a != b ==> instances[a] != instances[b]
    }

    ghost function Settings(): Config
      reads this, breaker, limiter
    {
      Config(breaker.config, limiter.maxPerHour, limiter.rateLimitWindow, factories)
    }

    ghost function Model(): State
      reads this, breaker, limiter, instances.Values
    {
      State(breaker.Model(), limiter.log, Trackers(), dryRun)
    }

    ghost function Trackers(): map<string, Tracker>
      reads this, instances.Values
    {
      map k | k in instances :: instances[k].Model()
    }

    constructor (factories: map<string, Factory>, maxPerHour: nat, window: nat, now: int)
      ensures Valid() && fresh(breaker) && fresh(limiter) && Model() == NEW_STATE
      ensures Settings() == Config(CB.BreakerConfig(5, 300, 2, false), maxPerHour, window, factories)
    {
      this.factories, instances, dryRun := factories, map[], false;
      breaker := new CB.CircuitBreaker();
      limiter := new RL.RateLimiter(maxPerHour, window, now);
    }

    method SetDryRun(on: bool)
      requires Valid()
      modifies this`dryRun
      ensures Valid() && Model() == After(Settings(), old(Model()), Event.SetDryRun(on))
    {
      dryRun := on;
    }

    /** The cached instance of a type, created on first use. */
    method GetOrCreateRemediator(kind: string, factoryOk: bool) returns (r: Option<BaseRemediator>)
      requires Valid()
      modifies this`instances
      ensures Valid()
      ensures r.Some? <==> kind in old(instances) || (kind in factories && factoryOk)
      ensures kind in old(instances) ==> instances == old(instances) && r == Some(instances[kind])
      ensures kind !in old(instances) && r.Some? ==>
                fresh(r.value) && instances == old(instances)[kind := r.value]
                && r.value.Model() == Tracker(factories[kind].cooldown, factories[kind].maxAttempts, map[], map[])
      ensures r.None? ==> instances == old(instances)
    {
      if kind in instances {
        return Some(instances[kind]);
      }
      if kind !in factories || !factoryOk {
        return None;
      }
      var created := new BaseRemediator(factories[kind].cooldown, factories[kind].maxAttempts, true);
      instances := instances[kind := created];
      return Some(created);
    }

    ghost predicate ClockReached(now: int)
      reads limiter
    {
      limiter.seen <= now
    }

    method Succeed(now: int)
      requires limiter.Valid() && ClockReached(now)
      modifies breaker, limiter
      ensures limiter.Valid() && Settings() == old(Settings()) && limiter.seen == now
      ensures breaker.Model() == CB.AfterSuccess(old(breaker.Model()), breaker.config)
      ensures limiter.log == Logged(Settings(), old(limiter.log), now)
    {
      breaker.RecordSuccess();
      limiter.RecordRateLimitEntry(now);
    }

    /** Phases 4 to 8, with the instance at hand. */
    method Attempt(c: Call, remediator: BaseRemediator) returns (o: Outcome)
      requires Valid() && CallTimes(c) && ClockReached(c.begin)
      requires c.kind in instances && instances[c.kind] == remediator
      modifies breaker, limiter, remediator
      ensures Valid() && Settings() == old(Settings()) && limiter.seen <= c.finish
      ensures (Model(), o) == ExecutedWith(old(Settings()), old(Model()), c, old(remediator.Model()))
    {
      hide RL.Prunes, RL.Ordered, CB.AfterFailure, CB.AfterSuccess, CanRemediate, Recorded, Logged;
      assert Trackers()[c.kind := remediator.Model()] == Trackers();
      var can := remediator.MayRemediate(c.key, c.gate);
      if !can {
        breaker.RecordFailure(c.gate);
        o := Ineligible;
      } else if dryRun {
        Succeed(c.finish);
        o := DryRun;
      } else {
        var ran, ok := remediator.Remediate(c.key, c.attempt, c.cancelled, c.bodyOk);
        assert Trackers() == old(Trackers())[c.kind := remediator.Model()];
        if !ok {
          breaker.RecordFailure(c.finish);
        } else {
          Succeed(c.finish);
        }
        o := Attempted(ran, ok);
      }
    }

    /** Phases 3 to 8. */
    method Execute(c: Call) returns (o: Outcome)
      requires Valid() && CallTimes(c) && ClockReached(c.begin)
      modifies this`instances, breaker, limiter, instances.Values
      ensures Valid() && Settings() == old(Settings()) && limiter.seen <= c.finish
      ensures fresh(instances.Values - old(instances.Values))
      ensures (Model(), o) == Executed(old(Settings()), old(Model()), c)
    {
      hide RL.Prunes, RL.Ordered, CB.AfterFailure, CB.AfterSuccess, ExecutedWith;
      var r := GetOrCreateRemediator(c.kind, c.factoryOk);
      if r.None? {
        breaker.RecordFailure(c.gate);
        assert Trackers() == old(Trackers());
        return NoRemediator;
      }
      ghost var t := r.value.Model();
      assert Instance(old(Settings()), old(Model()), c) == Some(t);
      assert Trackers() == old(Trackers())[c.kind := t];
      o := Attempt(c, r.value);
    }

    method Remediate(c: Call) returns (o: Outcome)
      requires Valid() && CallTimes(c) && ClockReached(c.begin)
      modifies this`instances, breaker, limiter, instances.Values
      ensures Valid() && Settings() == old(Settings()) && limiter.seen <= c.finish
      ensures fresh(instances.Values - old(instances.Values))
      ensures (Model(), o) == Remediated(old(Settings()), old(Model()), c)
    {
      hide RL.Prunes, RL.Ordered, CB.AfterCheck, CB.AfterFailure, CB.AfterSuccess, CB.Passes, Executed;
      var closed := breaker.CheckCircuitBreaker(c.begin);
      assert Trackers() == old(Trackers());
      if !closed {
        return CircuitOpen;
      }
      var within := limiter.CheckRateLimit(c.begin);
      assert Trackers() == old(Trackers());
      if !within || !c.token {
        return RateLimited;
      }
      if c.lease == LeaseError {
        breaker.RecordFailure(c.gate);
        assert Trackers() == old(Trackers());
        return LeaseFailed;
      }
      if c.lease == LeaseDenied {
        return LeaseRefused;
      }
      o := Execute(c);
    }
  }
}
