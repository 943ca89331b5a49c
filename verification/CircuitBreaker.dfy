/** The global circuit breaker of pkg/remediators/registry.go. */
module CircuitBreaker {

  datatype CircuitState = Closed | Open | HalfOpen

  datatype BreakerConfig = BreakerConfig(threshold: int, timeout: int, successThreshold: int, disabled: bool)

  datatype Breaker = Breaker(state: CircuitState, failures: nat, successes: nat, openedAt: int)

  const NEW_BREAKER := Breaker(Closed, 0, 0, 0)

  predicate ValidConfig(cfg: BreakerConfig) {
    cfg.threshold > 0 && cfg.timeout > 0 && cfg.successThreshold > 0
  }

  predicate Passes(b: Breaker, cfg: BreakerConfig, now: int) {
    b.state == Open ==> now - b.openedAt >= cfg.timeout
  }

  function AfterCheck(b: Breaker, cfg: BreakerConfig, now: int): Breaker {
    if b.state == Open && Passes(b, cfg, now) then b.(state := HalfOpen, successes := 0) else b
  }

  function AfterSuccess(b: Breaker, cfg: BreakerConfig): Breaker {
    if b.state == HalfOpen && b.successes + 1 >= cfg.successThreshold
    then Breaker(Closed, 0, 0, b.openedAt)
    else b.(failures := 0, successes := b.successes + 1)
  }

  function AfterFailure(b: Breaker, cfg: BreakerConfig, now: int): Breaker {
    var counted := b.(successes := 0, failures := b.failures + 1);
    if cfg.disabled then counted
    else if b.state == HalfOpen then Breaker(Open, 1, 0, now)
    else if b.state == Closed && counted.failures >= cfg.threshold then counted.(state := Open, openedAt := now)
    else counted
  }

  // ----- Runs -----

  datatype Event = Check(now: int) | Success(now: int) | Failure(now: int) | Reset(now: int)

  function After(b: Breaker, cfg: BreakerConfig, e: Event): Breaker {
    match e
    case Check(now) => AfterCheck(b, cfg, now)
    case Success(_) => AfterSuccess(b, cfg)
    case Failure(now) => AfterFailure(b, cfg, now)
    case Reset(_) => NEW_BREAKER
  }

  function AfterAll(cfg: BreakerConfig, es: seq<Event>): Breaker {
    if es == [] then NEW_BREAKER else After(AfterAll(cfg, es[..|es| - 1]), cfg, es[|es| - 1])
  }

  /** The state just before event `i`. */
  function Before(cfg: BreakerConfig, es: seq<Event>, i: nat): Breaker
    requires i <= |es|
  {
    AfterAll(cfg, es[..i])
  }

  ghost predicate Enabled(cfg: BreakerConfig) {
    ValidConfig(cfg) && !cfg.disabled
  }

  ghost predicate ClockMonotone(es: seq<Event>) {
    forall i, j :: 0 <= i < j < |es| ==> es[i].now <= es[j].now
  }

  lemma {:induction false} NextState(cfg: BreakerConfig, es: seq<Event>, i: nat)
    requires i < |es|
    ensures Before(cfg, es, i + 1) == After(Before(cfg, es, i), cfg, es[i])
  {
    assert es[..i + 1][..i] == es[..i];
  }

  /** Closed means failures below the threshold; half-open means successes below theirs. */
  lemma {:induction false} CountersBounded(cfg: BreakerConfig, es: seq<Event>)
    requires Enabled(cfg)
    ensures var b := AfterAll(cfg, es);
            && (b.state == Closed ==> b.failures < cfg.threshold)
            && (b.state == HalfOpen ==> b.successes < cfg.successThreshold)
    decreases |es|
  {
    if es != [] {
      CountersBounded(cfg, es[..|es| - 1]);
    }
  }

  /** Event `i` opens the circuit. */
  ghost predicate OpensAt(cfg: BreakerConfig, es: seq<Event>, i: nat) {
    i < |es| && Before(cfg, es, i).state != Open && Before(cfg, es, i + 1).state == Open
  }

  /** After an opening and until a manual reset the circuit stays open, or the timeout has passed. */
  lemma {:induction false} OpenUntilTimeout(cfg: BreakerConfig, es: seq<Event>, i: nat, k: nat)
    requires Enabled(cfg) && ClockMonotone(es) && OpensAt(cfg, es, i) && i < k <= |es|
    requires forall j :: i < j < k ==> !es[j].Reset?
    ensures var b := Before(cfg, es, k);
            (b.state == Open && b.openedAt >= es[i].now) || es[k - 1].now >= es[i].now + cfg.timeout
  {
    NextState(cfg, es, k - 1);
    if i < k - 1 {
      OpenUntilTimeout(cfg, es, i, k - 1);
    }
  }

  /** No check passes within the timeout of an opening unless the breaker was reset by hand in between. */
  lemma {:induction false} NoPassBeforeTimeout(cfg: BreakerConfig, es: seq<Event>, i: nat, j: nat)
    requires Enabled(cfg) && ClockMonotone(es) && OpensAt(cfg, es, i) && i < j < |es|
    requires forall k :: i < k < j ==> !es[k].Reset?
    requires es[j].Check? && Passes(Before(cfg, es, j), cfg, es[j].now)
    ensures es[j].now >= es[i].now + cfg.timeout
  {
    OpenUntilTimeout(cfg, es, i, j);
  }

  ghost function Successes(es: seq<Event>, lo: nat, hi: nat): (n: nat)
    requires lo <= hi <= |es|
    decreases hi
  {
    if lo == hi then 0 else Successes(es, lo, hi - 1) + if es[hi - 1].Success? then 1 else 0
  }

  /** Event `i` is the check that moved the circuit from open to half-open, and nothing but checks and
      successes happened from there up to `k`. */
  ghost predicate ProbingSince(cfg: BreakerConfig, es: seq<Event>, i: nat, k: nat) {
    && i < k <= |es| && es[i].Check?
    && Before(cfg, es, i).state == Open && Before(cfg, es, i + 1).state == HalfOpen
    && forall j :: i < j < k ==> es[j].Check? || es[j].Success?
  }

  lemma {:induction false} HalfOpenHistory(cfg: BreakerConfig, es: seq<Event>, k: nat) returns (i: nat)
    requires Enabled(cfg) && k <= |es| && Before(cfg, es, k).state == HalfOpen
    ensures ProbingSince(cfg, es, i, k) && Before(cfg, es, k).successes == Successes(es, i + 1, k)
  {
    NextState(cfg, es, k - 1);
    if Before(cfg, es, k - 1).state == HalfOpen {
      i := HalfOpenHistory(cfg, es, k - 1);
    } else {
      i := k - 1;
    }
  }

  /** The circuit closes from half-open only after exactly successThreshold successes since it became
      half-open, with no failure in between (or by a manual reset). */
  lemma {:induction false} ClosesAfterSuccesses(cfg: BreakerConfig, es: seq<Event>, k: nat) returns (i: nat)
    requires Enabled(cfg) && k < |es| && !es[k].Reset?
    requires Before(cfg, es, k).state == HalfOpen && Before(cfg, es, k + 1).state == Closed
    ensures ProbingSince(cfg, es, i, k) && Successes(es, i + 1, k + 1) == cfg.successThreshold
  {
    NextState(cfg, es, k);
    i := HalfOpenHistory(cfg, es, k);
    CountersBounded(cfg, es[..k]);
  }

  /** Failures since the last success or reset. */
  ghost function FailuresSince(es: seq<Event>, k: nat): (n: nat)
    requires k <= |es|
  {
    if k == 0 then 0
    else match es[k - 1]
      case Failure(_) => FailuresSince(es, k - 1) + 1
      case Check(_) => FailuresSince(es, k - 1)
      case _ => 0
  }

  lemma {:induction false} ClosedCounts(cfg: BreakerConfig, es: seq<Event>, k: nat)
    requires Enabled(cfg) && k <= |es| && Before(cfg, es, k).state == Closed
    ensures Before(cfg, es, k).failures == FailuresSince(es, k)
  {
    if k > 0 {
      NextState(cfg, es, k - 1);
      if Before(cfg, es, k - 1).state == Closed { ClosedCounts(cfg, es, k - 1); }
    }
  }

  /** A closed circuit opens at exactly the failure that makes Threshold of them with no success or reset between. */
  lemma {:induction false} OpensIff(cfg: BreakerConfig, es: seq<Event>, k: nat)
    requires Enabled(cfg) && k < |es| && Before(cfg, es, k).state == Closed
    ensures OpensAt(cfg, es, k) <==> es[k].Failure? && FailuresSince(es, k) + 1 >= cfg.threshold
  {
    ClosedCounts(cfg, es, k);
    NextState(cfg, es, k);
  }

  /** No reset comes after event `i`. */
  ghost predicate NoResetAfter(es: seq<Event>, i: nat) {
    forall j :: i < j < |es| ==> !es[j].Reset?
  }

  lemma {:induction false} OpenHasOpening(cfg: BreakerConfig, es: seq<Event>, k: nat) returns (i: nat)
    requires k <= |es| && Before(cfg, es, k).state == Open
    ensures i < k && OpensAt(cfg, es, i) && es[i].now == Before(cfg, es, k).openedAt && forall j :: i < j < k ==> !es[j].Reset?
  {
    NextState(cfg, es, k - 1);
    if Before(cfg, es, k - 1).state == Open {
      i := OpenHasOpening(cfg, es, k - 1);
    } else {
      i := k - 1;
    }
  }

  /** A check passes exactly when every opening not undone by a reset is at least the timeout ago. */
  lemma {:induction false} PassesIff(cfg: BreakerConfig, es: seq<Event>, now: int)
    requires ValidConfig(cfg) && ClockMonotone(es) && forall i :: 0 <= i < |es| ==> es[i].now <= now
    ensures Passes(AfterAll(cfg, es), cfg, now) <==>
            forall i: nat :: OpensAt(cfg, es, i) && NoResetAfter(es, i) ==> now - es[i].now >= cfg.timeout
  {
    assert es[..|es|] == es;
    if !Passes(AfterAll(cfg, es), cfg, now) {
      var i := OpenHasOpening(cfg, es, |es|);
      assert NoResetAfter(es, i);
    } else {
      forall i: nat | OpensAt(cfg, es, i) && NoResetAfter(es, i) ensures now - es[i].now >= cfg.timeout {
        NextState(cfg, es, i);
        OpenUntilTimeout(cfg, es, i, |es|);
      }
    }
  }

  /** Half-open admits every check until the first success, failure or reset, not just one. */
  lemma {:induction false} HalfOpenAdmitsAll(cfg: BreakerConfig, es: seq<Event>, i: nat, j: nat, now: int)
    requires i <= j <= |es| && Before(cfg, es, i).state == HalfOpen && forall k :: i <= k < j ==> es[k].Check?
    ensures Before(cfg, es, j) == Before(cfg, es, i) && Passes(Before(cfg, es, j), cfg, now)
    decreases j
  {
    if i < j {
      HalfOpenAdmitsAll(cfg, es, i, j - 1, now);
      NextState(cfg, es, j - 1);
    }
  }

  function Failures(n: nat): seq<Event> {
    seq(n, _ => Failure(0))
  }

  lemma {:induction false} FailuresOpen(cfg: BreakerConfig, n: nat)
    requires Enabled(cfg) && n <= cfg.threshold
    ensures AfterAll(cfg, Failures(n)) == Breaker(if n < cfg.threshold then Closed else Open, n, 0, 0)
  {
    if n > 0 {
      assert Failures(n)[..n - 1] == Failures(n - 1);
      FailuresOpen(cfg, n - 1);
    }
  }

  /** For every n there is a run in which n overlapping remediations probe one half-open circuit. */
  lemma {:induction false} ProbesOverlap(cfg: BreakerConfig, n: nat) returns (es: seq<Event>)
    requires Enabled(cfg)
    ensures ClockMonotone(es) && |es| == cfg.threshold + n
    ensures forall j :: cfg.threshold <= j < |es| ==> es[j].Check? && Passes(Before(cfg, es, j), cfg, es[j].now)
    ensures n > 0 ==> AfterAll(cfg, es).state == HalfOpen
  {
    var opening := Failures(cfg.threshold);
    es := opening + seq(n, _ => Check(cfg.timeout));
    FailuresOpen(cfg, cfg.threshold);
    assert es[..cfg.threshold] == opening;
    if n > 0 {
      NextState(cfg, es, cfg.threshold);
      forall j | cfg.threshold < j <= |es| ensures Before(cfg, es, j).state == HalfOpen && Passes(Before(cfg, es, j), cfg, cfg.timeout) {
        HalfOpenAdmitsAll(cfg, es, cfg.threshold + 1, j, cfg.timeout);
      }
      assert es[..|es|] == es;
    }
  }

  // ----- The object -----

  class CircuitBreaker {
    var config: BreakerConfig
    var circuitState: CircuitState
    var consecutiveFailures: nat
    var consecutiveSuccesses: nat
    var circuitOpenedAt: int

    ghost function Model(): Breaker reads this {
      Breaker(circuitState, consecutiveFailures, consecutiveSuccesses, circuitOpenedAt)
    }

    constructor ()
      ensures Model() == NEW_BREAKER && config == BreakerConfig(5, 300, 2, false)
    {
      config := BreakerConfig(5, 300, 2, false);
      circuitState, consecutiveFailures, consecutiveSuccesses, circuitOpenedAt := Closed, 0, 0, 0;
    }

    method CheckCircuitBreaker(now: int) returns (ok: bool)
      modifies this
      ensures ok <==> Passes(old(Model()), config, now)
      ensures Model() == AfterCheck(old(Model()), config, now) && config == old(config)
    {
      match circuitState
      case Closed =>
        return true;
      case Open =>
        if now - circuitOpenedAt >= config.timeout {
          circuitState := HalfOpen;
          consecutiveSuccesses := 0;
          return true;
        }
        return false;
      case HalfOpen =>
        return true;
    }

    method RecordSuccess()
      modifies this
      ensures Model() == AfterSuccess(old(Model()), config) && config == old(config)
    {
      consecutiveFailures := 0;
      consecutiveSuccesses := consecutiveSuccesses + 1;
      if circuitState == HalfOpen && consecutiveSuccesses >= config.successThreshold {
        circuitState := Closed;
        consecutiveSuccesses := 0;
      }
    }

    method RecordFailure(now: int)
      modifies this
      ensures Model() == AfterFailure(old(Model()), config, now) && config == old(config)
    {
      consecutiveSuccesses := 0;
      consecutiveFailures := consecutiveFailures + 1;
      if config.disabled {
        return;
      }
      if circuitState == HalfOpen {
        circuitState := Open;
        circuitOpenedAt := now;
        consecutiveFailures := 1;
        return;
      }
      if circuitState == Closed && consecutiveFailures >= config.threshold {
        circuitState := Open;
        circuitOpenedAt := now;
      }
    }

    method ResetCircuitBreaker()
      modifies this
      ensures Model() == NEW_BREAKER && config == old(config)
    {
      circuitState, consecutiveFailures, consecutiveSuccesses, circuitOpenedAt := Closed, 0, 0, 0;
    }

    /** An invalid configuration is refused; disabling a tripped breaker closes it. */
    method SetCircuitBreakerConfig(cfg: BreakerConfig) returns (ok: bool)
      modifies this
      ensures ok <==> ValidConfig(cfg)
      ensures config == if ok then cfg else old(config)
      ensures Model() == if ok && cfg.disabled && old(circuitState) != Closed
                         then old(Model()).(state := Closed, failures := 0, successes := 0) else old(Model())
    {
      if cfg.threshold <= 0 || cfg.timeout <= 0 || cfg.successThreshold <= 0 {
        return false;
      }
      config := cfg;
      if cfg.disabled && circuitState != Closed {
        circuitState, consecutiveFailures, consecutiveSuccesses := Closed, 0, 0;
      }
      return true;
    }
  }
}
