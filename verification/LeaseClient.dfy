/** The node's side of a lease request: pkg/remediators/lease_client.go. */
module LeaseClient {
  import opened MonitorTypes
  import opened LeaseServer

  /** What one HTTP attempt yields: no usable answer, or the controller's decision. */
  datatype Attempt = Failed | Denied | Approved(id: LeaseId, expiresAt: int)

  /** The network and context as one request sees them: the outcome of each attempt, whether the context
      has been cancelled when it returns, and whether it is cancelled during the wait that follows. */
  datatype Weather = Weather(attempt: Attempt, cancelled: bool, cancelledWaiting: bool)

  datatype Outcome = Answered(attempt: Attempt) | FallbackApproved | Unreachable | Cancelled

  datatype ClientConfig = ClientConfig(maxRetries: nat, fallback: bool)

  /** Attempt `k` was reached: every earlier one failed and was retried. */
  ghost predicate ReachedAttempt(w: seq<Weather>, k: nat) {
    k <= |w| && forall i :: 0 <= i < k ==> w[i].attempt == Failed && !w[i].cancelled && !w[i].cancelledWaiting
  }

  predicate CancelledInWait(x: Weather) {
    x.attempt == Failed && !x.cancelled && x.cancelledWaiting
  }

  /** What a call that got no usable answer does. */
  function NoAnswer(cfg: ClientConfig): Outcome {
    if cfg.fallback then FallbackApproved else Unreachable
  }

  /** How a request ends from attempt `k` on. */
  function Resolved(cfg: ClientConfig, w: seq<Weather>, k: nat): Outcome
    requires |w| >= cfg.maxRetries
    decreases cfg.maxRetries - k
  {
    if k >= cfg.maxRetries then NoAnswer(cfg)
    else if w[k].attempt != Failed then Answered(w[k].attempt)
    else if w[k].cancelled || k + 1 >= cfg.maxRetries then NoAnswer(cfg)
    else if w[k].cancelledWaiting then Outcome.Cancelled
    else Resolved(cfg, w, k + 1)
  }

  class LeaseClient {
    const config: ClientConfig
    var activeLease: Option<LeaseId>
    var granted: nat
    var denied: nat
    var controllerErrors: nat
    var fallbacks: nat

    constructor (config: ClientConfig)
      ensures this.config == config && activeLease == None
    {
      this.config, activeLease := config, None;
      granted, denied, controllerErrors, fallbacks := 0, 0, 0, 0;
    }

    /** The first attempt that gets an answer decides; at most maxRetries are made. Without an answer the
        call proceeds only if fallback is configured, and then without a lease. */
    method RequestLease(w: seq<Weather>) returns (o: Outcome)
      requires |w| >= config.maxRetries
      modifies this
      ensures o == Resolved(config, w, 0)
      ensures o.Answered? <==> exists k :: 0 <= k < config.maxRetries && ReachedAttempt(w, k) && w[k].attempt != Failed
      ensures o.Answered? ==> exists k :: 0 <= k < config.maxRetries && ReachedAttempt(w, k) && w[k].attempt == o.attempt
      ensures o == Outcome.Cancelled <==> exists k :: 0 <= k < config.maxRetries - 1 && ReachedAttempt(w, k) && CancelledInWait(w[k])
      ensures o == FallbackApproved ==> config.fallback
      ensures o == Unreachable ==> !config.fallback
      ensures activeLease == if o.Answered? && o.attempt.Approved? then Some(o.attempt.id) else old(activeLease)
      ensures granted == old(granted) + (if o.Answered? && o.attempt.Approved? then 1 else 0)
      ensures denied == old(denied) + (if o.Answered? && o.attempt == Denied then 1 else 0)
      ensures fallbacks == old(fallbacks) + (if o == FallbackApproved then 1 else 0)
      ensures controllerErrors == old(controllerErrors) + (if o in {FallbackApproved, Unreachable} then 1 else 0)
    {
      var attempt := 1;
      while attempt <= config.maxRetries
        invariant 1 <= attempt <= config.maxRetries + 1
        invariant attempt <= config.maxRetries ==> ReachedAttempt(w, attempt - 1)
        invariant forall k :: 0 <= k < attempt - 1 ==> w[k].attempt == Failed && !w[k].cancelled
        invariant forall k :: 0 <= k < attempt - 1 && k < config.maxRetries - 1 ==> !w[k].cancelledWaiting
        invariant Resolved(config, w, attempt - 1) == Resolved(config, w, 0)
        invariant unchanged(this)
      {
        var seen := w[attempt - 1];
        if seen.attempt != Failed {
          if seen.attempt.Approved? {
            granted := granted + 1;
            activeLease := Some(seen.attempt.id);
          } else {
            denied := denied + 1;
          }
          return Answered(seen.attempt);
        }
        if seen.cancelled || attempt >= config.maxRetries {
          break;
        }
        if seen.cancelledWaiting {
          return Outcome.Cancelled;
        }
        attempt := attempt + 1;
      }
      controllerErrors := controllerErrors + 1;
      if config.fallback {
        fallbacks := fallbacks + 1;
        return FallbackApproved;
      }
      return Unreachable;
    }

    /** A release that the controller acknowledges forgets the lease; a lost one leaves it to expire. */
    method ReleaseLease(id: LeaseId, acknowledged: bool)
      modifies this`activeLease
      ensures activeLease == if id != "" && acknowledged then None else old(activeLease)
    {
      if id == "" {
        return;
      }
      if acknowledged {
        activeLease := None;
      }
    }
  }
}
