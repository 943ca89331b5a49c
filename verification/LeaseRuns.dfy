/** Runs of the lease protocol built step by step, and the lease client (pkg/remediators/lease_client.go) as one of its
    callers. */
module LeaseRuns {
  import opened MonitorTypes
  import opened LeaseServer
  import opened LeaseProtocol
  import LC = LeaseClient

  // ----- Step sequences -----

  /** The steps lead from `s` to `t`. */
  ghost predicate Leads(cfg: Config, s: Sys, steps: seq<Step>, t: Sys)
    decreases |steps|
  {
    if steps == [] then s == t
    else Enabled(cfg, s, steps[0]) && Leads(cfg, Apply(cfg, s, steps[0]), steps[1..], t)
  }

  ghost predicate EndsIn(cfg: Config, states: seq<Sys>, steps: seq<Step>, s: Sys) {
    Run(cfg, states, steps) && states[|steps|] == s
  }

  lemma {:induction false} RunOneMore(cfg: Config, states: seq<Sys>, steps: seq<Step>, s: Sys, step: Step) returns (states': seq<Sys>, steps': seq<Step>)
    requires EndsIn(cfg, states, steps, s) && Enabled(cfg, s, step)
    ensures EndsIn(cfg, states', steps', Apply(cfg, s, step))
  {
    hide Apply, Enabled;
    states', steps' := states + [Apply(cfg, s, step)], steps + [step];
  }

  /** A run can be continued by any steps that lead on from its last state. */
  lemma {:induction false} RunOn(cfg: Config, states: seq<Sys>, steps: seq<Step>, s: Sys, more: seq<Step>, t: Sys) returns (states': seq<Sys>, steps': seq<Step>)
    requires EndsIn(cfg, states, steps, s) && Leads(cfg, s, more, t)
    ensures EndsIn(cfg, states', steps', t)
    decreases |more|
  {
    hide EndsIn, Apply, Enabled;
    states', steps' := states, steps;
    if more != [] {
      states', steps' := RunOneMore(cfg, states, steps, s, more[0]);
      states', steps' := RunOn(cfg, states', steps', Apply(cfg, s, more[0]), more[1..], t);
    }
  }

  // ----- The lease client as the protocol's caller -----

  /** Where the protocol leaves a call whose client ended with this outcome. */
  ghost predicate CallFollows(s: Sys, call: CallId, node: string, kind: string, o: LC.Outcome, attempt: nat) {
    && call in s.calls
    && match o
       case FallbackApproved => s.calls[call] == Unleased(node)
       case Unreachable => s.calls[call] == Ended
       case Cancelled => s.calls[call] == Ended
       case Answered(Approved(id, _)) =>
         s.calls[call] == Requesting(node, kind, attempt)
         && Delivered(s, Answer(call, attempt, Some(id))).calls[call] == Holding(node, id)
       case Answered(_) =>
         s.calls[call] == Requesting(node, kind, attempt)
         && Delivered(s, Answer(call, attempt, None)).calls[call] == Ended
  }

  /** Whatever the network does to a lease client's loop from attempt `k` on, retries followed by giving up or
      cancelling lead the protocol's call to where the client ends; an answered attempt is the one the call awaits. */
  lemma {:induction false} ClientFollowsProtocol(cfg: Config, s: Sys, call: CallId, node: string, kind: string, w: seq<LC.Weather>, k: nat)
    returns (steps: seq<Step>, t: Sys, attempt: nat)
    requires |w| >= cfg.maxRetries && k < cfg.maxRetries
    requires call in s.calls && s.calls[call] == Requesting(node, kind, k + 1)
    ensures Leads(cfg, s, steps, t)
    ensures CallFollows(t, call, node, kind, LC.Resolved(LC.ClientConfig(cfg.maxRetries, cfg.fallback), w, k), attempt)
    ensures LC.Resolved(LC.ClientConfig(cfg.maxRetries, cfg.fallback), w, k).Answered? ==>
              1 <= attempt <= cfg.maxRetries
              && LC.Resolved(LC.ClientConfig(cfg.maxRetries, cfg.fallback), w, k) == LC.Answered(w[attempt - 1].attempt)
    decreases cfg.maxRetries - k
  {
    attempt := k + 1;
    if w[k].attempt != LC.Failed {
      steps, t := [], s;
    } else if w[k].cancelled || k + 1 >= cfg.maxRetries {
      steps, t := [GiveUp(call)], Apply(cfg, s, GiveUp(call));
    } else if w[k].cancelledWaiting {
      steps, t := [Cancel(call)], Apply(cfg, s, Cancel(call));
    } else {
      var s' := Apply(cfg, s, Retry(call));
      var rest;
      rest, t, attempt := ClientFollowsProtocol(cfg, s', call, node, kind, w, k + 1);
      steps := [Retry(call)] + rest;
      assert steps[1..] == rest;
    }
  }
}
