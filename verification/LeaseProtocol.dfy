/** The whole lease protocol: any number of Remediate calls on any number of nodes
    (pkg/remediators/registry.go), each with its lease client's retry loop (pkg/remediators/lease_client.go),
    against one controller that can lose replies, expire leases, crash and rehydrate. */
module LeaseProtocol {
  import opened MonitorTypes
  import opened Collections
  import opened LeaseServer

  type CallId = nat

  /** Where one Remediate call stands. `Unleased` is the fallback that proceeds without a lease. */
  datatype Call =
    | Requesting(node: string, kind: string, attempt: nat)
    | Holding(node: string, lease: LeaseId)
    | Unleased(node: string)
    | Ended

  datatype Request = Request(call: CallId, attempt: nat, node: string, kind: string)
  datatype Answer = Answer(call: CallId, attempt: nat, approved: Option<LeaseId>)

  /** History of a grant: who asked, and until when it lasts. */
  datatype GrantRecord = GrantRecord(call: CallId, node: string, expiresAt: int)

  /** `saves`: saving a granted lease to the table never fails. `rehydrates`: nor does reading it at start-up.
      The code logs either failure and goes on. */
  datatype Config = Config(coordination: Coordination, maxRetries: nat, fallback: bool, saves: bool, rehydrates: bool)

  datatype Sys = Sys(
    now: int,
    up: bool,
    crashed: bool,               // the controller has crashed at some time
    ctl: Controller,
    calls: map<CallId, Call>,
    requests: set<Request>,
    answers: set<Answer>,
    releases: set<LeaseId>,      // release requests on their way to the controller
    completions: set<LeaseId>,   // released in memory, table update still to come
    grants: map<LeaseId, GrantRecord>,
    released: set<LeaseId>)      // every lease ever released in memory

  datatype Step =
    | Begin(call: CallId, node: string, kind: string)
    | Retry(call: CallId)
    | GiveUp(call: CallId)
    | Cancel(call: CallId)       // the context ends during the wait before a retry
    | Serve(req: Request, duration: Option<int>, id: LeaseId, readable: bool, saved: bool)
    | Deliver(ans: Answer)
    | LoseRequest(req: Request)
    | LoseAnswer(ans: Answer)
    | Finish(call: CallId)
    | LoseRelease(id: LeaseId)
    | Release(id: LeaseId)
    | Complete(id: LeaseId, ok: bool)
    | Cleanup(written: set<LeaseId>)
    | ExpireRows
    | Crash
    | Restart(readable: bool)
    | Tick(t: nat)

  function Init(): Sys {
    Sys(0, true, false, Controller(map[], map[]), map[], {}, {}, {}, {}, map[], {})
  }

  ghost predicate IsRequesting(s: Sys, call: CallId) {
    call in s.calls && s.calls[call].Requesting?
  }

  /** When a step can happen. A lease client has a node name, and grants get identifiers never used before. */
  ghost predicate Enabled(cfg: Config, s: Sys, step: Step) {
    match step
    case Begin(call, node, kind) => call !in s.calls && node != ""
    case Retry(call) => IsRequesting(s, call) && s.calls[call].attempt < cfg.maxRetries
    case GiveUp(call) => IsRequesting(s, call)
    case Cancel(call) => IsRequesting(s, call) && s.calls[call].attempt < cfg.maxRetries
    case Serve(req, duration, id, readable, saved) =>
      s.up && req in s.requests && id !in s.grants && (cfg.saves ==> saved)
    case Deliver(ans) => ans in s.answers
    case LoseRequest(req) => req in s.requests
    case LoseAnswer(ans) => ans in s.answers
    case Finish(call) => call in s.calls && (s.calls[call].Holding? || s.calls[call].Unleased?)
    case LoseRelease(id) => id in s.releases
    case Release(id) => s.up && id in s.releases
    case Complete(id, ok) => s.up && id in s.completions
    case Cleanup(written) => s.up
    case ExpireRows => true
    case Crash => s.up
    case Restart(readable) => !s.up && (cfg.rehydrates ==> readable)
    case Tick(t) => true
  }

  /** The controller grants nothing, or the clients never ask. */
  predicate NeverGrants(cfg: Config) {
    cfg.coordination.maxConcurrent == 0 || cfg.maxRetries == 0
  }

  ghost function Sent(s: Sys, call: CallId, node: string, kind: string, attempt: nat): Sys {
    s.(calls := s.calls[call := Requesting(node, kind, attempt)],
       requests := s.requests + {Request(call, attempt, node, kind)})
  }

  predicate BadRequest(req: Request) {
    req.node == "" || req.kind == ""
  }

  /** The request is well-formed and the controller grants it. */
  predicate Grants(cfg: Config, s: Sys, step: Step)
    requires step.Serve?
  {
    !BadRequest(step.req) && Decision(s.ctl, cfg.coordination, step.req.node, s.now, step.readable) == Grant
  }

  /** The client takes the error reply to a bad request as no answer. */
  ghost function Served(cfg: Config, s: Sys, step: Step): Sys
    requires step.Serve?
  {
    var req := step.req;
    var s1 := s.(requests := s.requests - {req});
    if BadRequest(req) then s1
    else if Grants(cfg, s, step) then
      var lease := NewLease(cfg.coordination, req.node, req.kind, step.duration, s.now);
      s1.(ctl := Granted(s.ctl, step.id, lease, step.saved),
          grants := s.grants[step.id := GrantRecord(req.call, req.node, lease.expiresAt)],
          answers := s.answers + {Answer(req.call, req.attempt, Some(step.id))})
    else
      s1.(answers := s.answers + {Answer(req.call, req.attempt, None)})
  }

  /** The client takes an answer only to the attempt it is waiting for. */
  ghost function Delivered(s: Sys, ans: Answer): Sys {
    var s1 := s.(answers := s.answers - {ans});
    if IsRequesting(s, ans.call) && s.calls[ans.call].attempt == ans.attempt then
      s1.(calls := s.calls[ans.call := if ans.approved.Some? then Holding(s.calls[ans.call].node, ans.approved.value) else Ended])
    else s1
  }

  ghost function Apply(cfg: Config, s: Sys, step: Step): Sys
    requires Enabled(cfg, s, step)
  {
    match step
    case Begin(call, node, kind) =>
      if cfg.maxRetries == 0 then s.(calls := s.calls[call := Requesting(node, kind, 1)]) else Sent(s, call, node, kind, 1)
    case Retry(call) => Sent(s, call, s.calls[call].node, s.calls[call].kind, s.calls[call].attempt + 1)
    case GiveUp(call) => s.(calls := s.calls[call := if cfg.fallback then Unleased(s.calls[call].node) else Ended])
    case Cancel(call) => s.(calls := s.calls[call := Ended])
    case Serve(_, _, _, _, _) => Served(cfg, s, step)
    case Deliver(ans) => Delivered(s, ans)
    case LoseRequest(req) => s.(requests := s.requests - {req})
    case LoseAnswer(ans) => s.(answers := s.answers - {ans})
    case Finish(call) =>
      s.(calls := s.calls[call := Ended],
         releases := if s.calls[call].Holding? then s.releases + {s.calls[call].lease} else s.releases)
    case LoseRelease(id) => s.(releases := s.releases - {id})
    case Release(id) =>
      if id in s.ctl.leases then
        s.(ctl := Released(s.ctl, id), releases := s.releases - {id},
           released := s.released + {id}, completions := s.completions + {id})
      else s.(releases := s.releases - {id})
    case Complete(id, ok) =>
      s.(ctl := s.ctl.(rows := if ok then StatusSet(s.ctl.rows, id, Completed, s.now) else s.ctl.rows),
         completions := s.completions - {id})
    case Cleanup(written) => s.(ctl := CleanedUp(s.ctl, s.now, written, s.ctl.leases.Keys))
    case ExpireRows => s.(ctl := s.ctl.(rows := RowsExpired(s.ctl.rows, s.now)))
    case Crash => s.(up := false, crashed := true, ctl := s.ctl.(leases := map[]), completions := {})
    case Restart(readable) => s.(up := true, ctl := s.ctl.(leases := if readable then ActiveRows(s.ctl.rows, s.now) else map[]))
    case Tick(t) => s.(now := s.now + t)
  }

  /** A run: states[i+1] follows from states[i] by steps[i]. */
  ghost predicate Run(cfg: Config, states: seq<Sys>, steps: seq<Step>) {
    && |states| == |steps| + 1
    && states[0] == Init()
    && forall i :: 0 <= i < |steps| ==> Enabled(cfg, states[i], steps[i]) && states[i + 1] == Apply(cfg, states[i], steps[i])
  }

  // ----- Invariants -----

  ghost predicate GrantedTo(s: Sys, id: LeaseId, call: CallId) {
    id in s.grants && s.grants[id].call == call && id !in s.releases && id !in s.released
  }

  /** A lease a call holds, or is about to be told of, was granted to that call and is not being released. */
  ghost predicate Owned(cfg: Config, s: Sys) {
    && (forall c :: c in s.calls && s.calls[c].Holding? ==> GrantedTo(s, s.calls[c].lease, c))
    && (forall a :: a in s.answers && a.approved.Some? ==>
          GrantedTo(s, a.approved.value, a.call)
          && forall c :: c in s.calls && s.calls[c].Holding? ==> s.calls[c].lease != a.approved.value)
    && (forall a, b :: a in s.answers && b in s.answers && a.approved.Some? && a.approved == b.approved ==> a == b)
    && s.releases <= s.grants.Keys && s.released <= s.grants.Keys && s.completions <= s.released
    && (!cfg.fallback ==> forall c :: c in s.calls ==> !s.calls[c].Unleased?)
  }

  ghost predicate Outstanding(s: Sys, id: LeaseId) {
    id in s.grants && id !in s.released && s.now < s.grants[id].expiresAt
  }

  /** Granted, not released, not expired. */
  ghost function OutstandingIds(s: Sys): set<LeaseId> {
    set id | id in s.grants && Outstanding(s, id)
  }

  ghost predicate Matches(leases: Leases, id: LeaseId, g: GrantRecord) {
    id in leases && leases[id].status == Active && leases[id].node == g.node && leases[id].expiresAt == g.expiresAt
  }

  /** Nothing the controller knew can have been lost: it never crashed, or saves and rehydrates reliably, or never
      grants at all. */
  ghost predicate Trusted(cfg: Config, s: Sys) {
    !s.crashed || (cfg.saves && cfg.rehydrates) || NeverGrants(cfg)
  }

  ghost predicate Traces(leases: Leases, grants: map<LeaseId, GrantRecord>) {
    forall id :: id in leases ==> id in grants && leases[id].expiresAt == grants[id].expiresAt
  }

  /** Memory and table hold only granted leases; a maximum of 0 or no attempts grant none; down means crashed. */
  ghost predicate Recorded(cfg: Config, s: Sys) {
    && Traces(s.ctl.leases, s.grants) && Traces(s.ctl.rows, s.grants)
    && (NeverGrants(cfg) ==> s.grants == map[]) && (cfg.maxRetries == 0 ==> s.requests == {})
    && (!s.up ==> s.crashed)
  }

  /** If saves succeed, every outstanding lease is live in the table. */
  ghost predicate Saved(cfg: Config, s: Sys) {
    cfg.saves ==> forall id :: Outstanding(s, id) ==> Matches(s.ctl.rows, id, s.grants[id])
  }

  /** If nothing can have been lost, every outstanding lease is live in memory while the controller is up. */
  ghost predicate Backed(cfg: Config, s: Sys) {
    Trusted(cfg, s) && s.up ==> forall id :: Outstanding(s, id) ==> Matches(s.ctl.leases, id, s.grants[id])
  }

  /** Outstanding leases number at most the maximum and are all for different nodes. */
  ghost predicate WithinLimit(cfg: Config, s: Sys) {
    && |OutstandingIds(s)| <= cfg.coordination.maxConcurrent
    && forall a, b :: Outstanding(s, a) && Outstanding(s, b) && s.grants[a].node == s.grants[b].node ==> a == b
  }

  ghost predicate Capped(cfg: Config, s: Sys) {
    Trusted(cfg, s) ==> WithinLimit(cfg, s)
  }

  ghost predicate FinishedRow(s: Sys, id: LeaseId) {
    id in s.ctl.rows && s.ctl.rows[id].status in {Completed, Expired}
  }

  /** Rows are of granted leases, active or finished, and every finished row carries its completion time. */
  ghost predicate Stamped(s: Sys) {
    && s.ctl.rows.Keys <= s.grants.Keys
    && (forall id :: id in s.ctl.rows ==> s.ctl.rows[id].status != Cancelled)
    && forall id :: FinishedRow(s, id) ==> s.ctl.rows[id].completedAt.Some? && s.ctl.rows[id].completedAt.value <= s.now
  }

  ghost predicate Inv(cfg: Config, s: Sys) {
    Owned(cfg, s) && Recorded(cfg, s) && Saved(cfg, s) && Backed(cfg, s) && Capped(cfg, s) && Stamped(s)
  }

  lemma {:induction false} OwnedServe(cfg: Config, s: Sys, step: Step)
    requires step.Serve? && Owned(cfg, s) && Enabled(cfg, s, step)
    ensures Owned(cfg, Served(cfg, s, step))
  {
    hide Decision, NewLease, Granted, Grants, BadRequest;
  }

  lemma {:induction false} OwnedDeliver(cfg: Config, s: Sys, ans: Answer)
    requires Owned(cfg, s) && ans in s.answers
    ensures Owned(cfg, Delivered(s, ans))
  {
  }

  lemma {:induction false} OwnedRelease(cfg: Config, s: Sys, id: LeaseId)
    requires Owned(cfg, s) && Enabled(cfg, s, Release(id))
    ensures Owned(cfg, Apply(cfg, s, Release(id)))
  {
    hide Released;
  }

  lemma {:induction false} OwnedStep(cfg: Config, s: Sys, step: Step)
    requires Owned(cfg, s) && Enabled(cfg, s, step)
    ensures Owned(cfg, Apply(cfg, s, step))
  {
    match step
    case Serve(_, _, _, _, _) => OwnedServe(cfg, s, step);
    case Deliver(ans) => OwnedDeliver(cfg, s, ans);
    case Release(id) => OwnedRelease(cfg, s, id);
    case _ =>
  }

  lemma {:induction false} RecordedStep(cfg: Config, s: Sys, step: Step)
    requires Recorded(cfg, s) && Enabled(cfg, s, step)
    ensures Recorded(cfg, Apply(cfg, s, step))
  {
    match step
    case Serve(_, _, _, _, _) => RecordedServe(cfg, s, step);
    case Cleanup(written) => CleanupTraces(s, written);
    case _ => hide Served, CleanedUp;
  }

  lemma {:induction false} RecordedServe(cfg: Config, s: Sys, step: Step)
    requires step.Serve? && Recorded(cfg, s) && Enabled(cfg, s, step)
    ensures Recorded(cfg, Served(cfg, s, step))
  {
    if cfg.coordination.maxConcurrent == 0 { assert !Grants(cfg, s, step); }
    hide Grants;
  }

  lemma {:induction false} CleanupTraces(s: Sys, written: set<LeaseId>)
    requires Traces(s.ctl.leases, s.grants) && Traces(s.ctl.rows, s.grants)
    ensures var c := CleanedUp(s.ctl, s.now, written, s.ctl.leases.Keys);
            Traces(c.leases, s.grants) && Traces(c.rows, s.grants)
  {
  }

  lemma {:induction false} SavedStep(cfg: Config, s: Sys, step: Step)
    requires Owned(cfg, s) && Recorded(cfg, s) && Saved(cfg, s) && Enabled(cfg, s, step)
    ensures Saved(cfg, Apply(cfg, s, step))
  {
    hide Decision;
  }

  lemma {:induction false} BackedStep(cfg: Config, s: Sys, step: Step)
    requires Owned(cfg, s) && Recorded(cfg, s) && Saved(cfg, s) && Backed(cfg, s) && Enabled(cfg, s, step)
    ensures Backed(cfg, Apply(cfg, s, step))
  {
    if step.Serve? { BackedServe(cfg, s, step); }
  }

  lemma {:induction false} BackedServe(cfg: Config, s: Sys, step: Step)
    requires step.Serve? && Owned(cfg, s) && Backed(cfg, s) && Enabled(cfg, s, step)
    ensures Backed(cfg, Served(cfg, s, step))
  {
    hide Decision;
  }

  lemma {:induction false} StampedStep(cfg: Config, s: Sys, step: Step)
    requires Stamped(s) && Enabled(cfg, s, step)
    ensures Stamped(Apply(cfg, s, step))
  {
    match step
    case Serve(_, _, _, _, _) => StampedServe(cfg, s, step);
    case Cleanup(written) =>
    case Complete(_, _) =>
    case ExpireRows =>
    case Tick(_) =>
    case _ => assert Apply(cfg, s, step).ctl.rows == s.ctl.rows && Apply(cfg, s, step).now == s.now;
  }

  lemma {:induction false} StampedServe(cfg: Config, s: Sys, step: Step)
    requires step.Serve? && Stamped(s) && Enabled(cfg, s, step)
    ensures Stamped(Served(cfg, s, step))
  {
    hide Grants;
  }

  lemma {:induction false} CappedShrink(cfg: Config, s: Sys, s': Sys)
    requires WithinLimit(cfg, s)
    requires forall id :: Outstanding(s', id) ==> Outstanding(s, id) && s'.grants[id] == s.grants[id]
    ensures WithinLimit(cfg, s')
  {
    SubsetSize(OutstandingIds(s'), OutstandingIds(s));
  }

  lemma {:induction false} CappedGrant(cfg: Config, s: Sys, step: Step)
    requires step.Serve? && Enabled(cfg, s, step) && Backed(cfg, s) && Trusted(cfg, s) && WithinLimit(cfg, s)
    requires Grants(cfg, s, step)
    ensures WithinLimit(cfg, Served(cfg, s, step))
  {
    var s' := Served(cfg, s, step);
    forall id | Outstanding(s, id) ensures id in LiveIds(s.ctl.leases, s.now) && s.grants[id].node != step.req.node {
      assert Matches(s.ctl.leases, id, s.grants[id]);
    }
    SubsetSize(OutstandingIds(s), LiveIds(s.ctl.leases, s.now));
    assert OutstandingIds(s') <= OutstandingIds(s) + {step.id};
    SubsetSize(OutstandingIds(s'), OutstandingIds(s) + {step.id});
  }

  lemma {:induction false} CappedStep(cfg: Config, s: Sys, step: Step)
    requires Backed(cfg, s) && Capped(cfg, s) && Enabled(cfg, s, step)
    ensures Capped(cfg, Apply(cfg, s, step))
  {
    var s' := Apply(cfg, s, step);
    assert Trusted(cfg, s') ==> Trusted(cfg, s);
    if Trusted(cfg, s') {
      if step.Serve? && Grants(cfg, s, step) {
        CappedGrant(cfg, s, step);
      } else {
        hide Grants;
        CappedShrink(cfg, s, s');
      }
    }
  }

  lemma {:induction false} InvStep(cfg: Config, s: Sys, step: Step)
    requires Inv(cfg, s) && Enabled(cfg, s, step)
    ensures Inv(cfg, Apply(cfg, s, step))
  {
    hide Owned, Recorded, Saved, Backed, Capped, Stamped, Apply, Enabled;
    OwnedStep(cfg, s, step);
    RecordedStep(cfg, s, step);
    SavedStep(cfg, s, step);
    BackedStep(cfg, s, step);
    CappedStep(cfg, s, step);
    StampedStep(cfg, s, step);
  }

  lemma {:induction false} InitInv(cfg: Config)
    ensures Inv(cfg, Init())
  {
    assert OutstandingIds(Init()) == {};
  }

  lemma {:induction false} RunKeepsInv(cfg: Config, states: seq<Sys>, steps: seq<Step>, i: nat)
    requires Run(cfg, states, steps) && i < |states|
    ensures Inv(cfg, states[i])
  {
    hide Inv, Apply, Enabled;
    if i == 0 {
      InitInv(cfg);
    } else {
      RunKeepsInv(cfg, states, steps, i - 1);
      assert states[i - 1 + 1] == Apply(cfg, states[i - 1], steps[i - 1]);
      InvStep(cfg, states[i - 1], steps[i - 1]);
    }
  }

  // ----- Theorems over every run -----

  /** Calls between approval and release, and their nodes. */
  ghost function RemediatingCalls(s: Sys): set<CallId> {
    set c | c in s.calls && (s.calls[c].Holding? || s.calls[c].Unleased?)
  }

  ghost function RemediatingNodes(s: Sys): set<string> {
    set c | c in RemediatingCalls(s) :: s.calls[c].node
  }

  /** Remediations end before their leases expire: no call is still holding an expired lease. */
  ghost predicate NoneOverstays(s: Sys) {
    forall c :: c in s.calls && s.calls[c].Holding? ==>
      s.calls[c].lease in s.grants && s.now < s.grants[s.calls[c].lease].expiresAt
  }

  ghost function Image<A, B>(xs: set<A>, f: map<A, B>): set<B>
  {
    set x | x in xs && x in f :: f[x]
  }

  lemma {:induction false} ImageSize<A, B>(xs: set<A>, f: map<A, B>)
    ensures |Image(xs, f)| <= |xs|
    decreases |xs|
  {
    if xs != {} {
      var y :| y in xs;
      var rest := xs - {y};
      ImageSize(rest, f);
      assert Image(xs, f) == Image(rest, f) + if y in f then {f[y]} else {};
    }
  }

  /** In every interleaving, with fallback off and no remediation outliving its lease, at most the configured
      maximum of nodes (indeed of calls) are between lease approval and release. This holds through lost
      messages, retries, cancellation and expiry, whether or not leases are saved, until the first crash; and
      through crashes too if saving a grant and the rehydrating read never fail. */
  lemma {:induction false} ConcurrencyLimited(cfg: Config, states: seq<Sys>, steps: seq<Step>, i: nat)
    requires Run(cfg, states, steps) && i < |states|
    requires !cfg.fallback && NoneOverstays(states[i]) && Trusted(cfg, states[i])
    ensures |RemediatingNodes(states[i])| <= |RemediatingCalls(states[i])| <= cfg.coordination.maxConcurrent
  {
    RunKeepsInv(cfg, states, steps, i);
    CallsWithinLeases(cfg, states[i]);
    NodesWithinCalls(states[i]);
  }

  lemma {:induction false} NodesWithinCalls(s: Sys)
    ensures |RemediatingNodes(s)| <= |RemediatingCalls(s)|
  {
    var nodeOf := map c | c in RemediatingCalls(s) :: s.calls[c].node;
    ImageSize(RemediatingCalls(s), nodeOf);
    assert RemediatingNodes(s) == Image(RemediatingCalls(s), nodeOf);
  }

  /** Each remediating call owns an outstanding lease of its own. */
  lemma {:induction false} CallsWithinLeases(cfg: Config, s: Sys)
    requires Owned(cfg, s) && WithinLimit(cfg, s) && !cfg.fallback && NoneOverstays(s)
    ensures |RemediatingCalls(s)| <= cfg.coordination.maxConcurrent
  {
    var ids := OutstandingIds(s);
    var owner := map id | id in ids :: s.grants[id].call;
    forall c | c in RemediatingCalls(s) ensures c in Image(ids, owner) {
      assert GrantedTo(s, s.calls[c].lease, c);
      assert s.calls[c].lease in ids && owner[s.calls[c].lease] == c;
    }
    ImageSize(ids, owner);
    SubsetSize(RemediatingCalls(s), Image(ids, owner));
  }

  /** If saving a grant never fails, every granted, unreleased, unexpired lease is live in the table after every
      step, whatever crashes; if the rehydrating read never fails either, it is live in memory whenever the
      controller is up, and such leases never exceed the maximum and never share a node. */
  lemma {:induction false} LeasesSurviveCrashes(cfg: Config, states: seq<Sys>, steps: seq<Step>, i: nat)
    requires Run(cfg, states, steps) && i < |states| && cfg.saves
    ensures OutstandingIds(states[i]) <= LiveIds(states[i].ctl.rows, states[i].now)
    ensures cfg.rehydrates && states[i].up ==> OutstandingIds(states[i]) <= LiveIds(states[i].ctl.leases, states[i].now)
    ensures cfg.rehydrates ==> WithinLimit(cfg, states[i])
  {
    RunKeepsInv(cfg, states, steps, i);
    var s := states[i];
    hide Owned, Recorded, Stamped, WithinLimit;
    forall id | id in OutstandingIds(s)
      ensures Matches(s.ctl.rows, id, s.grants[id]) && (cfg.rehydrates && s.up ==> Matches(s.ctl.leases, id, s.grants[id]))
    {
      assert Outstanding(s, id);
    }
  }

  /** The row `id` is finished in both states, for the same node, and its completion time did not go back. */
  ghost predicate StillFinished(s: Sys, s': Sys, id: LeaseId) {
    && FinishedRow(s, id) && FinishedRow(s', id) && s'.ctl.rows[id].node == s.ctl.rows[id].node
    && s.ctl.rows[id].completedAt.Some? && s'.ctl.rows[id].completedAt.Some?
    && s.ctl.rows[id].completedAt.value <= s'.ctl.rows[id].completedAt.value
  }

  lemma {:induction false} FinishedRowKept(cfg: Config, s: Sys, step: Step, id: LeaseId)
    requires Stamped(s) && Enabled(cfg, s, step) && FinishedRow(s, id)
    ensures StillFinished(s, Apply(cfg, s, step), id)
  {
  }

  lemma {:induction false} FinishedRowPersists(cfg: Config, states: seq<Sys>, steps: seq<Step>, i: nat, j: nat, id: LeaseId)
    requires Run(cfg, states, steps) && i <= j < |states| && FinishedRow(states[i], id)
    ensures StillFinished(states[i], states[j], id)
  {
    hide Owned, Recorded, Saved, Backed, Capped, Apply, Enabled;
    RunKeepsInv(cfg, states, steps, i);
    if i < j {
      FinishedRowPersists(cfg, states, steps, i, j - 1, id);
      RunKeepsInv(cfg, states, steps, j - 1);
      assert states[j - 1 + 1] == Apply(cfg, states[j - 1], steps[j - 1]);
      FinishedRowKept(cfg, states[j - 1], steps[j - 1], id);
    }
  }

  /** With the table readable, a grant to a node comes at least the cooldown after every completion time that any
      of the node's rows ever carried. */
  lemma {:induction false} GrantsRespectCooldown(cfg: Config, states: seq<Sys>, steps: seq<Step>, i: nat, j: nat, id: LeaseId)
    requires Run(cfg, states, steps) && i <= j < |steps| && cfg.coordination.cooldown > 0
    requires steps[j].Serve? && steps[j].readable
    requires Grants(cfg, states[j], steps[j])
    requires FinishedRow(states[i], id) && states[i].ctl.rows[id].node == steps[j].req.node
    ensures states[i].ctl.rows[id].completedAt.Some?
    ensures states[j].now >= states[i].ctl.rows[id].completedAt.value + cfg.coordination.cooldown
  {
    FinishedRowPersists(cfg, states, steps, i, j, id);
    assert FinishedFor(states[j].ctl.rows[id], steps[j].req.node);
  }
}
