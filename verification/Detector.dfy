/** Status handling in pkg/detector/detector.go: blocked-status propagation along monitor dependencies,
    and the per-incident policy that decides which problem conditions dispatch a remediation. */
module Detector {
  import opened MonitorTypes
  import opened DependencyGraph
  import opened KahnSort

  const MONITOR_BLOCKED := "MonitorBlocked"

  type Index = map<string, MonitorConfig>
  type Statuses = map<string, Status>

  // ----- Blocked monitors -----

  predicate Blocking(c: Condition) {
    c.status == ConditionFalse || c.kind == MONITOR_BLOCKED
  }

  predicate Unhealthy(st: Status) {
    exists c :: c in st.conditions && Blocking(c)
  }

  predicate BlockedBy(last: Statuses, dep: string) {
    dep in last && Unhealthy(last[dep])
  }

  function DependsOn(index: Index, name: string): seq<string> {
    if name in index then index[name].dependsOn else []
  }

  predicate Blocked(index: Index, last: Statuses, name: string) {
    exists d :: d in DependsOn(index, name) && BlockedBy(last, d)
  }

  ghost predicate FirstBlocker(deps: seq<string>, last: Statuses, d: string) {
    exists i :: 0 <= i < |deps| && deps[i] == d && BlockedBy(last, d) && forall k :: 0 <= k < i ==> !BlockedBy(last, deps[k])
  }

  function SynthBlockedStatus(name: string): Status {
    Status(name, [Condition(MONITOR_BLOCKED, ConditionUnknown)])
  }

  function Effective(index: Index, last: Statuses, st: Status): Status {
    if Blocked(index, last, st.source) then SynthBlockedStatus(st.source) else st
  }

  // ----- Incidents -----

  /** Dispatch-policy state of one monitor/condition pair. `lastAttempt` survives the end of an incident. */
  datatype Incident = Incident(attempts: nat, lastAttempt: Option<nat>, skipLogged: bool)

  const NEW_INCIDENT := Incident(0, None, false)

  type Incidents = map<string, Incident>

  datatype Verdict = Dispatch | CapReached | InCooldown | PreconditionFailed

  /** Cap first, then cooldown, then preconditions. */
  function Admission(p: RemediationPolicy, inc: Incident, now: nat, holds: bool): Verdict {
    if p.maxAttemptsPerIncident > 0 && inc.attempts >= p.maxAttemptsPerIncident then CapReached
    else if p.cooldown > 0 && inc.lastAttempt.Some? && now - inc.lastAttempt.value < p.cooldown then InCooldown
    else if !holds then PreconditionFailed
    else Dispatch
  }

  function Admitted(p: RemediationPolicy, inc: Incident, now: nat, holds: bool): Incident {
    match Admission(p, inc, now, holds)
    case Dispatch => inc.(attempts := inc.attempts + 1, lastAttempt := Some(now))
    case PreconditionFailed => inc.(skipLogged := true)
    case _ => inc
  }

  function Ended(inc: Incident): Incident {
    inc.(attempts := 0, skipLogged := false)
  }

  function IncidentAt(incidents: Incidents, key: string): Incident {
    if key in incidents then incidents[key] else NEW_INCIDENT
  }

  datatype Trigger = Irrelevant | InProblemState | OutOfProblemState

  function RemediationTrigger(p: RemediationPolicy, c: Condition): Trigger {
    if p.triggerConditions == [] then
      if c.status == ConditionFalse then InProblemState else OutOfProblemState
    else if c.kind in p.triggerConditions then
      if c.status == ConditionTrue then InProblemState else OutOfProblemState
    else Irrelevant
  }

  function KeyOf(source: string, c: Condition): string {
    source + "/" + c.kind
  }

  /** What a triggered condition sees: the clock, and whether the remediation preconditions hold. */
  datatype Look = Look(now: nat, holds: bool)

  /** What condition `i` of a status sees. A remediation dispatched for an earlier one has run by then. */
  function LookAt(looks: seq<Look>, i: nat): Look {
    if i < |looks| then looks[i] else Look(0, false)
  }

  datatype Dispatched = Dispatched(key: string, at: nat)

  /** Incidents and dispatches after evaluating the conditions of one status. */
  function Evaluated(p: RemediationPolicy, source: string, conditions: seq<Condition>, incidents: Incidents,
                     looks: seq<Look>): (Incidents, seq<Dispatched>)
  {
    if conditions == [] then (incidents, [])
    else
      var (before, dispatched) := Evaluated(p, source, conditions[..|conditions| - 1], incidents, looks);
      var c := conditions[|conditions| - 1];
      var look := LookAt(looks, |conditions| - 1);
      var key := KeyOf(source, c);
      match RemediationTrigger(p, c)
      case Irrelevant => (before, dispatched)
      case OutOfProblemState => (if key in before then before[key := Ended(before[key])] else before, dispatched)
      case InProblemState =>
        var inc := IncidentAt(before, key);
        (before[key := Admitted(p, inc, look.now, look.holds)],
         if Admission(p, inc, look.now, look.holds) == Dispatch then dispatched + [Dispatched(key, look.now)] else dispatched)
  }

  // ----- The detector as a step system -----

  /** One report and what the detector sees while handling each of its conditions. */
  datatype Report = Report(status: Status, looks: seq<Look>)

  datatype State = State(last: Statuses, incidents: Incidents)

  function ActivePolicy(index: Index, name: string): Option<RemediationPolicy> {
    if name in index && index[name].remediation.Some?
       && index[name].remediation.value.enabled && index[name].remediation.value.strategies != []
    then index[name].remediation
    else None
  }

  /** processStatus with remediation wired and globally enabled. */
  function Handled(index: Index, s: State, r: Report): (State, seq<Dispatched>) {
    var st := Effective(index, s.last, r.status);
    var last := s.last[st.source := st];
    match ActivePolicy(index, st.source)
    case None => (State(last, s.incidents), [])
    case Some(p) =>
      var (incidents, dispatched) := Evaluated(p, st.source, st.conditions, s.incidents, r.looks);
      (State(last, incidents), dispatched)
  }

  /** State after a sequence of reports, and the dispatches of each. */
  function HandledAll(index: Index, s: State, reports: seq<Report>): (r: (State, seq<seq<Dispatched>>))
    ensures |r.1| == |reports|
  {
    if reports == [] then (s, [])
    else
      var (before, log) := HandledAll(index, s, reports[..|reports| - 1]);
      var (after, dispatched) := Handled(index, before, reports[|reports| - 1]);
      (after, log + [dispatched])
  }

  // ----- Propagation theorem -----

  predicate ShowsBlocked(st: Status) {
    exists c :: c in st.conditions && c.kind == MONITOR_BLOCKED
  }

  predicate ReportsFalse(st: Status) {
    exists c :: c in st.conditions && c.status == ConditionFalse
  }

  /** Some report among `reports` is from `name` and carries a False condition. */
  ghost predicate FalseFrom(reports: seq<Report>, name: string) {
    exists i :: 0 <= i < |reports| && reports[i].status.source == name && ReportsFalse(reports[i].status)
  }

  ghost predicate PathTo(g: Graph, w: seq<string>, a: string, b: string) {
    |w| >= 2 && w[0] == a && w[|w| - 1] == b && Walk(g, w)
  }

  ghost predicate TransitiveDependency(g: Graph, a: string, b: string) {
    exists w :: PathTo(g, w, a, b)
  }

  ghost predicate FailingUpstream(g: Graph, reports: seq<Report>, name: string) {
    exists d :: TransitiveDependency(g, name, d) && FalseFrom(reports, d)
  }

  /** One round of reports: every monitor of `order` once, in that order, with raw (unsynthesised) conditions. */
  ghost predicate Round(index: Index, order: seq<MonitorConfig>, reports: seq<Report>) {
    && UniqueNames(order) && InDependencyOrder(order) && DependenciesExist(order)
    && (forall m :: m in order ==> m.name in index && index[m.name] == m)
    && |reports| == |order|
    && (forall i :: 0 <= i < |order| ==> reports[i].status.source == order[i].name)
    && (forall i :: 0 <= i < |order| ==> !ShowsBlocked(reports[i].status))
  }

  lemma {:induction false} TransitiveStep(g: Graph, a: string, d: string, b: string)
    requires Edge(g, a, d) && (d == b || TransitiveDependency(g, d, b))
    ensures TransitiveDependency(g, a, b)
  {
    if d == b {
      assert PathTo(g, [a, d], a, b);
    } else {
      var w :| PathTo(g, w, d, b);
      var v := [a] + w;
      forall i | 0 <= i < |v| - 1 ensures Edge(g, v[i], v[i + 1]) {
        if i > 0 { assert Edge(g, w[i - 1], w[i - 1 + 1]); }
      }
      assert PathTo(g, v, a, b);
    }
  }

  lemma {:induction false} TransitiveFirst(g: Graph, a: string, b: string) returns (d: string)
    requires TransitiveDependency(g, a, b)
    ensures Edge(g, a, d) && (d == b || TransitiveDependency(g, d, b))
  {
    var w :| PathTo(g, w, a, b);
    assert Edge(g, w[0], w[0 + 1]);
    d := w[1];
    if |w| > 2 {
      SubwalkIsWalk(g, w, 1, |w|);
      assert PathTo(g, w[1..], d, b);
    }
  }

  /** A monitor has a failing transitive dependency iff a direct one failed or has one itself. */
  lemma {:induction false} FailingUpstreamStep(g: Graph, reports: seq<Report>, name: string)
    ensures FailingUpstream(g, reports, name) <==>
            exists d :: Edge(g, name, d) && (FalseFrom(reports, d) || FailingUpstream(g, reports, d))
  {
    if FailingUpstream(g, reports, name) {
      var b :| TransitiveDependency(g, name, b) && FalseFrom(reports, b);
      var d := TransitiveFirst(g, name, b);
      assert Edge(g, name, d) && (FalseFrom(reports, d) || FailingUpstream(g, reports, d));
    }
    if d :| Edge(g, name, d) && (FalseFrom(reports, d) || FailingUpstream(g, reports, d)) {
      var b :| (d == b || TransitiveDependency(g, d, b)) && FalseFrom(reports, b);
      TransitiveStep(g, name, d, b);
    }
  }

  /** After the first `k` reports of a round: each monitor that reported is cached as blocked iff it has a
      failing transitive dependency, and otherwise cached as reported. */
  ghost predicate Propagated(g: Graph, order: seq<MonitorConfig>, reports: seq<Report>, last: Statuses, k: nat)
  {
    k <= |order| == |reports| && forall j :: 0 <= j < k ==>
      && order[j].name in last
      && (ShowsBlocked(last[order[j].name]) <==> FailingUpstream(g, reports, order[j].name))
      && last[order[j].name] ==
         (if FailingUpstream(g, reports, order[j].name) then SynthBlockedStatus(order[j].name) else reports[j].status)
  }

  lemma {:induction false} BlockedIff(index: Index, order: seq<MonitorConfig>, reports: seq<Report>, last: Statuses, k: nat)
    requires Round(index, order, reports) && k < |order|
    requires Propagated(GraphOf(order), order, reports, last, k)
    ensures Blocked(index, last, order[k].name) <==> FailingUpstream(GraphOf(order), reports, order[k].name)
  {
    var g, name := GraphOf(order), order[k].name;
    GraphOfUnique(order);
    hide GraphOf, FailingUpstream, FalseFrom, BlockedBy;
    assert order[k] in order;
    forall d | d in order[k].dependsOn
      ensures BlockedBy(last, d) <==> FalseFrom(reports, d) || FailingUpstream(g, reports, d)
    {
      assert d in Names(order);
      var j :| 0 <= j < |order| && order[j].name == d;
    }
    FailingUpstreamStep(g, reports, name);
  }

  lemma {:induction false} PropagateOne(index: Index, order: seq<MonitorConfig>, reports: seq<Report>, s: State, k: nat)
    requires Round(index, order, reports) && k < |order|
    requires Propagated(GraphOf(order), order, reports, s.last, k)
    ensures Propagated(GraphOf(order), order, reports, Handled(index, s, reports[k]).0.last, k + 1)
  {
    var g, name := GraphOf(order), order[k].name;
    var last' := Handled(index, s, reports[k]).0.last;
    BlockedIff(index, order, reports, s.last, k);
    assert last' == s.last[name := Effective(index, s.last, reports[k].status)];
    hide GraphOf, FailingUpstream, Blocked;
    forall j | 0 <= j < k ensures last'[order[j].name] == s.last[order[j].name] {
      assert order[j].name != name;
    }
    assert SynthBlockedStatus(name).conditions[0] in SynthBlockedStatus(name).conditions;
    assert ShowsBlocked(SynthBlockedStatus(name));
  }

  /** A blocked status never dispatches, whatever the trigger rule. */
  lemma {:induction false} BlockedNeverDispatches(p: RemediationPolicy, name: string, incidents: Incidents, looks: seq<Look>)
    ensures Evaluated(p, name, SynthBlockedStatus(name).conditions, incidents, looks).1 == []
  {
    var conditions := SynthBlockedStatus(name).conditions;
    assert conditions[..0] == [];
    assert Evaluated(p, name, conditions[..0], incidents, looks).1 == [];
  }

  /** When every monitor of an acyclic graph reports once in dependency order, from any cached state, a
      monitor's effective status is "blocked" iff some transitive dependency reported a False condition,
      and no blocked monitor dispatches. */
  lemma {:induction false} RoundPropagates(index: Index, order: seq<MonitorConfig>, reports: seq<Report>, s: State, k: nat)
    requires Round(index, order, reports) && k <= |order|
    ensures var (after, log) := HandledAll(index, s, reports[..k]);
            && Propagated(GraphOf(order), order, reports, after.last, k)
            && forall j :: 0 <= j < k && FailingUpstream(GraphOf(order), reports, order[j].name) ==> log[j] == []
  {
    if k > 0 {
      RoundPropagates(index, order, reports, s, k - 1);
      assert reports[..k][..k - 1] == reports[..k - 1];
      var (before, log) := HandledAll(index, s, reports[..k - 1]);
      PropagateOne(index, order, reports, before, k - 1);
      BlockedIff(index, order, reports, before.last, k - 1);
      var name := order[k - 1].name;
      if FailingUpstream(GraphOf(order), reports, name) && ActivePolicy(index, name).Some? {
        BlockedNeverDispatches(ActivePolicy(index, name).value, name, before.incidents, reports[k - 1].looks);
      }
    }
  }

  // ----- Incident policy over whole runs -----

  /** One evaluation of a condition: in its problem state at a time, with preconditions holding or not,
      or out of its problem state. */
  datatype Check = Triggered(now: nat, holds: bool) | Cleared

  function Checked(p: RemediationPolicy, inc: Incident, c: Check): Incident {
    match c
    case Triggered(now, holds) => Admitted(p, inc, now, holds)
    case Cleared => Ended(inc)
  }

  function CheckedAll(p: RemediationPolicy, inc: Incident, checks: seq<Check>): Incident {
    if checks == [] then inc
    else Checked(p, CheckedAll(p, inc, checks[..|checks| - 1]), checks[|checks| - 1])
  }

  predicate Dispatches(p: RemediationPolicy, inc: Incident, c: Check) {
    c.Triggered? && Admission(p, inc, c.now, c.holds) == Dispatch
  }

  /** When these checks of one key dispatch, starting from the incident `inc`. */
  function DispatchTimes(p: RemediationPolicy, inc: Incident, checks: seq<Check>): (times: seq<nat>)
  {
    if checks == [] then []
    else
      var front, c := checks[..|checks| - 1], checks[|checks| - 1];
      DispatchTimes(p, inc, front) + if Dispatches(p, CheckedAll(p, inc, front), c) then [c.now] else []
  }

  ghost predicate ClockMonotone(checks: seq<Check>) {
    forall i, j :: 0 <= i < j < |checks| && checks[i].Triggered? && checks[j].Triggered? ==> checks[i].now <= checks[j].now
  }

  ghost predicate AllTriggered(checks: seq<Check>) {
    forall i :: 0 <= i < |checks| ==> checks[i].Triggered?
  }

  /** While an incident lasts, the attempt counter grows by exactly its dispatches: a refused check uses none. */
  lemma {:induction false} AttemptsCountDispatches(p: RemediationPolicy, inc: Incident, checks: seq<Check>)
    requires AllTriggered(checks)
    ensures CheckedAll(p, inc, checks).attempts == inc.attempts + |DispatchTimes(p, inc, checks)|
    decreases |checks|
  {
    if checks != [] { AttemptsCountDispatches(p, inc, checks[..|checks| - 1]); }
  }

  lemma {:induction false} AttemptsWithinCap(p: RemediationPolicy, inc: Incident, checks: seq<Check>)
    requires p.maxAttemptsPerIncident > 0 && inc.attempts <= p.maxAttemptsPerIncident
    ensures CheckedAll(p, inc, checks).attempts <= p.maxAttemptsPerIncident
    decreases |checks|
  {
    if checks != [] { AttemptsWithinCap(p, inc, checks[..|checks| - 1]); }
  }

  /** Between two incident ends, whatever came before, there are at most maxAttemptsPerIncident dispatches. */
  lemma {:induction false} IncidentDispatchesCapped(p: RemediationPolicy, before: seq<Check>, checks: seq<Check>)
    requires AllTriggered(checks) && p.maxAttemptsPerIncident > 0
    ensures |DispatchTimes(p, CheckedAll(p, NEW_INCIDENT, before), checks)| <= p.maxAttemptsPerIncident
  {
    var inc := CheckedAll(p, NEW_INCIDENT, before);
    AttemptsWithinCap(p, NEW_INCIDENT, before);
    AttemptsCountDispatches(p, inc, checks);
    AttemptsWithinCap(p, inc, checks);
  }

  ghost predicate OrderedUpTo(times: seq<nat>, bound: nat) {
    (forall i :: 0 <= i < |times| ==> times[i] <= bound) && forall i, j :: 0 <= i < j < |times| ==> times[i] <= times[j]
  }

  /** Dispatches are in order, and none is later than the last triggered check. */
  lemma {:induction false} DispatchesOrdered(p: RemediationPolicy, inc: Incident, checks: seq<Check>, bound: nat)
    requires ClockMonotone(checks) && forall i :: 0 <= i < |checks| && checks[i].Triggered? ==> checks[i].now <= bound
    ensures OrderedUpTo(DispatchTimes(p, inc, checks), bound)
    decreases |checks|
  {
    if checks != [] {
      var front, c := checks[..|checks| - 1], checks[|checks| - 1];
      var low := if c.Triggered? then c.now else bound;
      DispatchesOrdered(p, inc, front, low);
      OrderedAppend(DispatchTimes(p, inc, front), low, if Dispatches(p, CheckedAll(p, inc, front), c) then [c.now] else [], bound);
    }
  }

  lemma {:induction false} OrderedAppend(times: seq<nat>, low: nat, more: seq<nat>, bound: nat)
    requires OrderedUpTo(times, low) && low <= bound && (more == [] || more == [low])
    ensures OrderedUpTo(times + more, bound)
  {
  }

  /** `lastAttempt` is the latest dispatch, whatever ends or starts after it. */
  lemma {:induction false} LastAttemptRemembered(p: RemediationPolicy, inc: Incident, checks: seq<Check>)
    ensures var times := DispatchTimes(p, inc, checks);
            CheckedAll(p, inc, checks).lastAttempt == if times == [] then inc.lastAttempt else Some(times[|times| - 1])
    decreases |checks|
  {
    if checks != [] { LastAttemptRemembered(p, inc, checks[..|checks| - 1]); }
  }

  /** Two dispatches of one key are at least the cooldown apart, also across incidents. */
  lemma {:induction false} DispatchesSpaced(p: RemediationPolicy, inc: Incident, checks: seq<Check>, i: nat, j: nat)
    requires ClockMonotone(checks) && i < j < |DispatchTimes(p, inc, checks)|
    ensures DispatchTimes(p, inc, checks)[j] - DispatchTimes(p, inc, checks)[i] >= p.cooldown
    decreases |checks|
  {
    var front := checks[..|checks| - 1];
    var times := DispatchTimes(p, inc, front);
    LastAttemptRemembered(p, inc, front);
    if j < |times| {
      DispatchesSpaced(p, inc, front, i, j);
    } else {
      DispatchesOrdered(p, inc, front, checks[|checks| - 1].now);
    }
  }

  // ----- The detector object -----

  class ProblemDetector {
    var monitorConfigIndex: Index
    var lastStatus: Statuses
    var incidents: Incidents

    ghost function Model(): State reads this {
      State(lastStatus, incidents)
    }

    constructor (index: Index)
      ensures monitorConfigIndex == index && Model() == State(map[], map[])
    {
      monitorConfigIndex, lastStatus, incidents := index, map[], map[];
    }

    /** The first declared dependency that is cached as failing or blocked. */
    method IsMonitorBlocked(name: string) returns (blocked: bool, blockedBy: string)
      ensures blocked <==> Blocked(monitorConfigIndex, lastStatus, name)
      ensures blocked ==> FirstBlocker(DependsOn(monitorConfigIndex, name), lastStatus, blockedBy)
    {
      var deps := DependsOn(monitorConfigIndex, name);
      for i := 0 to |deps|
        invariant forall k :: 0 <= k < i ==> !BlockedBy(lastStatus, deps[k])
      {
        if deps[i] in lastStatus {
          var conditions := lastStatus[deps[i]].conditions;
          for j := 0 to |conditions|
            invariant forall k :: 0 <= k < j ==> !Blocking(conditions[k])
          {
            if conditions[j].status == ConditionFalse || conditions[j].kind == MONITOR_BLOCKED {
              assert conditions[j] in lastStatus[deps[i]].conditions;
              assert deps[i] in deps && BlockedBy(lastStatus, deps[i]);
              return true, deps[i];
            }
          }
        }
      }
      return false, "";
    }

    method EndIncident(key: string)
      modifies this`incidents
      ensures incidents == if key in old(incidents)
                           then old(incidents)[key := Ended(old(incidents)[key])] else old(incidents)
    {
      if key in incidents {
        incidents := incidents[key := incidents[key].(attempts := 0, skipLogged := false)];
      }
    }

    method AdmitRemediation(key: string, p: RemediationPolicy, now: nat, holds: bool) returns (ok: bool)
      modifies this`incidents
      ensures ok <==> Admission(p, IncidentAt(old(incidents), key), now, holds) == Dispatch
      ensures incidents == old(incidents)[key := Admitted(p, IncidentAt(old(incidents), key), now, holds)]
    {
      if key !in incidents {
        incidents := incidents[key := NEW_INCIDENT];
      }
      var inc := incidents[key];
      if p.maxAttemptsPerIncident > 0 && inc.attempts >= p.maxAttemptsPerIncident {
        return false;
      }
      if p.cooldown > 0 && inc.lastAttempt.Some? && now - inc.lastAttempt.value < p.cooldown {
        return false;
      }
      if !holds {
        if !inc.skipLogged {
          incidents := incidents[key := inc.(skipLogged := true)];
        }
        return false;
      }
      incidents := incidents[key := inc.(attempts := inc.attempts + 1, lastAttempt := Some(now))];
      return true;
    }

    /** Every condition is admitted on its own reading of the clock and of the preconditions. */
    method EvaluateRemediation(st: Status, p: RemediationPolicy, looks: seq<Look>) returns (dispatched: seq<Dispatched>)
      modifies this`incidents
      ensures (incidents, dispatched) == Evaluated(p, st.source, st.conditions, old(incidents), looks)
    {
      dispatched := [];
      for i := 0 to |st.conditions|
        invariant (incidents, dispatched) == Evaluated(p, st.source, st.conditions[..i], old(incidents), looks)
      {
        assert st.conditions[..i + 1][..i] == st.conditions[..i];
        var c := st.conditions[i];
        var key := KeyOf(st.source, c);
        match RemediationTrigger(p, c)
        case Irrelevant =>
        case OutOfProblemState =>
          EndIncident(key);
        case InProblemState =>
          var look := LookAt(looks, i);
          var ok := AdmitRemediation(key, p, look.now, look.holds);
          if ok {
            dispatched := dispatched + [Dispatched(key, look.now)];
          }
      }
      assert st.conditions[..|st.conditions|] == st.conditions;
    }

    method ProcessStatus(r: Report) returns (dispatched: seq<Dispatched>)
      modifies this`lastStatus, this`incidents
      ensures (Model(), dispatched) == Handled(monitorConfigIndex, old(Model()), r)
    {
      var st := r.status;
      var blocked, blockedBy := IsMonitorBlocked(st.source);
      if blocked {
        st := SynthBlockedStatus(st.source);
      }
      lastStatus := lastStatus[st.source := st];
      match ActivePolicy(monitorConfigIndex, st.source)
      case None =>
        dispatched := [];
      case Some(p) =>
        dispatched := EvaluateRemediation(st, p, r.looks);
    }
  }
}
