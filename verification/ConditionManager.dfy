/** The batching cache over the Node object: pkg/exporters/kubernetes/condition_manager.go. */
module ConditionManager {
  import opened MonitorTypes
  import opened NodeConditions

  datatype Settings = Settings(staleTTL: nat, startTime: int, custom: seq<NodeCondition>)

  datatype Manager = Manager(conditions: Conditions, pendingUpdates: Conditions, pendingRemovals: set<string>,
                             lastRefreshed: map<string, int>)

  /** While the status is unchanged a report keeps the earlier transition time. */
  function Carried(m: Manager, c: NodeCondition): NodeCondition {
    if c.kind in m.conditions && m.conditions[c.kind].status == c.status && m.conditions[c.kind].transition != 0
    then c.(transition := m.conditions[c.kind].transition) else c
  }

  predicate Unchanged(m: Manager, c: NodeCondition) {
    c.kind in m.conditions && SameCondition(m.conditions[c.kind], c)
  }

  function Queued(m: Manager, c: NodeCondition, now: int): Manager {
    m.(pendingUpdates := m.pendingUpdates[c.kind := c], lastRefreshed := m.lastRefreshed[c.kind := now])
  }

  function Updated(m: Manager, c: NodeCondition, now: int): Manager {
    if Unchanged(m, c) then m.(lastRefreshed := m.lastRefreshed[c.kind := now]) else Queued(m, Carried(m, c), now)
  }

  function QueuedAll(m: Manager, cs: seq<NodeCondition>, now: int): Manager {
    if cs == [] then m else Queued(QueuedAll(m, cs[..|cs| - 1], now), cs[|cs| - 1], now)
  }

  function Heartbeat(now: int, message: string): NodeCondition {
    NodeCondition(HEARTBEAT, ConditionTrue, now, "Heartbeat", message)
  }

  function Removed(m: Manager, kind: string): Manager {
    m.(conditions := m.conditions - {kind}, pendingUpdates := m.pendingUpdates - {kind},
       pendingRemovals := m.pendingRemovals + {kind})
  }

  function Resynced(m: Manager, snapshot: Conditions): Manager {
    m.(conditions := snapshot)
  }

  const RETIRED := {"NodeDoctorClusterDNSHealthy", "NodeDoctorNetworkReachable",
                    "NodeDoctorDNSResolutionConsistent", "NodeDoctorCustomDNSHealthy"}

  const MANAGED_PREFIXES := ["NodeDoctor", "CPUPressure", "NetworkUnreachable", "DNSResolutionFailed", "GatewayUnreachable",
                             "CNI", "HighCPULoad", "HighMemory", "HighDiskUsage", "HighInodeUsage", "ReadOnlyFilesystem",
                             "OOMKillsDetected"]

  /** The start-up sync: load the node, queue missing custom conditions (without marking them refreshed), and
      schedule the retired ones found for removal. */
  function Synced(m: Manager, custom: seq<NodeCondition>, node: Conditions): Manager {
    var loaded := m.conditions + node;
    RemovedAll(m.(conditions := loaded, pendingUpdates := WithMissing(m.pendingUpdates, custom, loaded)), RETIRED * loaded.Keys)
  }

  function RemovedAll(m: Manager, gone: set<string>): Manager {
    Manager(m.conditions - gone, m.pendingUpdates - gone, m.pendingRemovals + gone, m.lastRefreshed)
  }

  lemma {:induction false} RemoveOneMore(m: Manager, done: set<string>, k: string)
    requires k !in done
    ensures var part := RemovedAll(m, done * m.conditions.Keys);
            && (k in part.conditions <==> k in m.conditions)
            && RemovedAll(m, (done + {k}) * m.conditions.Keys) ==
               if k in m.conditions
               then Removed(part, k)
               else part
  {
    assert (done + {k}) * m.conditions.Keys ==
           if k in m.conditions then done * m.conditions.Keys + {k} else done * m.conditions.Keys;
  }

  function WithMissing(pending: Conditions, custom: seq<NodeCondition>, loaded: Conditions): Conditions {
    if custom == [] then pending
    else
      var before := WithMissing(pending, custom[..|custom| - 1], loaded);
      var c := custom[|custom| - 1];
      if c.kind in loaded then before else before[c.kind := c]
  }

  predicate IsManaged(kind: string) {
    kind != HEARTBEAT && exists p :: p in MANAGED_PREFIXES && p <= kind
  }

  function Cleared(m: Manager): Manager {
    var gone := set k | k in m.conditions && IsManaged(k);
    m.(conditions := m.conditions - gone, pendingUpdates := m.pendingUpdates - gone)
  }

  // ----- Expiry and flush -----

  function RefreshedAt(m: Manager, start: int, kind: string): int {
    if kind in m.lastRefreshed then m.lastRefreshed[kind] else start
  }

  predicate IsStale(m: Manager, st: Settings, now: int, kind: string) {
    kind in m.conditions && kind != HEARTBEAT && Owned(kind) && now - RefreshedAt(m, st.startTime, kind) > st.staleTTL
  }

  function StaleKinds(m: Manager, st: Settings, now: int): set<string> {
    set k | k in m.conditions && IsStale(m, st, now, k)
  }

  function Expired(m: Manager, stale: set<string>): Manager {
    Manager(m.conditions - stale, m.pendingUpdates, m.pendingRemovals + stale, m.lastRefreshed - stale)
  }

  /** What a flush sends: the owned part of the cache, overridden by the owned pending updates. */
  function PatchOf(m: Manager): Conditions {
    OwnedPart(m.conditions) + OwnedPart(m.pendingUpdates)
  }

  /** The removal half of a flush. */
  function AfterRemovals(m: Manager, node: Conditions, api: Api): (Manager, Conditions) {
    if m.pendingRemovals == {} then (m, node)
    else (if RemoveOk(m.pendingRemovals, api) then m.(pendingRemovals := {}) else m,
          AfterRemove(node, m.pendingRemovals, api))
  }

  /** The update half of a flush. */
  function AfterUpdates(m: Manager, node: Conditions, api: Api): (Manager, Conditions) {
    if m.pendingUpdates == map[] then (m, node)
    else (if api == Done || PatchOf(m) == map[]
          then m.(conditions := m.conditions + m.pendingUpdates, pendingUpdates := map[]) else m,
          AfterPatch(node, PatchOf(m), api))
  }

  function Flushed(m: Manager, st: Settings, now: int, node: Conditions, removal: Api, patch: Api): (Manager, Conditions) {
    var (m1, node1) := AfterRemovals(Expired(m, StaleKinds(m, st, now)), node, removal);
    AfterUpdates(m1, node1, patch)
  }

  predicate RemovalsOk(m: Manager, api: Api) {
    m.pendingRemovals == {} || RemoveOk(m.pendingRemovals, api)
  }

  /** An empty patch is not sent. */
  predicate UpdatesOk(m: Manager, api: Api) {
    m.pendingUpdates == map[] || api == Done || PatchOf(m) == map[]
  }

  /** Whether a flush reports success: neither of the calls it makes fails. */
  predicate FlushOk(m: Manager, st: Settings, now: int, removal: Api, patch: Api) {
    var expired := Expired(m, StaleKinds(m, st, now));
    RemovalsOk(expired, removal) && UpdatesOk(expired, patch)
  }

  // ----- The agent and the node as a step system -----

  /** `snapshot` is a resync whose read is done and whose cache update is still to come; `reported` is the
      history of when each type was last reported or queued. */
  datatype Sys = Sys(now: int, m: Manager, node: Conditions, snapshot: Option<Conditions>, reported: map<string, int>)

  datatype Step =
    | Report(kind: string, status: ConditionStatus, transition: int, reason: string, message: string)
    | Problem(c: NodeCondition)
    | AddCustom
    | SendHeartbeat(message: string)
    | Remove(kind: string)
    | InitialSync
    | ClearManaged
    | FetchNode
    | Resync
    | Flush(removal: Api, patch: Api)
    | External(kind: string, value: Option<NodeCondition>)   // another writer sets or deletes a condition
    | Tick(t: nat)

  function Reporting(s: Sys, m: Manager, kinds: set<string>): Sys {
    s.(m := m, reported := map k | k in s.reported.Keys + kinds :: if k in kinds then s.now else s.reported[k])
  }

  function Kinds(cs: seq<NodeCondition>): set<string> {
    set c | c in cs :: c.kind
  }

  function Apply(st: Settings, s: Sys, step: Step): Sys {
    match step
    case Report(kind, status, transition, reason, message) =>
      var c := NodeCondition(ConditionType(kind), status, transition, reason, message);
      Reporting(s, Updated(s.m, c, s.now), {c.kind})
    case Problem(c) => Reporting(s, Queued(s.m, c, s.now), {c.kind})
    case AddCustom => Reporting(s, QueuedAll(s.m, st.custom, s.now), Kinds(st.custom))
    case SendHeartbeat(message) => Reporting(s, Queued(s.m, Heartbeat(s.now, message), s.now), {HEARTBEAT})
    case Remove(kind) => s.(m := Removed(s.m, kind))
    case InitialSync => s.(m := Synced(s.m, st.custom, s.node))
    case ClearManaged => s.(m := Cleared(s.m))
    case FetchNode => s.(snapshot := Some(s.node))
    case Resync => if s.snapshot.Some? then s.(m := Resynced(s.m, s.snapshot.value), snapshot := None) else s
    case Flush(removal, patch) =>
      var (m, node) := Flushed(s.m, st, s.now, s.node, removal, patch);
      s.(m := m, node := node)
    case External(kind, value) => s.(node := if value.Some? then s.node[kind := value.value] else s.node - {kind})
    case Tick(t) => s.(now := s.now + t)
  }

  function AfterAll(st: Settings, s: Sys, steps: seq<Step>): Sys {
    if steps == [] then s else Apply(st, AfterAll(st, s, steps[..|steps| - 1]), steps[|steps| - 1])
  }

  /** A freshly started agent over any node; `conditions` may already hold what it loaded. */
  ghost predicate Starting(st: Settings, s: Sys) {
    s.now == st.startTime && s.m.lastRefreshed == map[] && s.reported == map[]
  }

  // ----- Ownership: foreign conditions are never touched -----

  /** What the other writers alone would have made of the node. */
  function OthersOnly(node: Conditions, steps: seq<Step>): Conditions {
    if steps == [] then node
    else
      var before := OthersOnly(node, steps[..|steps| - 1]);
      match steps[|steps| - 1]
      case External(kind, value) => if value.Some? then before[kind := value.value] else before - {kind}
      case _ => before
  }

  lemma {:induction false} FlushKeepsForeign(m: Manager, st: Settings, now: int, node: Conditions, removal: Api, patch: Api)
    ensures ForeignPart(Flushed(m, st, now, node, removal, patch).1) == ForeignPart(node)
  {
    hide Owned, StaleKinds, RemoveOk;
    var m0 := Expired(m, StaleKinds(m, st, now));
    var (m1, node1) := AfterRemovals(m0, node, removal);
    assert ForeignPart(node1) == ForeignPart(node);
    assert ForeignPart(AfterPatch(node1, PatchOf(m1), patch)) == ForeignPart(node1);
  }

  /** Over every run, with either API call failing or its reply lost, the node's foreign conditions are exactly
      what the other writers made them: the agent adds, changes and removes none, although its cache holds them. */
  lemma {:induction false} ForeignConditionsUntouched(st: Settings, s: Sys, steps: seq<Step>)
    ensures ForeignPart(AfterAll(st, s, steps).node) == ForeignPart(OthersOnly(s.node, steps))
    decreases |steps|
  {
    if steps != [] {
      var front, last := steps[..|steps| - 1], steps[|steps| - 1];
      ForeignConditionsUntouched(st, s, front);
      var b := AfterAll(st, s, front);
      var others := OthersOnly(s.node, front);
      match last
      case Flush(removal, patch) => FlushKeepsForeign(b.m, st, b.now, b.node, removal, patch);
      case External(kind, value) => ForeignWrite(b.node, others, kind, value);
      case _ =>
    }
  }

  lemma {:induction false} ForeignWrite(a: Conditions, b: Conditions, kind: string, value: Option<NodeCondition>)
    requires ForeignPart(a) == ForeignPart(b)
    ensures value.Some? ==> ForeignPart(a[kind := value.value]) == ForeignPart(b[kind := value.value])
    ensures ForeignPart(a - {kind}) == ForeignPart(b - {kind})
  {
    hide Owned;
    forall k ensures k in a && !Owned(k) <==> k in b && !Owned(k) {
      assert k in ForeignPart(a) <==> k in ForeignPart(b);
    }
    forall k | k in a && !Owned(k) ensures a[k] == b[k] {
      assert ForeignPart(a)[k] == ForeignPart(b)[k];
    }
  }

  // ----- Staleness: expiry follows the reports -----

  function LastReport(s: Sys, start: int, kind: string): int {
    if kind in s.reported then s.reported[kind] else start
  }

  /** The refresh map remembers the last report of every type, except those already expired since. */
  ghost predicate Remembers(st: Settings, s: Sys) {
    && st.startTime <= s.now
    && (forall k :: k in s.reported ==> st.startTime <= s.reported[k] <= s.now)
    && (forall k :: k in s.m.lastRefreshed ==> k in s.reported && s.reported[k] == s.m.lastRefreshed[k])
    && (forall k :: k in s.reported && k !in s.m.lastRefreshed ==> s.now - s.reported[k] > st.staleTTL)
  }

  /** The refresh times after these types were reported. */
  function Refreshed(times: map<string, int>, kinds: set<string>, now: int): map<string, int> {
    map k | k in times.Keys + kinds :: if k in kinds then now else times[k]
  }

  lemma {:induction false} RefreshedMore(times: map<string, int>, kinds: set<string>, k: string, now: int)
    ensures Refreshed(times, kinds + {k}, now) == Refreshed(times, kinds, now)[k := now]
    ensures Refreshed(times, {}, now) == times
  {
  }

  lemma {:induction false} QueuedAllRefreshes(m: Manager, cs: seq<NodeCondition>, now: int)
    ensures QueuedAll(m, cs, now).lastRefreshed == Refreshed(m.lastRefreshed, Kinds(cs), now)
    decreases |cs|
  {
    hide Refreshed;
    if cs == [] {
      RefreshedMore(m.lastRefreshed, {}, "", now);
      assert Kinds(cs) == {};
    } else {
      var front, last := cs[..|cs| - 1], cs[|cs| - 1];
      assert cs == front + [last];
      QueuedAllRefreshes(m, front, now);
      assert Kinds(cs) == Kinds(front) + {last.kind};
      RefreshedMore(m.lastRefreshed, Kinds(front), last.kind, now);
    }
  }

  lemma {:induction false} FlushForgets(m: Manager, st: Settings, now: int, node: Conditions, removal: Api, patch: Api)
    ensures Flushed(m, st, now, node, removal, patch).0.lastRefreshed == m.lastRefreshed - StaleKinds(m, st, now)
  {
    hide RemoveOk, PatchOf, AfterRemove, AfterPatch, StaleKinds;
  }

  lemma {:induction false} RemembersFlush(st: Settings, s: Sys, removal: Api, patch: Api)
    requires Remembers(st, s)
    ensures Remembers(st, Apply(st, s, Flush(removal, patch)))
  {
    var stale := StaleKinds(s.m, st, s.now);
    FlushForgets(s.m, st, s.now, s.node, removal, patch);
    hide Flushed, Owned;
    assert forall k :: k in stale ==> s.now - RefreshedAt(s.m, st.startTime, k) > st.staleTTL;
  }

  lemma {:induction false} RemembersStep(st: Settings, s: Sys, step: Step)
    requires Remembers(st, s)
    ensures Remembers(st, Apply(st, s, step))
  {
    match step
    case Report(kind, status, transition, reason, message) =>
      var c := NodeCondition(ConditionType(kind), status, transition, reason, message);
      assert Carried(s.m, c).kind == c.kind;
      hide ConditionType, SameCondition, Carried;
    case AddCustom =>
      QueuedAllRefreshes(s.m, st.custom, s.now);
    case Flush(removal, patch) => RemembersFlush(st, s, removal, patch);
    case _ =>
  }

  lemma {:induction false} RunRemembers(st: Settings, s: Sys, steps: seq<Step>)
    requires Starting(st, s)
    ensures Remembers(st, AfterAll(st, s, steps))
    decreases |steps|
  {
    if steps != [] {
      RunRemembers(st, s, steps[..|steps| - 1]);
      hide Apply, Remembers;
      RemembersStep(st, AfterAll(st, s, steps[..|steps| - 1]), steps[|steps| - 1]);
    }
  }

  /** In every reachable state, a cached owned condition other than the heartbeat is expired by a flush exactly when
      more than the TTL has passed since its last report (or since start, if never reported). So a condition
      re-reported at gaps of at most the TTL is never expired, whatever resyncs happen in between. */
  lemma {:induction false} ExpiredIffUnreported(st: Settings, s: Sys, steps: seq<Step>, kind: string)
    requires Starting(st, s)
    ensures var t := AfterAll(st, s, steps);
            kind in StaleKinds(t.m, st, t.now) <==>
              kind in t.m.conditions && kind != HEARTBEAT && Owned(kind) && t.now - LastReport(t, st.startTime, kind) > st.staleTTL
  {
    RunRemembers(st, s, steps);
    hide AfterAll, Owned;
  }

  // ----- What a successful flush leaves on the node -----

  /** The fate of one owned type under a flush whose two calls succeed. */
  function FlushedValue(m: Manager, st: Settings, now: int, node: Conditions, kind: string): Option<NodeCondition> {
    var stale := IsStale(m, st, now, kind);
    if kind in m.pendingUpdates then Some(m.pendingUpdates[kind])
    else if m.pendingUpdates != map[] && kind in m.conditions && !stale then Some(m.conditions[kind])
    else if kind in m.pendingRemovals || stale then None
    else if kind in node then Some(node[kind])
    else None
  }

  function ValueAt(node: Conditions, kind: string): Option<NodeCondition> {
    if kind in node then Some(node[kind]) else None
  }

  lemma {:induction false} FlushOutcome(m: Manager, st: Settings, now: int, node: Conditions, kind: string)
    requires Owned(kind)
    ensures ValueAt(Flushed(m, st, now, node, Done, Done).1, kind) == FlushedValue(m, st, now, node, kind)
  {
    hide Owned, RefreshedAt;
    var m0 := Expired(m, StaleKinds(m, st, now));
    var (m1, node1) := AfterRemovals(m0, node, Done);
    assert kind in StaleKinds(m, st, now) <==> IsStale(m, st, now, kind);
    assert ValueAt(node1, kind) == if kind in m0.pendingRemovals then None else ValueAt(node, kind);
    assert PatchOf(m1) == PatchOf(m0);
    assert ValueAt(PatchOf(m0), kind) ==
           if kind in m.pendingUpdates then Some(m.pendingUpdates[kind]) else ValueAt(m0.conditions, kind);
  }

  /** After a flush whose two calls succeed, no stale condition without a pending update is left on the node. */
  lemma {:induction false} FlushClearsStale(m: Manager, st: Settings, now: int, node: Conditions, kind: string)
    requires IsStale(m, st, now, kind) && kind !in m.pendingUpdates
    ensures kind !in Flushed(m, st, now, node, Done, Done).1
  {
    FlushOutcome(m, st, now, node, kind);
    hide Flushed;
  }

  /** A requested removal takes effect at a successful flush exactly when the type has no pending update and is not
      in the cache (where a resync may have put it back) while other updates are pending. */
  lemma {:induction false} RemovalSticksIff(m: Manager, st: Settings, now: int, node: Conditions, kind: string)
    requires Owned(kind) && kind in m.pendingRemovals
    ensures kind !in Flushed(m, st, now, node, Done, Done).1 <==>
              kind !in m.pendingUpdates && (m.pendingUpdates != map[] && kind in m.conditions ==> IsStale(m, st, now, kind))
  {
    FlushOutcome(m, st, now, node, kind);
    hide Flushed, Owned, IsStale;
  }

  /** A removal request followed by a resync and a heartbeat is undone by the very flush that carries it out. */
  lemma {:induction false} ResyncUndoesRemoval(m: Manager, st: Settings, now: int, node: Conditions, kind: string)
    requires Owned(kind) && kind != HEARTBEAT && kind in node && now - RefreshedAt(m, st.startTime, kind) <= st.staleTTL
    ensures var requested := Removed(m, kind);
            var queued := Queued(Resynced(requested, node), Heartbeat(now, ""), now);
            kind in Flushed(queued, st, now, node, Done, Done).1
  {
    var queued := Queued(Resynced(Removed(m, kind), node), Heartbeat(now, ""), now);
    assert HEARTBEAT in queued.pendingUpdates;
    RemovalSticksIff(queued, st, now, node, kind);
    hide Flushed, Owned;
  }

  /** A report followed at once by a successful flush shows on the node exactly when it differed from the cached value,
      or the value already pending says the same, or nothing is pending for it and the node gets or keeps the same. */
  lemma {:induction false} LastReportWinsIff(m: Manager, st: Settings, now: int, node: Conditions, c: NodeCondition)
    requires Owned(c.kind)
    ensures var (m', node') := Flushed(Updated(m, c, now), st, now, node, Done, Done);
            (c.kind in node' && SameCondition(node'[c.kind], c)) <==>
              || !(c.kind in m.conditions && SameCondition(m.conditions[c.kind], c))
              || (c.kind in m.pendingUpdates && SameCondition(m.pendingUpdates[c.kind], c))
              || (c.kind !in m.pendingUpdates && m.pendingUpdates != map[])
              || (m.pendingUpdates == map[] && c.kind !in m.pendingRemovals && c.kind in node && SameCondition(node[c.kind], c))
  {
    FlushOutcome(Updated(m, c, now), st, now, node, c.kind);
    hide Flushed, Owned;
  }

  /** Reporting B over a flushed A and then A again, before the next flush, leaves B on the node. */
  lemma {:induction false} LastReportMayLose(a: NodeCondition, b: NodeCondition, st: Settings, now: int)
    requires a.kind == b.kind && Owned(a.kind) && !SameCondition(a, b)
    ensures var m0 := Manager(map[a.kind := a], map[], {}, map[]);
            var m2 := Updated(Updated(m0, b, now), a, now);
            var node' := Flushed(m2, st, now, map[a.kind := a], Done, Done).1;
            a.kind in node' && SameCondition(node'[a.kind], b)
  {
    var m1 := Updated(Manager(map[a.kind := a], map[], {}, map[]), b, now);
    var m2 := Updated(m1, a, now);
    assert Unchanged(m1, a) && m2.pendingUpdates == m1.pendingUpdates;
    FlushOutcome(m2, st, now, map[a.kind := a], a.kind);
    hide Flushed, Owned;
  }

  // ----- The manager object -----

  class ConditionManager {
    const settings: Settings
    const client: K8sClient
    var conditions: Conditions
    var pendingUpdates: Conditions
    var pendingRemovals: set<string>
    var lastRefreshed: map<string, int>

    ghost function Model(): Manager reads this {
      Manager(conditions, pendingUpdates, pendingRemovals, lastRefreshed)
    }

    constructor (settings: Settings, client: K8sClient)
      ensures this.settings == settings && this.client == client && Model() == Manager(map[], map[], {}, map[])
    {
      this.settings, this.client := settings, client;
      conditions, pendingUpdates, pendingRemovals, lastRefreshed := map[], map[], {}, map[];
    }

    method UpdateCondition(c: NodeCondition, now: int)
      modifies this
      ensures Model() == Updated(old(Model()), c, now)
    {
      var update := c;
      if c.kind in conditions {
        var existing := conditions[c.kind];
        if existing.status == c.status && existing.transition != 0 {
          update := c.(transition := existing.transition);
        }
        if SameCondition(existing, update) {
          lastRefreshed := lastRefreshed[c.kind := now];
          return;
        }
      }
      pendingUpdates := pendingUpdates[c.kind := update];
      lastRefreshed := lastRefreshed[c.kind := now];
    }

    /** Queues a condition as it is: problem conditions and the heartbeat. */
    method Queue(c: NodeCondition, now: int)
      modifies this
      ensures Model() == Queued(old(Model()), c, now)
    {
      pendingUpdates := pendingUpdates[c.kind := c];
      lastRefreshed := lastRefreshed[c.kind := now];
    }

    method AddCustomConditions(now: int)
      modifies this
      ensures Model() == QueuedAll(old(Model()), settings.custom, now)
    {
      for i := 0 to |settings.custom|
        invariant Model() == QueuedAll(old(Model()), settings.custom[..i], now)
      {
        assert settings.custom[..i + 1][..i] == settings.custom[..i];
        Queue(settings.custom[i], now);
      }
      assert settings.custom[..|settings.custom|] == settings.custom;
    }

    method RemoveCondition(kind: string)
      modifies this
      ensures Model() == Removed(old(Model()), kind)
    {
      pendingRemovals := pendingRemovals + {kind};
      conditions := conditions - {kind};
      pendingUpdates := pendingUpdates - {kind};
    }

    /** `read` is the node as the API returned it, or nothing if the read failed. */
    method PerformResync(read: Option<Conditions>) returns (ok: bool)
      modifies this
      ensures ok == read.Some?
      ensures Model() == if ok then Resynced(old(Model()), read.value) else old(Model())
    {
      if read.None? {
        return false;
      }
      var snapshot := read.value;
      conditions := map[];
      var todo := snapshot.Keys;
      while todo != {}
        invariant todo <= snapshot.Keys
        invariant Model() == old(Model()).(conditions := snapshot - todo)
        decreases |todo|
      {
        var k :| k in todo;
        todo := todo - {k};
        conditions := conditions[k := snapshot[k]];
        assert conditions == snapshot - todo;
      }
      assert snapshot - {} == snapshot;
      return true;
    }

    method LoadNode(node: Conditions)
      modifies this
      ensures Model() == old(Model()).(conditions := old(conditions) + node)
    {
      var todo := node.Keys;
      while todo != {}
        invariant todo <= node.Keys
        invariant Model() == old(Model()).(conditions := old(conditions) + (node - todo))
        decreases |todo|
      {
        var k :| k in todo;
        todo := todo - {k};
        conditions := conditions[k := node[k]];
        assert conditions == old(conditions) + (node - todo);
      }
      assert node - {} == node;
    }

    method QueueMissing()
      modifies this
      ensures Model() == old(Model()).(pendingUpdates := WithMissing(old(pendingUpdates), settings.custom, old(conditions)))
    {
      var custom := settings.custom;
      for i := 0 to |custom|
        invariant Model() == old(Model()).(pendingUpdates := WithMissing(old(pendingUpdates), custom[..i], conditions))
      {
        assert custom[..i + 1][..i] == custom[..i];
        if custom[i].kind !in conditions {
          pendingUpdates := pendingUpdates[custom[i].kind := custom[i]];
        }
      }
      assert custom[..|custom|] == custom;
    }

    /** Schedules removal of those of `kinds` that are in the cache. */
    method RemoveIfCached(kinds: set<string>)
      modifies this
      ensures Model() == RemovedAll(old(Model()), kinds * old(conditions).Keys)
    {
      ghost var before := Model();
      ghost var done := {};
      var todo := kinds;
      assert RemovedAll(before, done * before.conditions.Keys) == before;
      hide RemovedAll, Removed;
      while todo != {}
        invariant done !! todo && done + todo == kinds
        invariant Model() == RemovedAll(before, done * before.conditions.Keys)
        decreases |todo|
      {
        var k :| k in todo;
        todo := todo - {k};
        RemoveOneMore(before, done, k);
        done := done + {k};
        if k in conditions {
          RemoveCondition(k);
        }
      }
    }

    method PerformInitialSync(readOk: bool) returns (ok: bool)
      modifies this
      ensures ok == readOk
      ensures Model() == if ok then Synced(old(Model()), settings.custom, client.node) else old(Model())
    {
      hide WithMissing;
      if !readOk {
        return false;
      }
      LoadNode(client.node);
      QueueMissing();
      RemoveIfCached(RETIRED);
      return true;
    }

    /** The removals are decided against the state before the pass, as ranging over the map while deleting does. */
    method ExpireStaleConditions(now: int)
      modifies this
      ensures Model() == Expired(old(Model()), StaleKinds(old(Model()), settings, now))
    {
      ghost var before := Model();
      var todo := conditions.Keys;
      ghost var done := {};
      ExpireNone(before, settings, now);
      hide IsStale, StaleKinds, Expired;
      while todo != {}
        invariant done !! todo && done + todo == before.conditions.Keys
        invariant Model() == Expired(before, StaleKinds(before, settings, now) * done)
        decreases |todo|
      {
        var k :| k in todo;
        todo := todo - {k};
        ExpireOne(before, settings, now, done, k);
        done := done + {k};
        if k == HEARTBEAT || !(PREFIX <= k) {
          continue;
        }
        var refreshedAt := if k in lastRefreshed then lastRefreshed[k] else settings.startTime;
        if now - refreshedAt > settings.staleTTL {
          pendingRemovals := pendingRemovals + {k};
          conditions := conditions - {k};
          lastRefreshed := lastRefreshed - {k};
        }
      }
      ExpireAll(before, settings, now);
    }

    /** The owned entries of a map, as the two ownership-guarded merge loops collect them. */
    method MergeOwned(into: Conditions, from: Conditions) returns (merged: Conditions)
      ensures merged == into + OwnedPart(from)
    {
      merged := into;
      var todo := from.Keys;
      while todo != {}
        invariant todo <= from.Keys && merged == into + OwnedPart(from - todo)
        decreases |todo|
      {
        var k :| k in todo;
        todo := todo - {k};
        hide OwnedPart;
        if PREFIX <= k {
          merged := merged[k := from[k]];
        }
      }
      assert from - {} == from;
    }

    method FlushRemovals(api: Api) returns (ok: bool)
      modifies this, client
      ensures (Model(), client.node) == AfterRemovals(old(Model()), old(client.node), api)
      ensures ok <==> RemovalsOk(old(Model()), api)
    {
      hide RemoveOk, AfterRemove;
      ok := true;
      if pendingRemovals != {} {
        ok := client.RemoveNodeConditions(pendingRemovals, api);
        if ok {
          pendingRemovals := {};
        }
      }
    }

    method FlushUpdates(api: Api) returns (ok: bool)
      modifies this, client
      ensures (Model(), client.node) == AfterUpdates(old(Model()), old(client.node), api)
      ensures ok <==> UpdatesOk(old(Model()), api)
    {
      hide OwnedPart;
      ok := true;
      if pendingUpdates != map[] {
        var owned := MergeOwned(map[], conditions);
        var all := MergeOwned(owned, pendingUpdates);
        assert map[] + OwnedPart(conditions) == OwnedPart(conditions);
        assert all == PatchOf(Model());
        hide PatchOf;
        ok := client.PatchNodeConditions(all, api);
        if ok {
          conditions := conditions + pendingUpdates;
          pendingUpdates := map[];
        }
      }
    }

    method FlushPendingUpdates(now: int, removal: Api, patch: Api) returns (ok: bool)
      modifies this, client
      ensures (Model(), client.node) == Flushed(old(Model()), settings, now, old(client.node), removal, patch)
      ensures ok <==> FlushOk(old(Model()), settings, now, removal, patch)
    {
      ExpireStaleConditions(now);
      hide Expired, StaleKinds, RemoveOk, AfterRemove, PatchOf, AfterPatch;
      if pendingUpdates == map[] && pendingRemovals == {} {
        return true;
      }
      var removed := FlushRemovals(removal);
      var patched := FlushUpdates(patch);
      return removed && patched;
    }
  }

  lemma {:induction false} ExpireNone(m: Manager, st: Settings, now: int)
    ensures Expired(m, StaleKinds(m, st, now) * {}) == m
  {
  }

  lemma {:induction false} ExpireAll(m: Manager, st: Settings, now: int)
    ensures Expired(m, StaleKinds(m, st, now) * m.conditions.Keys) == Expired(m, StaleKinds(m, st, now))
  {
    assert StaleKinds(m, st, now) * m.conditions.Keys == StaleKinds(m, st, now);
  }

  lemma {:induction false} ExpireOne(m: Manager, st: Settings, now: int, done: set<string>, k: string)
    requires k in m.conditions && k !in done
    ensures var part := Expired(m, StaleKinds(m, st, now) * done);
            && RefreshedAt(part, st.startTime, k) == RefreshedAt(m, st.startTime, k)
            && Expired(m, StaleKinds(m, st, now) * (done + {k})) ==
               if IsStale(m, st, now, k)
               then Manager(part.conditions - {k}, part.pendingUpdates, part.pendingRemovals + {k}, part.lastRefreshed - {k})
               else part
    ensures IsStale(m, st, now, k) <==> k != HEARTBEAT && Owned(k) && now - RefreshedAt(m, st.startTime, k) > st.staleTTL
  {
    var stale := StaleKinds(m, st, now);
    assert stale * (done + {k}) == if IsStale(m, st, now, k) then stale * done + {k} else stale * done;
    hide Owned;
  }
}
