/** What failed API calls and restarts leave to be done (pkg/exporters/kubernetes/condition_manager.go): queued conditions and
    scheduled removals are kept until a call succeeds. */
module ConditionRetries {
  import opened MonitorTypes
  import opened NodeConditions
  import opened ConditionManager

  // ----- Queued values -----

  /** The step neither queues nor drops this type, and no patch succeeds in it. */
  ghost predicate LeavesQueued(st: Settings, step: Step, kind: string) {
    match step
    case Report(k, _, _, _, _) => ConditionType(k) != kind
    case Problem(c) => c.kind != kind
    case AddCustom => kind !in Kinds(st.custom)
    case SendHeartbeat(_) => kind != HEARTBEAT
    case Remove(k) => k != kind
    case InitialSync => kind !in Kinds(st.custom) && kind !in RETIRED
    case ClearManaged => !IsManaged(kind)
    case Flush(_, patch) => patch != Done
    case _ => true
  }

  ghost predicate QueuedAs(m: Manager, c: NodeCondition) {
    c.kind in m.pendingUpdates && m.pendingUpdates[c.kind] == c
  }

  lemma {:induction false} QueuedAllLeaves(m: Manager, cs: seq<NodeCondition>, now: int, c: NodeCondition)
    requires QueuedAs(m, c) && c.kind !in Kinds(cs)
    ensures QueuedAs(QueuedAll(m, cs, now), c)
    decreases |cs|
  {
    if cs != [] {
      var front, last := cs[..|cs| - 1], cs[|cs| - 1];
      assert cs == front + [last] && last in cs && forall x :: x in front ==> x in cs;
      QueuedAllLeaves(m, front, now, c);
    }
  }

  /** What the start-up sync queues for one type. */
  lemma {:induction false} WithMissingAt(pending: Conditions, custom: seq<NodeCondition>, loaded: Conditions, k: string)
    ensures var after := WithMissing(pending, custom, loaded);
            && (k in after <==> k in pending || (k in Kinds(custom) && k !in loaded))
            && (k in after && !(k in Kinds(custom) && k !in loaded) ==> after[k] == pending[k])
            && (k in Kinds(custom) && k !in loaded ==> after[k] in custom)
    decreases |custom|
  {
    if custom != [] {
      var front, last := custom[..|custom| - 1], custom[|custom| - 1];
      assert custom == front + [last];
      assert Kinds(custom) == Kinds(front) + {last.kind};
      WithMissingAt(pending, front, loaded, k);
    }
  }

  /** A flush whose patch fails, whatever becomes of its removals, keeps the queue; an owned value makes it send a patch. */
  lemma {:induction false} FailedFlushKeeps(m: Manager, st: Settings, now: int, node: Conditions, removal: Api, patch: Api, c: NodeCondition)
    requires QueuedAs(m, c) && Owned(c.kind) && patch != Done
    ensures Flushed(m, st, now, node, removal, patch).0.pendingUpdates == m.pendingUpdates
  {
    var expired := Expired(m, StaleKinds(m, st, now));
    var m1 := AfterRemovals(expired, node, removal).0;
    assert c.kind in OwnedPart(m1.pendingUpdates);
    assert c.kind in PatchOf(m1);
    hide StaleKinds, RemoveOk, OwnedPart;
  }

  lemma {:induction false} QueuedStep(st: Settings, s: Sys, step: Step, c: NodeCondition)
    requires QueuedAs(s.m, c) && Owned(c.kind) && LeavesQueued(st, step, c.kind)
    ensures QueuedAs(Apply(st, s, step).m, c)
  {
    hide Flushed, WithMissing, QueuedAll, ConditionType, IsManaged, Owned;
    match step
    case AddCustom => QueuedAllLeaves(s.m, st.custom, s.now, c);
    case InitialSync => WithMissingAt(s.m.pendingUpdates, st.custom, s.m.conditions + s.node, c.kind);
    case Flush(removal, patch) => FailedFlushKeeps(s.m, st, s.now, s.node, removal, patch, c);
    case _ =>
  }

  /** A queued value stays queued over any number of failed flushes, resyncs and reports of other types. */
  lemma {:induction false} QueuedUntilPatched(st: Settings, s: Sys, steps: seq<Step>, c: NodeCondition)
    requires QueuedAs(s.m, c) && Owned(c.kind) && forall i :: 0 <= i < |steps| ==> LeavesQueued(st, steps[i], c.kind)
    ensures QueuedAs(AfterAll(st, s, steps).m, c)
    decreases |steps|
  {
    if steps != [] {
      QueuedUntilPatched(st, s, steps[..|steps| - 1], c);
      hide Apply, QueuedAs, LeavesQueued;
      QueuedStep(st, AfterAll(st, s, steps[..|steps| - 1]), steps[|steps| - 1], c);
    }
  }

  /** No report is lost to the API: after any such run, the first flush whose patch succeeds puts the queued value on the node. */
  lemma {:induction false} RetriesDeliver(st: Settings, s: Sys, steps: seq<Step>, removal: Api, c: NodeCondition)
    requires QueuedAs(s.m, c) && Owned(c.kind) && forall i :: 0 <= i < |steps| ==> LeavesQueued(st, steps[i], c.kind)
    ensures var after := Apply(st, AfterAll(st, s, steps), Flush(removal, Done));
            c.kind in after.node && after.node[c.kind] == c && after.m.pendingUpdates == map[] && c.kind in after.m.conditions
  {
    QueuedUntilPatched(st, s, steps, c);
    var t := AfterAll(st, s, steps);
    hide AfterAll, QueuedAs, Flushed, Owned;
  }

  // ----- Scheduled removals -----

  lemma {:induction false} RemovalStep(st: Settings, s: Sys, step: Step, kind: string)
    requires kind in s.m.pendingRemovals && Owned(kind) && (step.Flush? ==> step.removal != Done)
    ensures kind in Apply(st, s, step).m.pendingRemovals
  {
    hide WithMissing, ConditionType, IsManaged, StaleKinds, PatchOf, AfterPatch, AfterRemove, SameCondition, Carried;
    if step.AddCustom? { QueuedAllKeepsRemovals(s.m, st.custom, s.now); }
  }

  lemma {:induction false} QueuedAllKeepsRemovals(m: Manager, cs: seq<NodeCondition>, now: int)
    ensures QueuedAll(m, cs, now).pendingRemovals == m.pendingRemovals
    decreases |cs|
  {
    if cs != [] { QueuedAllKeepsRemovals(m, cs[..|cs| - 1], now); }
  }

  /** A scheduled removal stays scheduled until a removal call succeeds, and then none is left. */
  lemma {:induction false} RemovalUntilDone(st: Settings, s: Sys, steps: seq<Step>, kind: string, patch: Api)
    requires kind in s.m.pendingRemovals && Owned(kind)
    requires forall i :: 0 <= i < |steps| ==> (steps[i].Flush? ==> steps[i].removal != Done)
    ensures kind in AfterAll(st, s, steps).m.pendingRemovals
    ensures Apply(st, AfterAll(st, s, steps), Flush(Done, patch)).m.pendingRemovals == {}
    decreases |steps|
  {
    if steps != [] {
      RemovalUntilDone(st, s, steps[..|steps| - 1], kind, patch);
      hide Apply, Owned;
      RemovalStep(st, AfterAll(st, s, steps[..|steps| - 1]), steps[|steps| - 1], kind);
    }
    var t := AfterAll(st, s, steps);
    hide AfterAll, Owned;
  }

  /** A removal requested just before a successful flush takes effect, whatever was queued for the type. */
  lemma {:induction false} RemovalTakesEffect(m: Manager, st: Settings, now: int, node: Conditions, kind: string)
    requires Owned(kind)
    ensures kind !in Flushed(Removed(m, kind), st, now, node, Done, Done).1
  {
    RemovalSticksIff(Removed(m, kind), st, now, node, kind);
    hide Flushed, Owned;
  }

  /** A type that another writer deleted is not written back after a resync, unless it is queued. */
  lemma {:induction false} ResyncAdoptsDeletion(m: Manager, st: Settings, now: int, node: Conditions, kind: string)
    requires Owned(kind) && kind !in node && kind !in m.pendingUpdates
    ensures kind !in Flushed(Resynced(m, node), st, now, node, Done, Done).1
  {
    FlushOutcome(Resynced(m, node), st, now, node, kind);
    hide Flushed, Owned;
  }

  // ----- Start-up and transitions -----

  /** What the start-up sync leaves of one type in the cache, in the queue and among the removals. */
  lemma {:induction false} SyncOutcome(m: Manager, custom: seq<NodeCondition>, node: Conditions, k: string)
    ensures var after := Synced(m, custom, node);
            var found, missing := k in node || k in m.conditions, k in Kinds(custom) && k !in node && k !in m.conditions;
            && (k in after.conditions <==> found && k !in RETIRED)
            && (k in after.conditions ==> after.conditions[k] == if k in node then node[k] else m.conditions[k])
            && (k in after.pendingUpdates <==> missing || (k in m.pendingUpdates && !(found && k in RETIRED)))
            && (k in after.pendingUpdates ==> if missing then after.pendingUpdates[k] in custom else after.pendingUpdates[k] == m.pendingUpdates[k])
            && (k in after.pendingRemovals <==> k in m.pendingRemovals || (found && k in RETIRED))
            && after.lastRefreshed == m.lastRefreshed
  {
    WithMissingAt(m.pendingUpdates, custom, m.conditions + node, k);
    hide WithMissing;
  }

  /** A queued report keeps the cached transition time exactly while the status stays the same. */
  lemma {:induction false} TransitionKept(m: Manager, c: NodeCondition, now: int)
    requires !(c.kind in m.conditions && SameCondition(m.conditions[c.kind], c))
    ensures var queued := Updated(m, c, now).pendingUpdates;
            && c.kind in queued && SameCondition(queued[c.kind], c)
            && queued[c.kind].transition ==
               if c.kind in m.conditions && m.conditions[c.kind].status == c.status && m.conditions[c.kind].transition != 0
               then m.conditions[c.kind].transition else c.transition
  {
  }
}
