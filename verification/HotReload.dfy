/** Applying a configuration diff to the running monitors: pkg/detector/detector.go. */
module HotReload {
  import opened MonitorTypes
  import opened ConfigDiff
  import opened DependencyGraph
  import opened KahnSort

  /** The running handles, by the configuration each was started with, and the name index over them. */
  datatype Running = Running(handles: seq<MonitorConfig>, index: MonitorMap)

  /** Which operations fail, by monitor name: stopping, creating, starting. */
  datatype Faults = Faults(stop: set<string>, create: set<string>, start: set<string>)

  /** The first handle of that name is spliced out. */
  function Without(handles: seq<MonitorConfig>, name: string): seq<MonitorConfig> {
    if handles == [] then []
    else if handles[0].name == name then handles[1..]
    else [handles[0]] + Without(handles[1..], name)
  }

  predicate HasHandle(handles: seq<MonitorConfig>, name: string) {
    exists m :: m in handles && m.name == name
  }

  function Stopped(r: Running, name: string): Running {
    if HasHandle(r.handles, name) then Running(Without(r.handles, name), r.index - {name}) else r
  }

  function Added(r: Running, m: MonitorConfig): Running {
    Running(r.handles + [m], r.index[m.name := m])
  }

  /** Starting one monitor: whether it was critical, and the state after. */
  function Started(r: Running, m: MonitorConfig, f: Faults): (Running, bool) {
    if m.name in f.create || m.name in f.start then (r, true) else (Added(r, m), false)
  }

  function Restarted(r: Running, c: Change, f: Faults): (Running, bool) {
    var name := c.after.name;
    if !HasHandle(r.handles, name) || name in f.stop then (Stopped(r, name), true) else Started(Stopped(r, name), c.after, f)
  }

  function StoppedAll(r: Running, ms: seq<MonitorConfig>): Running {
    if ms == [] then r else Stopped(StoppedAll(r, ms[..|ms| - 1]), ms[|ms| - 1].name)
  }

  function RestartedAll(r: Running, cs: seq<Change>, f: Faults): (Running, bool) {
    if cs == [] then (r, false)
    else
      var (before, critical) := RestartedAll(r, cs[..|cs| - 1], f);
      var (after, failed) := Restarted(before, cs[|cs| - 1], f);
      (after, critical || failed)
  }

  function StartedAll(r: Running, ms: seq<MonitorConfig>, f: Faults): (Running, bool) {
    if ms == [] then (r, false)
    else
      var (before, critical) := StartedAll(r, ms[..|ms| - 1], f);
      var (after, failed) := Started(before, ms[|ms| - 1], f);
      (after, critical || failed)
  }

  /** Steps 1 to 3 of a reload: the monitors, with the added ones in start order, or none if that order has a cycle. */
  function Reloaded(r: Running, d: Diff, sorted: SortResult, f: Faults): (Running, bool) {
    var (r2, critical) := RestartedAll(StoppedAll(r, d.removed), d.modified, f);
    if sorted.CycleDetected? then (r2, true)
    else
      var (r3, failed) := StartedAll(r2, sorted.monitors, f);
      (r3, critical || failed)
  }

  // ----- The running monitors follow the configuration -----

  /** The handles are free of duplicates, the index describes them, and they match `target` on the compared fields. */
  ghost predicate Matches(r: Running, target: MonitorMap) {
    && UniqueNames(r.handles)
    && r.index.Keys == target.Keys
    && (forall k :: k in target <==> HasHandle(r.handles, k))
    && forall m :: m in r.handles ==> m.name in target && r.index[m.name] == m && SameSettings(m, target[m.name])
  }

  lemma {:induction false} WithoutMembers(handles: seq<MonitorConfig>, name: string)
    requires UniqueNames(handles)
    ensures UniqueNames(Without(handles, name))
    ensures forall m :: m in Without(handles, name) <==> m in handles && m.name != name
    decreases |handles|
  {
    if handles != [] {
      var first, rest := handles[0], handles[1..];
      assert handles == [first] + rest;
      WithoutMembers(rest, name);
      forall m | m in rest ensures m.name != first.name {
        var i :| 0 <= i < |rest| && rest[i] == m;
        assert handles[i + 1] == m;
      }
      forall i, j | 0 <= i < j < |Without(handles, name)|
        ensures Without(handles, name)[i].name != Without(handles, name)[j].name
      {
        if first.name != name && i == 0 {
          assert Without(handles, name)[j] in Without(rest, name);
        }
      }
    }
  }

  lemma {:induction false} StopMatches(r: Running, t: MonitorMap, name: string)
    requires Matches(r, t)
    ensures Matches(Stopped(r, name), t - {name})
  {
    if HasHandle(r.handles, name) {
      WithoutMembers(r.handles, name);
      WithoutHandles(r.handles, name);
      hide Without, HasHandle;
      FewerMatch(r, t, name, Without(r.handles, name));
    } else {
      assert t - {name} == t;
    }
  }

  lemma {:induction false} FewerMatch(r: Running, t: MonitorMap, name: string, handles: seq<MonitorConfig>)
    requires Matches(r, t) && UniqueNames(handles)
    requires forall m :: m in handles <==> m in r.handles && m.name != name
    requires forall k :: HasHandle(handles, k) <==> HasHandle(r.handles, k) && k != name
    ensures Matches(Running(handles, r.index - {name}), t - {name})
  {
    hide SameSettings, UniqueNames, HasHandle;
  }

  lemma {:induction false} WithoutHandles(handles: seq<MonitorConfig>, name: string)
    requires UniqueNames(handles)
    ensures forall k :: HasHandle(Without(handles, name), k) <==> HasHandle(handles, k) && k != name
  {
    WithoutMembers(handles, name);
    hide Without, UniqueNames;
    forall k ensures HasHandle(Without(handles, name), k) <==> HasHandle(handles, k) && k != name {
      if HasHandle(handles, k) && k != name {
        var m :| m in handles && m.name == k;
        assert m in Without(handles, name);
      }
    }
  }

  lemma {:induction false} AddMatches(r: Running, t: MonitorMap, m: MonitorConfig)
    requires Matches(r, t) && m.name !in t
    ensures Matches(Added(r, m), t[m.name := m])
  {
    assert SameSettings(m, m);
    hide SameSettings;
    var handles := r.handles + [m];
    forall i, j | 0 <= i < j < |handles| ensures handles[i].name != handles[j].name {
      if j == |r.handles| { assert handles[i] in r.handles; }
    }
    forall k ensures k in t[m.name := m] <==> HasHandle(handles, k) {
      if k == m.name { assert m in handles; }
      if HasHandle(r.handles, k) {
        var x :| x in r.handles && x.name == k;
        assert x in handles;
      }
    }
  }

  /** The target map as the three phases rewrite it. */
  function MinusAll(t: MonitorMap, ms: seq<MonitorConfig>): MonitorMap {
    if ms == [] then t else MinusAll(t, ms[..|ms| - 1]) - {ms[|ms| - 1].name}
  }

  function ChangedAll(t: MonitorMap, cs: seq<Change>): MonitorMap {
    if cs == [] then t else ChangedAll(t, cs[..|cs| - 1])[cs[|cs| - 1].after.name := cs[|cs| - 1].after]
  }

  function PlusAll(t: MonitorMap, ms: seq<MonitorConfig>): MonitorMap {
    if ms == [] then t else PlusAll(t, ms[..|ms| - 1])[ms[|ms| - 1].name := ms[|ms| - 1]]
  }

  lemma {:induction false} StopAllMatches(r: Running, t: MonitorMap, ms: seq<MonitorConfig>)
    requires Matches(r, t)
    ensures Matches(StoppedAll(r, ms), MinusAll(t, ms))
    decreases |ms|
  {
    if ms != [] {
      hide Matches;
      StopAllMatches(r, t, ms[..|ms| - 1]);
      StopMatches(StoppedAll(r, ms[..|ms| - 1]), MinusAll(t, ms[..|ms| - 1]), ms[|ms| - 1].name);
    }
  }

  lemma {:induction false} RestartMatches(r: Running, t: MonitorMap, c: Change, f: Faults)
    requires Matches(r, t) && !Restarted(r, c, f).1
    ensures Matches(Restarted(r, c, f).0, t[c.after.name := c.after])
  {
    var name := c.after.name;
    hide Matches;
    StopMatches(r, t, name);
    AddMatches(Stopped(r, name), t - {name}, c.after);
    assert (t - {name})[name := c.after] == t[name := c.after];
  }

  lemma {:induction false} RestartAllMatches(r: Running, t: MonitorMap, cs: seq<Change>, f: Faults)
    requires Matches(r, t) && !RestartedAll(r, cs, f).1
    ensures Matches(RestartedAll(r, cs, f).0, ChangedAll(t, cs))
    decreases |cs|
  {
    if cs != [] {
      hide Matches;
      var front := cs[..|cs| - 1];
      RestartAllMatches(r, t, front, f);
      RestartMatches(RestartedAll(r, front, f).0, ChangedAll(t, front), cs[|cs| - 1], f);
    }
  }

  lemma {:induction false} PlusAllKeys(t: MonitorMap, ms: seq<MonitorConfig>)
    ensures PlusAll(t, ms).Keys == t.Keys + Names(ms)
    decreases |ms|
  {
    if ms != [] {
      var front, last := ms[..|ms| - 1], ms[|ms| - 1];
      assert ms == front + [last];
      PlusAllKeys(t, front);
      assert Names(ms) == Names(front) + {last.name};
    }
  }

  lemma {:induction false} StartAllMatches(r: Running, t: MonitorMap, ms: seq<MonitorConfig>, f: Faults)
    requires Matches(r, t) && !StartedAll(r, ms, f).1 && UniqueNames(ms) && Names(ms) !! t.Keys
    ensures Matches(StartedAll(r, ms, f).0, PlusAll(t, ms))
    decreases |ms|
  {
    if ms != [] {
      hide Matches;
      var front, last := ms[..|ms| - 1], ms[|ms| - 1];
      assert ms == front + [last];
      assert last in ms && forall m :: m in front ==> m in ms;
      StartAllMatches(r, t, front, f);
      PlusAllKeys(t, front);
      assert last.name !in Names(front);
      AddMatches(StartedAll(r, front, f).0, PlusAll(t, front), last);
    }
  }

  lemma {:induction false} MinusAllValues(t: MonitorMap, ms: seq<MonitorConfig>)
    ensures MinusAll(t, ms) == t - Names(ms)
    decreases |ms|
  {
    if ms != [] {
      var front, last := ms[..|ms| - 1], ms[|ms| - 1];
      assert ms == front + [last];
      MinusAllValues(t, front);
      assert Names(ms) == Names(front) + {last.name};
    }
  }

  lemma {:induction false} ChangedAllValues(t: MonitorMap, n: MonitorMap, cs: seq<Change>)
    requires forall c :: c in cs ==> c.after.name in t && c.after.name in n && n[c.after.name] == c.after
    ensures ChangedAll(t, cs).Keys == t.Keys
    ensures forall k :: k in t ==> ChangedAll(t, cs)[k] == if k in ChangedNames(cs) && k in n then n[k] else t[k]
    decreases |cs|
  {
    if cs != [] {
      var front, last := cs[..|cs| - 1], cs[|cs| - 1];
      assert cs == front + [last];
      assert last in cs && forall c :: c in front ==> c in cs;
      ChangedAllValues(t, n, front);
      assert ChangedNames(cs) == ChangedNames(front) + {last.after.name};
    }
  }

  lemma {:induction false} PlusAllValues(t: MonitorMap, n: MonitorMap, ms: seq<MonitorConfig>)
    requires forall m :: m in ms ==> m.name in n && n[m.name] == m
    ensures forall k :: k in PlusAll(t, ms) ==>
              (k in Names(ms) && k in n && PlusAll(t, ms)[k] == n[k]) || (k !in Names(ms) && k in t && PlusAll(t, ms)[k] == t[k])
    decreases |ms|
  {
    if ms != [] {
      var front, last := ms[..|ms| - 1], ms[|ms| - 1];
      assert ms == front + [last];
      assert last in ms && forall m :: m in front ==> m in ms;
      PlusAllValues(t, n, front);
      assert Names(ms) == Names(front) + {last.name};
    }
  }

  /** Rewriting the old configuration phase by phase ends in the new one, up to the compared fields. */
  lemma {:induction false} PhasesReachNew(o: MonitorMap, n: MonitorMap, d: Diff, sorted: seq<MonitorConfig>)
    requires Keyed(o) && Keyed(n) && IsDiff(o, n, d) && multiset(sorted) == multiset(d.added)
    ensures SameMonitors(PlusAll(ChangedAll(MinusAll(o, d.removed), d.modified), sorted), n)
  {
    DiffNames(o, n, d);
    MinusAllValues(o, d.removed);
    var t1 := MinusAll(o, d.removed);
    ChangedAllValues(t1, n, d.modified);
    var t2 := ChangedAll(t1, d.modified);
    SortedMembers(sorted, d.added);
    PlusAllKeys(t2, sorted);
    PlusAllValues(t2, n, sorted);
    var t3 := PlusAll(t2, sorted);
    hide *;
    PhaseValues(o, n, t1, t2, t3, Names(d.removed), Names(d.added), ChangedNames(d.modified));
  }

  lemma {:induction false} PhaseValues(o: MonitorMap, n: MonitorMap, t1: MonitorMap, t2: MonitorMap, t3: MonitorMap,
                                       removed: set<string>, added: set<string>, changed: set<string>)
    requires added == n.Keys - o.Keys && removed == o.Keys - n.Keys && t1 == o - removed && t2.Keys == t1.Keys
    requires forall k :: k in changed <==> k in o && k in n && !SameSettings(o[k], n[k])
    requires forall k :: k in t1 ==> t2[k] == if k in changed && k in n then n[k] else t1[k]
    requires t3.Keys == t2.Keys + added
    requires forall k :: k in t3 ==> (k in added && k in n && t3[k] == n[k]) || (k !in added && k in t2 && t3[k] == t2[k])
    ensures SameMonitors(t3, n)
  {
    assert forall k :: k in n ==> SameSettings(n[k], n[k]);
    hide SameSettings;
  }

  lemma {:induction false} SortedMembers(sorted: seq<MonitorConfig>, added: seq<MonitorConfig>)
    requires multiset(sorted) == multiset(added)
    ensures (forall m :: m in sorted <==> m in added) && Names(sorted) == Names(added)
  {
    forall m ensures m in sorted <==> m in added {
      assert m in sorted <==> m in multiset(sorted);
      assert m in added <==> m in multiset(added);
    }
  }

  lemma {:induction false} MatchesUpToEqual(r: Running, t: MonitorMap, n: MonitorMap)
    requires Matches(r, t) && SameMonitors(t, n)
    ensures Matches(r, n)
  {
  }

  /** A reload without critical errors takes a running set that matches the old configuration to one that matches the
      new: no duplicate handles, and a handle and an index entry for exactly the configured names. */
  lemma {:induction false} ReloadFollowsDiff(r: Running, o: MonitorMap, n: MonitorMap, d: Diff, sorted: SortResult, f: Faults)
    requires Keyed(o) && Keyed(n) && IsDiff(o, n, d) && Matches(r, o)
    requires sorted.Sorted? ==> multiset(sorted.monitors) == multiset(d.added) && UniqueNames(sorted.monitors)
    requires !Reloaded(r, d, sorted, f).1
    ensures Matches(Reloaded(r, d, sorted, f).0, n)
  {
    var t1 := MinusAll(o, d.removed);
    var t2 := ChangedAll(t1, d.modified);
    PhasesReachNew(o, n, d, sorted.monitors);
    NewNamesUnused(o, n, d, sorted.monitors);
    hide Matches, IsDiff, SameMonitors;
    StopAllMatches(r, o, d.removed);
    RestartAllMatches(StoppedAll(r, d.removed), t1, d.modified, f);
    StartAllMatches(RestartedAll(StoppedAll(r, d.removed), d.modified, f).0, t2, sorted.monitors, f);
    MatchesUpToEqual(Reloaded(r, d, sorted, f).0, PlusAll(t2, sorted.monitors), n);
  }

  lemma {:induction false} NewNamesUnused(o: MonitorMap, n: MonitorMap, d: Diff, sorted: seq<MonitorConfig>)
    requires Keyed(o) && Keyed(n) && IsDiff(o, n, d) && multiset(sorted) == multiset(d.added)
    ensures Names(sorted) !! ChangedAll(MinusAll(o, d.removed), d.modified).Keys
  {
    DiffNames(o, n, d);
    MinusAllValues(o, d.removed);
    ChangedAllValues(MinusAll(o, d.removed), n, d.modified);
    SortedMembers(sorted, d.added);
  }

  // ----- When a reload has critical errors -----

  ghost predicate FailsToStart(f: Faults, name: string) {
    name in f.create || name in f.start
  }

  ghost predicate SomeRestartFails(cs: seq<Change>, f: Faults) {
    exists c :: c in cs && (c.after.name in f.stop || FailsToStart(f, c.after.name))
  }

  /** The same names have handles, but for these. */
  ghost predicate SameOutside(a: seq<MonitorConfig>, b: seq<MonitorConfig>, names: set<string>) {
    forall k :: k !in names ==> (HasHandle(a, k) <==> HasHandle(b, k))
  }

  /** Restarting running monitors fails critically exactly if one of them fails to stop, to be created or to start. */
  lemma {:induction false} RestartCriticalIff(r: Running, cs: seq<Change>, f: Faults)
    requires UniqueNames(r.handles) && UniqueChanges(cs) && forall c :: c in cs ==> HasHandle(r.handles, c.after.name)
    ensures RestartedAll(r, cs, f).1 <==> SomeRestartFails(cs, f)
    ensures UniqueNames(RestartedAll(r, cs, f).0.handles)
    ensures SameOutside(r.handles, RestartedAll(r, cs, f).0.handles, ChangedNames(cs))
    decreases |cs|
  {
    if cs != [] {
      var front, last := cs[..|cs| - 1], cs[|cs| - 1];
      LastChange(cs, f);
      assert forall c :: c in front ==> HasHandle(r.handles, c.after.name);
      RestartCriticalIff(r, front, f);
      var before, name := RestartedAll(r, front, f).0, last.after.name;
      assert HasHandle(before.handles, name);
      hide *;
      RestartOne(before, last, f);
    }
  }

  lemma {:induction false} LastChange(cs: seq<Change>, f: Faults)
    requires cs != [] && UniqueChanges(cs)
    ensures var front, last := cs[..|cs| - 1], cs[|cs| - 1];
            && last in cs && (forall c :: c in front ==> c in cs) && UniqueChanges(front)
            && last.after.name !in ChangedNames(front) && ChangedNames(cs) == ChangedNames(front) + {last.after.name}
            && (SomeRestartFails(cs, f) <==> SomeRestartFails(front, f) || last.after.name in f.stop || FailsToStart(f, last.after.name))
  {
    var front, last := cs[..|cs| - 1], cs[|cs| - 1];
    assert cs == front + [last];
    hide FailsToStart;
  }

  lemma {:induction false} RestartOne(r: Running, c: Change, f: Faults)
    requires UniqueNames(r.handles) && HasHandle(r.handles, c.after.name)
    ensures Restarted(r, c, f).1 <==> c.after.name in f.stop || FailsToStart(f, c.after.name)
    ensures UniqueNames(Restarted(r, c, f).0.handles)
    ensures SameOutside(r.handles, Restarted(r, c, f).0.handles, {c.after.name})
  {
    var name, left := c.after.name, Without(r.handles, c.after.name);
    WithoutMembers(r.handles, name);
    WithoutHandles(r.handles, name);
    hide Without, HasHandle;
    AppendUnique(left, c.after);
  }

  lemma {:induction false} AppendUnique(handles: seq<MonitorConfig>, m: MonitorConfig)
    requires UniqueNames(handles) && !HasHandle(handles, m.name)
    ensures UniqueNames(handles + [m])
    ensures forall k :: HasHandle(handles + [m], k) <==> HasHandle(handles, k) || k == m.name
  {
    var more := handles + [m];
    forall i, j | 0 <= i < j < |more| ensures more[i].name != more[j].name {
      if j == |handles| { assert more[i] in handles; }
    }
    assert m in more;
    forall k | HasHandle(handles, k) ensures HasHandle(more, k) {
      var x :| x in handles && x.name == k;
      assert x in more;
    }
  }

  lemma {:induction false} StartCriticalIff(r: Running, ms: seq<MonitorConfig>, f: Faults)
    ensures StartedAll(r, ms, f).1 <==> exists m :: m in ms && FailsToStart(f, m.name)
    decreases |ms|
  {
    if ms != [] {
      var front, last := ms[..|ms| - 1], ms[|ms| - 1];
      assert ms == front + [last] && last in ms && forall m :: m in front ==> m in ms;
      StartCriticalIff(r, front, f);
    }
  }

  /** A reload of monitors that match the old configuration has a critical error exactly when the added monitors depend
      on each other in a cycle, a modified one fails to stop, or a modified or added one fails to be created or started.
      A removed monitor that fails to stop is no critical error. */
  lemma {:induction false} ReloadCriticalIff(r: Running, o: MonitorMap, n: MonitorMap, d: Diff, sorted: SortResult, f: Faults)
    requires Keyed(o) && Keyed(n) && IsDiff(o, n, d) && Matches(r, o)
    requires sorted.Sorted? ==> multiset(sorted.monitors) == multiset(d.added)
    ensures Reloaded(r, d, sorted, f).1 <==>
              || sorted.CycleDetected?
              || (exists c :: c in d.modified && (c.after.name in f.stop || FailsToStart(f, c.after.name)))
              || (exists m :: m in d.added && FailsToStart(f, m.name))
  {
    var r1 := StoppedAll(r, d.removed);
    StopAllMatches(r, o, d.removed);
    DiffNames(o, n, d);
    MinusAllValues(o, d.removed);
    forall c | c in d.modified ensures HasHandle(r1.handles, c.after.name) {
      assert c.after.name in ChangedNames(d.modified);
      assert c.after.name in MinusAll(o, d.removed);
    }
    RestartCriticalIff(r1, d.modified, f);
    if sorted.Sorted? {
      StartCriticalIff(RestartedAll(r1, d.modified, f).0, sorted.monitors, f);
      SortedMembers(sorted.monitors, d.added);
    }
    hide Matches, IsDiff, FailsToStart, RestartedAll, StartedAll;
  }

  // ----- Which edits a reload applies -----

  lemma {:induction false} StopAllIndex(r: Running, t: MonitorMap, ms: seq<MonitorConfig>)
    requires Matches(r, t)
    ensures StoppedAll(r, ms).index == MinusAll(r.index, ms)
    decreases |ms|
  {
    if ms != [] {
      var front, name := ms[..|ms| - 1], ms[|ms| - 1].name;
      StopAllIndex(r, t, front);
      StopAllMatches(r, t, front);
      var before := StoppedAll(r, front);
      assert name in before.index <==> HasHandle(before.handles, name);
      hide Matches, HasHandle;
      assert Stopped(before, name).index == before.index - {name};
    }
  }

  lemma {:induction false} RestartAllIndex(r: Running, cs: seq<Change>, f: Faults)
    requires !RestartedAll(r, cs, f).1
    ensures RestartedAll(r, cs, f).0.index == ChangedAll(r.index, cs)
    decreases |cs|
  {
    if cs != [] {
      RestartAllIndex(r, cs[..|cs| - 1], f);
      var index, last := ChangedAll(r.index, cs[..|cs| - 1]), cs[|cs| - 1].after;
      assert (index - {last.name})[last.name := last] == index[last.name := last];
    }
  }

  lemma {:induction false} StartAllIndex(r: Running, ms: seq<MonitorConfig>, f: Faults)
    requires !StartedAll(r, ms, f).1
    ensures StartedAll(r, ms, f).0.index == PlusAll(r.index, ms)
    decreases |ms|
  {
    if ms != [] {
      StartAllIndex(r, ms[..|ms| - 1], f);
    }
  }

  /** After a reload without critical errors, a configured monitor runs its new configuration exactly when it is
      new, a compared field differs between the two configurations, or it ran the new one already. Otherwise it
      goes on with what it ran before: an edit of only its remediation or dependencies is not applied. */
  lemma {:induction false} EditAppliedIff(r: Running, o: MonitorMap, n: MonitorMap, d: Diff, sorted: seq<MonitorConfig>, f: Faults, k: string)
    requires Keyed(o) && Keyed(n) && IsDiff(o, n, d) && Matches(r, o) && k in n
    requires multiset(sorted) == multiset(d.added) && UniqueNames(sorted)
    requires !Reloaded(r, d, Sorted(sorted), f).1
    ensures var after := Reloaded(r, d, Sorted(sorted), f).0;
            && k in after.index && (k in o ==> k in r.index)
            && (after.index[k] == n[k] <==> k !in o || !SameSettings(o[k], n[k]) || r.index[k] == n[k])
            && (after.index[k] != n[k] ==> after.index[k] == r.index[k])
  {
    var r1 := StoppedAll(r, d.removed);
    var r2 := RestartedAll(r1, d.modified, f).0;
    assert r.index.Keys == o.Keys;
    StopAllIndex(r, o, d.removed);
    RestartAllIndex(r1, d.modified, f);
    StartAllIndex(r2, sorted, f);
    DiffNames(o, n, d);
    MinusAllValues(r.index, d.removed);
    ChangedAllValues(r1.index, n, d.modified);
    SortedMembers(sorted, d.added);
    PlusAllKeys(r2.index, sorted);
    PlusAllValues(r2.index, n, sorted);
  }

  /** A configuration that passes the validation before a reload, as far as monitor names and dependencies go. */
  ghost predicate Valid(monitors: seq<MonitorConfig>) {
    UniqueNames(monitors) && DependenciesExist(monitors) && Ranked(GraphOf(monitors))
  }

  lemma {:induction false} ValidPair(b: MonitorConfig, m: MonitorConfig)
    requires b.name != m.name && b.dependsOn == [] && (m.dependsOn == [] || m.dependsOn == [b.name])
    ensures Valid([b, m]) && ByName([b, m]) == map[b.name := b, m.name := m]
  {
    var both := [b, m];
    assert both[..1] == [b] && [b][..0] == [] && GraphOf([]) == map[] && ByName([]) == map[];
    assert GraphOf([b]) == map[][b.name := b.dependsOn] && ByName([b]) == map[][b.name := b];
    assert GraphOf(both) == map[b.name := b.dependsOn, m.name := m.dependsOn];
    assert Names(both) == {b.name, m.name} by { assert b in both && m in both; }
    hide GraphOf;
    assert IsRank(GraphOf(both), map[m.name := 1]) by {
      forall n, d | Edge(GraphOf(both), n, d) ensures n == m.name && d == b.name {}
    }
  }

  /** For every two monitors that depend on nothing, running as configured: making one depend on the other is a valid
      edit, its diff is empty, the reload succeeds, and the monitor goes on without the dependency. */
  lemma {:induction false} DependencyEditSkipped(b: MonitorConfig, m: MonitorConfig, f: Faults)
    requires b.name != m.name && b.dependsOn == [] && m.dependsOn == []
    ensures var edited := m.(dependsOn := [b.name]);
            var r := Running([b, m], map[b.name := b, m.name := m]);
            && Valid([b, m]) && Valid([b, edited])
            && Matches(r, ByName([b, m]))
            && IsDiff(ByName([b, m]), ByName([b, edited]), Diff([], [], []))
            && Reloaded(r, Diff([], [], []), Sorted([]), f) == (r, false)
            && r.index[m.name] == m != edited == ByName([b, edited])[m.name]
  {
    var edited := m.(dependsOn := [b.name]);
    ValidPair(b, m);
    ValidPair(b, edited);
    assert SameSettings(m, edited);
    hide SameSettings, Valid, ByName;
    assert b in [b, m] && m in [b, m];
    assert HasHandle([b, m], b.name) && HasHandle([b, m], m.name);
    assert forall k :: HasHandle([b, m], k) ==> k == b.name || k == m.name;
  }

  // ----- The reload object -----

  /** The part of the problem detector that owns the running monitors. */
  class MonitorSupervisor {
    var monitorHandles: seq<MonitorConfig>
    var monitorConfigIndex: MonitorMap
    var config: seq<MonitorConfig>

    ghost function Model(): Running reads this {
      Running(monitorHandles, monitorConfigIndex)
    }

    constructor (config: seq<MonitorConfig>)
      ensures Model() == Running([], map[]) && this.config == config
    {
      monitorHandles, monitorConfigIndex, this.config := [], map[], config;
    }

    /** The handle is gone even when stopping it fails. */
    method StopMonitorByName(name: string, f: Faults) returns (ok: bool)
      modifies this`monitorHandles, this`monitorConfigIndex
      ensures ok <==> HasHandle(old(monitorHandles), name) && name !in f.stop
      ensures Model() == Stopped(old(Model()), name)
    {
      var handles := monitorHandles;
      for i := 0 to |handles|
        invariant monitorHandles == handles && monitorConfigIndex == old(monitorConfigIndex)
        invariant forall k :: 0 <= k < i ==> handles[k].name != name
      {
        if handles[i].name == name {
          SpliceIsWithout(handles, name, i);
          monitorHandles := handles[..i] + handles[i + 1..];
          monitorConfigIndex := monitorConfigIndex - {name};
          assert handles[i] in handles;
          return name !in f.stop;
        }
      }
      return false;
    }

    method StartMonitor(m: MonitorConfig, f: Faults) returns (ok: bool)
      modifies this`monitorHandles, this`monitorConfigIndex
      ensures (Model(), !ok) == Started(old(Model()), m, f)
    {
      if m.name in f.create || m.name in f.start {
        return false;
      }
      monitorHandles := monitorHandles + [m];
      monitorConfigIndex := monitorConfigIndex[m.name := m];
      return true;
    }

    method StopRemoved(removed: seq<MonitorConfig>, f: Faults)
      modifies this`monitorHandles, this`monitorConfigIndex
      ensures Model() == StoppedAll(old(Model()), removed)
    {
      for i := 0 to |removed|
        invariant Model() == StoppedAll(old(Model()), removed[..i])
      {
        assert removed[..i + 1][..i] == removed[..i];
        var _ := StopMonitorByName(removed[i].name, f);
      }
      assert removed[..|removed|] == removed;
    }

    method RestartModified(modified: seq<Change>, f: Faults) returns (critical: bool)
      modifies this`monitorHandles, this`monitorConfigIndex
      ensures (Model(), critical) == RestartedAll(old(Model()), modified, f)
    {
      critical := false;
      for i := 0 to |modified|
        invariant (Model(), critical) == RestartedAll(old(Model()), modified[..i], f)
      {
        assert modified[..i + 1][..i] == modified[..i];
        var m := modified[i].after;
        var stopped := StopMonitorByName(m.name, f);
        if !stopped {
          critical := true;
          continue;
        }
        var started := StartMonitor(m, f);
        if !started {
          critical := true;
        }
      }
      assert modified[..|modified|] == modified;
    }

    method StartAdded(sorted: seq<MonitorConfig>, f: Faults) returns (critical: bool)
      modifies this`monitorHandles, this`monitorConfigIndex
      ensures (Model(), critical) == StartedAll(old(Model()), sorted, f)
    {
      critical := false;
      for i := 0 to |sorted|
        invariant (Model(), critical) == StartedAll(old(Model()), sorted[..i], f)
      {
        assert sorted[..i + 1][..i] == sorted[..i];
        var started := StartMonitor(sorted[i], f);
        if !started {
          critical := true;
        }
      }
      assert sorted[..|sorted|] == sorted;
    }

    /** The reload succeeds, and the configuration is adopted, exactly when nothing critical failed and the exporter and
        remediation phases did not (`othersFail`); then the running monitors match the new configuration. `sorted` is
        the start order of the added monitors. */
    method ApplyConfigReload(newMonitors: seq<MonitorConfig>, d: Diff, f: Faults, othersFail: bool)
      returns (ok: bool, ghost sorted: SortResult)
      modifies this
      ensures UniqueNames(d.added) ==> StartOrder(d.added, sorted)
      ensures Model() == Reloaded(old(Model()), d, sorted, f).0
      ensures ok <==> !othersFail && !Reloaded(old(Model()), d, sorted, f).1
      ensures config == if ok then newMonitors else old(config)
      ensures ok && IsDiff(ByName(old(config)), ByName(newMonitors), d) && Matches(old(Model()), ByName(old(config)))
              ==> Matches(Model(), ByName(newMonitors))
    {
      StopRemoved(d.removed, f);
      var critical := RestartModified(d.modified, f);
      var order := TopologicalSortMonitors(d.added);
      sorted := order;
      if order.CycleDetected? {
        critical := true;
      } else {
        var failed := StartAdded(order.monitors, f);
        critical := critical || failed;
      }
      assert (Model(), critical) == Reloaded(old(Model()), d, sorted, f);
      ok := !critical && !othersFail;
      hide Reloaded;
      if ok {
        if IsDiff(ByName(old(config)), ByName(newMonitors), d) && Matches(old(Model()), ByName(old(config))) {
          hide IsDiff, Matches;
          AdoptedMatches(old(Model()), old(config), newMonitors, d, sorted, f);
        }
        config := newMonitors;
      }
    }
  }

  /** The outcome of sorting uniquely named monitors by their dependencies. */
  ghost predicate StartOrder(added: seq<MonitorConfig>, sorted: SortResult) {
    && (sorted.Sorted? <==> Ranked(GraphOf(added)))
    && (sorted.Sorted? ==> multiset(sorted.monitors) == multiset(added) && InDependencyOrder(sorted.monitors) && UniqueNames(sorted.monitors))
  }

  lemma {:induction false} AdoptedMatches(r: Running, oldMonitors: seq<MonitorConfig>, newMonitors: seq<MonitorConfig>, d: Diff,
                                          sorted: SortResult, f: Faults)
    requires IsDiff(ByName(oldMonitors), ByName(newMonitors), d) && Matches(r, ByName(oldMonitors))
    requires StartOrder(d.added, sorted) && !Reloaded(r, d, sorted, f).1
    ensures Matches(Reloaded(r, d, sorted, f).0, ByName(newMonitors))
  {
    assert UniqueNames(d.added) && (sorted.CycleDetected? ==> Reloaded(r, d, sorted, f).1);
    hide Reloaded, IsDiff, Matches;
    ByNameKeyed(oldMonitors);
    ByNameKeyed(newMonitors);
    ReloadFollowsDiff(r, ByName(oldMonitors), ByName(newMonitors), d, sorted, f);
  }

  lemma {:induction false} SpliceIsWithout(handles: seq<MonitorConfig>, name: string, i: nat)
    requires i < |handles| && handles[i].name == name && forall k :: 0 <= k < i ==> handles[k].name != name
    ensures Without(handles, name) == handles[..i] + handles[i + 1..]
    decreases i
  {
    if i > 0 {
      SpliceIsWithout(handles[1..], name, i - 1);
      assert handles[..i] == [handles[0]] + handles[1..][..i - 1];
      assert handles[1..][i - 1 + 1..] == handles[i + 1..];
    }
  }
}
