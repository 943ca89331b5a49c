/** The start-up ordering of monitors: Kahn's algorithm, pkg/detector/detector.go. */
module KahnSort {
  import opened MonitorTypes
  import opened DependencyGraph
  import opened Collections

  datatype SortResult = Sorted(monitors: seq<MonitorConfig>) | CycleDetected

  type Successors = map<string, seq<string>>

  /** Occurrences in `deps` of names from `names`, repetitions counted. */
  function CountAmong(deps: seq<string>, names: set<string>): (n: nat)
  {
    if deps == [] then 0
    else CountAmong(deps[..|deps| - 1], names) + if deps[|deps| - 1] in names then 1 else 0
  }

  lemma {:induction false} CountAmongSplit(deps: seq<string>, names: set<string>, c: string)
    requires c in names
    ensures CountAmong(deps, names) == CountAmong(deps, names - {c}) + multiset(deps)[c]
  {
    if deps != [] {
      var front := deps[..|deps| - 1];
      assert deps == front + [deps[|deps| - 1]];
      CountAmongSplit(front, names, c);
    }
  }

  lemma {:induction false} CountAmongZero(deps: seq<string>, names: set<string>)
    ensures CountAmong(deps, names) == 0 <==> forall d :: d in deps ==> d !in names
  {
    if deps != [] {
      var front := deps[..|deps| - 1];
      assert deps == front + [deps[|deps| - 1]];
      CountAmongZero(front, names);
    }
  }

  /** How often `n` is listed as a successor of `d`. */
  function Listed(successors: Successors, d: string, n: string): nat {
    if d in successors then multiset(successors[d])[n] else 0
  }

  /** How often `n` names `d` as a dependency. */
  function Uses(g: Graph, n: string, d: string): nat {
    multiset(Deps(g, n))[d]
  }

  ghost predicate DegreesCounted(done: Graph, names: set<string>, inDegree: map<string, int>) {
    inDegree.Keys == names && forall n :: n in names ==> inDegree[n] == CountAmong(Deps(done, n), names)
  }

  ghost predicate SuccessorsListed(done: Graph, names: set<string>, successors: Successors) {
    forall d, n :: Listed(successors, d, n) == if d in names then Uses(done, n, d) else 0
  }

  /** In-degree and successor bookkeeping agree with the dependencies of `done`. */
  ghost predicate Counted(done: Graph, names: set<string>, inDegree: map<string, int>, successors: Successors) {
    DegreesCounted(done, names, inDegree) && SuccessorsListed(done, names, successors)
  }

  /** `after` has one more dependency entry, `dep` of `name`. */
  ghost predicate OneMore(before: Graph, after: Graph, name: string, dep: string) {
    && Deps(after, name) == Deps(before, name) + [dep]
    && forall n :: n != name ==> Deps(after, n) == Deps(before, n)
  }

  lemma {:induction false} CountDegree(before: Graph, after: Graph, names: set<string>, inDegree: map<string, int>,
                    name: string, dep: string)
    requires DegreesCounted(before, names, inDegree) && OneMore(before, after, name, dep) && name in names
    ensures name in inDegree
    ensures DegreesCounted(after, names, if dep in names then inDegree[name := inDegree[name] + 1] else inDegree)
  {
    var deps := Deps(before, name);
    assert (deps + [dep])[..|deps|] == deps;
    assert CountAmong(deps + [dep], names) == CountAmong(deps, names) + if dep in names then 1 else 0;
  }

  function Appended(successors: Successors, dep: string, name: string): Successors {
    successors[dep := (if dep in successors then successors[dep] else []) + [name]]
  }

  lemma {:induction false} ListSuccessor(before: Graph, after: Graph, names: set<string>, successors: Successors,
                      name: string, dep: string)
    requires SuccessorsListed(before, names, successors) && OneMore(before, after, name, dep)
    ensures SuccessorsListed(after, names, if dep in names then Appended(successors, dep, name) else successors)
  {
    var successors' := if dep in names then Appended(successors, dep, name) else successors;
    forall d, n ensures Listed(successors', d, n) == if d in names then Uses(after, n, d) else 0 {
      assert Listed(successors, d, n) == if d in names then Uses(before, n, d) else 0;
      assert Uses(after, n, d) == Uses(before, n, d) + if n == name && d == dep then 1 else 0;
      assert Listed(successors', d, n) ==
             Listed(successors, d, n) + if dep in names && d == dep && n == name then 1 else 0;
    }
  }

  lemma {:induction false} PrefixGraph(done: Graph, name: string, deps: seq<string>, j: nat)
    requires j < |deps|
    ensures OneMore(done[name := deps[..j]], done[name := deps[..j + 1]], name, deps[j])
  {
  }

  lemma {:induction false} SameDeps(g: Graph, h: Graph, names: set<string>, inDegree: map<string, int>, successors: Successors)
    requires Counted(g, names, inDegree, successors) && forall n :: Deps(g, n) == Deps(h, n)
    ensures Counted(h, names, inDegree, successors)
  {
    forall d, n ensures Listed(successors, d, n) == if d in names then Uses(h, n, d) else 0 {
      assert Uses(g, n, d) == Uses(h, n, d);
    }
  }

  /** Successor lists name only monitors of the list. */
  ghost predicate SuccessorsKnown(successors: Successors, names: set<string>) {
    forall d, n :: d in successors && n in successors[d] ==> n in names
  }

  /** The dependency loop of one monitor. The counts mean something if names are `unique`. */
  method CountDependencies(m: MonitorConfig, names: set<string>, inDegree: map<string, int>,
                           successors: Successors, ghost done: Graph, ghost unique: bool)
    returns (inDegree': map<string, int>, successors': Successors)
    requires m.name in names && inDegree.Keys == names && SuccessorsKnown(successors, names)
    requires unique ==> Counted(done, names, inDegree, successors) && m.name !in done
    ensures inDegree'.Keys == names && SuccessorsKnown(successors', names)
    ensures unique ==> Counted(done[m.name := m.dependsOn], names, inDegree', successors')
  {
    hide DegreesCounted, SuccessorsListed, OneMore;
    inDegree', successors' := inDegree, successors;
    var deps := m.dependsOn;
    if unique { SameDeps(done, done[m.name := deps[..0]], names, inDegree, successors); }
    for j := 0 to |deps|
      invariant inDegree'.Keys == names && SuccessorsKnown(successors', names)
      invariant unique ==> Counted(done[m.name := deps[..j]], names, inDegree', successors')
    {
      if unique {
        ghost var before, after := done[m.name := deps[..j]], done[m.name := deps[..j + 1]];
        PrefixGraph(done, m.name, deps, j);
        CountDegree(before, after, names, inDegree', m.name, deps[j]);
        ListSuccessor(before, after, names, successors', m.name, deps[j]);
      }
      if deps[j] in names {
        inDegree' := inDegree'[m.name := inDegree'[m.name] + 1];
        var listed := if deps[j] in successors' then successors'[deps[j]] else [];
        successors' := successors'[deps[j] := listed + [m.name]];
      }
    }
    assert deps[..|deps|] == deps;
  }

  // ----- The main loop -----

  /** Everything the main loop keeps. `rest` is the part of the current successor list whose
      in-degrees are still to be decremented. */
  ghost predicate Draining(g: Graph, emitted: seq<string>, queue: seq<string>, inDegree: map<string, int>,
                           rest: seq<string>) {
    && Distinct(emitted + queue)
    && DependenciesFirst(g, emitted)
    && inDegree.Keys == g.Keys
    && (forall n :: n in rest || n in emitted + queue ==> n in g)
    && (forall n :: n in g ==> inDegree[n] == CountAmong(g[n], g.Keys - Elements(emitted)) + multiset(rest)[n])
    && (forall n :: n in g ==> (inDegree[n] == 0 <==> n in emitted + queue))
  }

  lemma {:induction false} EmitKeepsOrder(g: Graph, emitted: seq<string>, queue: seq<string>, inDegree: map<string, int>)
    requires Draining(g, emitted, queue, inDegree, []) && queue != []
    ensures DependenciesFirst(g, emitted + [queue[0]])
  {
    var order := emitted + [queue[0]];
    assert queue[0] in emitted + queue;
    forall j, d | 0 <= j < |order| && Edge(g, order[j], d) ensures d !in g || d in order[..j] {
      if j < |emitted| {
        assert order[j] == emitted[j] && order[..j] == emitted[..j];
      } else {
        assert order[..j] == emitted;
        CountAmongZero(g[queue[0]], g.Keys - Elements(emitted));
      }
    }
  }

  lemma {:induction false} HeadNotEmitted(emitted: seq<string>, queue: seq<string>)
    requires Distinct(emitted + queue) && queue != []
    ensures queue[0] !in emitted
  {
    var all := emitted + queue;
    forall i | 0 <= i < |emitted| ensures emitted[i] != queue[0] {
      assert all[i] != all[|emitted|];
    }
  }

  /** Popping the queue and appending to the output. */
  lemma {:induction false} Emit(g: Graph, emitted: seq<string>, queue: seq<string>, inDegree: map<string, int>, succs: seq<string>)
    requires Draining(g, emitted, queue, inDegree, []) && queue != []
    requires forall n :: multiset(succs)[n] == if n in g then multiset(g[n])[queue[0]] else 0
    ensures Draining(g, emitted + [queue[0]], queue[1..], inDegree, succs)
  {
    var cur := queue[0];
    EmitKeepsOrder(g, emitted, queue, inDegree);
    assert emitted + queue == (emitted + [cur]) + queue[1..];
    assert cur !in emitted by { HeadNotEmitted(emitted, queue); }
    assert g.Keys - Elements(emitted + [cur]) == g.Keys - Elements(emitted) - {cur};
    forall n | n in g
      ensures inDegree[n] == CountAmong(g[n], g.Keys - Elements(emitted + [cur])) + multiset(succs)[n]
    {
      CountAmongSplit(g[n], g.Keys - Elements(emitted), cur);
    }
    forall n | n in succs ensures n in g {
      assert multiset(succs)[n] > 0;
    }
  }

  /** One decrement of the successor loop. */
  lemma {:induction false} Decrement(g: Graph, emitted: seq<string>, queue: seq<string>, inDegree: map<string, int>,
                  n: string, rest: seq<string>)
    requires Draining(g, emitted, queue, inDegree, [n] + rest)
    ensures n in inDegree
    ensures
      var left := inDegree[n] - 1;
      Draining(g, emitted, if left == 0 then queue + [n] else queue, inDegree[n := left], rest)
  {
    assert n in [n] + rest;
    assert multiset([n] + rest) == multiset{n} + multiset(rest);
    assert inDegree[n] >= 1;
    assert emitted + (queue + [n]) == (emitted + queue) + [n];
  }

  // ----- The whole sort -----

  /** Every dependency that is in the list comes strictly earlier. */
  ghost predicate InDependencyOrder(monitors: seq<MonitorConfig>) {
    forall i, j :: 0 <= i < |monitors| && 0 <= j < |monitors| && monitors[i].name in monitors[j].dependsOn ==> i < j
  }

  function NamesOf(monitors: seq<MonitorConfig>): (names: seq<string>)
    ensures |names| == |monitors|
    ensures forall i :: 0 <= i < |names| ==> names[i] == monitors[i].name
  {
    seq(|monitors|, i requires 0 <= i < |monitors| => monitors[i].name)
  }

  lemma {:induction false} NamesOfAppend(monitors: seq<MonitorConfig>, m: MonitorConfig)
    ensures NamesOf(monitors + [m]) == NamesOf(monitors) + [m.name]
  {
  }

  /** Output and bookkeeping when the queue has run dry with everything emitted. */
  lemma {:induction false} FullOutputSorted(monitors: seq<MonitorConfig>, sorted: seq<MonitorConfig>, inDegree: map<string, int>)
    requires UniqueNames(monitors) && |sorted| == |monitors|
    requires Draining(GraphOf(monitors), NamesOf(sorted), [], inDegree, [])
    requires forall m :: m in sorted ==> m in monitors
    ensures Ranked(GraphOf(monitors)) && multiset(sorted) == multiset(monitors) && InDependencyOrder(sorted) && UniqueNames(sorted)
  {
    var g, order := GraphOf(monitors), NamesOf(sorted);
    GraphOfUnique(monitors);
    assert order + [] == order;
    hide CountAmong, GraphOf, Ranked, IsRank;
    EmittedAll(monitors, order);
    OrderRanks(g, order);
    OutputIsPermutation(monitors, sorted);
    OutputInOrder(monitors, sorted);
  }

  lemma {:induction false} OutputIsPermutation(monitors: seq<MonitorConfig>, sorted: seq<MonitorConfig>)
    requires UniqueNames(monitors) && Distinct(NamesOf(sorted)) && Elements(NamesOf(sorted)) == Names(monitors)
    requires forall m :: m in sorted ==> m in monitors
    ensures multiset(sorted) == multiset(monitors) && UniqueNames(sorted)
  {
    var order := NamesOf(sorted);
    forall m | m in monitors ensures m in sorted {
      assert m.name in Elements(order);
      var k :| 0 <= k < |order| && order[k] == m.name;
      assert sorted[k] in monitors;
    }
    forall i, j | 0 <= i < j < |sorted| ensures sorted[i].name != sorted[j].name {
      assert order[i] != order[j];
    }
    SameMembersArePermutation(sorted, monitors);
  }

  lemma {:induction false} OutputInOrder(monitors: seq<MonitorConfig>, sorted: seq<MonitorConfig>)
    requires UniqueNames(monitors) && Distinct(NamesOf(sorted)) && DependenciesFirst(GraphOf(monitors), NamesOf(sorted))
    requires forall m :: m in sorted ==> m in monitors
    ensures InDependencyOrder(sorted)
  {
    var order := NamesOf(sorted);
    GraphOfUnique(monitors);
    hide GraphOf;
    forall i, j | 0 <= i < |sorted| && 0 <= j < |sorted| && sorted[i].name in sorted[j].dependsOn ensures i < j {
      assert sorted[i] in sorted && sorted[j] in sorted;
      assert Edge(GraphOf(monitors), order[j], order[i]);
      var k :| 0 <= k < j && order[..j][k] == order[i];
      assert order[k] == order[i];
    }
  }

  lemma {:induction false} EmittedAll(monitors: seq<MonitorConfig>, order: seq<string>)
    requires UniqueNames(monitors) && Distinct(order) && |order| == |monitors|
    requires Elements(order) <= Names(monitors)
    ensures Elements(order) == Names(monitors)
  {
    DistinctSize(order);
    DistinctSize(NamesOf(monitors));
    assert Elements(NamesOf(monitors)) == Names(monitors);
    SubsetSize(Elements(order), Names(monitors));
  }

  /** What is left when the queue runs dry early is stuck, so the graph has a cycle. */
  lemma {:induction false} ShortOutputHasCycle(monitors: seq<MonitorConfig>, emitted: seq<string>, inDegree: map<string, int>)
    requires UniqueNames(monitors) && |emitted| != |monitors|
    requires Draining(GraphOf(monitors), emitted, [], inDegree, [])
    ensures !Ranked(GraphOf(monitors))
  {
    var g := GraphOf(monitors);
    GraphOfUnique(monitors);
    assert emitted + [] == emitted;
    var left := g.Keys - Elements(emitted);
    hide CountAmong, GraphOf, IsRank, DependenciesFirst;
    assert Elements(emitted) <= Names(monitors);
    assert left != {} by { SomeNotEmitted(monitors, emitted); }
    forall n {:trigger DependsInto(g, n, left)} | n in left ensures DependsInto(g, n, left) {
      CountAmongZero(g[n], left);
      assert n !in emitted;
      var d :| d in g[n] && d in left;
      assert Edge(g, n, d);
    }
    forall rank ensures !IsRank(g, rank) {
      StuckHasNoRank(g, left, rank);
    }
  }

  lemma {:induction false} SomeNotEmitted(monitors: seq<MonitorConfig>, emitted: seq<string>)
    requires UniqueNames(monitors) && Distinct(emitted) && |emitted| != |monitors|
    requires Elements(emitted) <= Names(monitors)
    ensures Names(monitors) - Elements(emitted) != {}
  {
    DistinctSize(emitted);
    DistinctSize(NamesOf(monitors));
    assert Elements(NamesOf(monitors)) == Names(monitors);
    assert Names(monitors) == Elements(emitted) + (Names(monitors) - Elements(emitted));
  }

  method InitDegrees(monitors: seq<MonitorConfig>) returns (nameSet: set<string>, inDegree: map<string, int>)
    ensures nameSet == Names(monitors) == inDegree.Keys
    ensures forall n :: n in inDegree ==> inDegree[n] == 0
  {
    nameSet, inDegree := {}, map[];
    for i := 0 to |monitors|
      invariant nameSet == Names(monitors[..i]) == inDegree.Keys
      invariant forall n :: n in inDegree ==> inDegree[n] == 0
    {
      assert monitors[..i + 1] == monitors[..i] + [monitors[i]];
      nameSet := nameSet + {monitors[i].name};
      if monitors[i].name !in inDegree {
        inDegree := inDegree[monitors[i].name := 0];
      }
    }
    assert monitors[..|monitors|] == monitors;
  }

  lemma {:induction false} NextMonitor(monitors: seq<MonitorConfig>, i: nat)
    requires UniqueNames(monitors) && i < |monitors|
    ensures monitors[i].name in Names(monitors) && monitors[i].name !in GraphOf(monitors[..i])
    ensures GraphOf(monitors[..i + 1]) == GraphOf(monitors[..i])[monitors[i].name := monitors[i].dependsOn]
  {
    assert monitors[..i + 1][..i] == monitors[..i];
    GraphOfUnique(monitors[..i]);
  }

  method BuildGraph(monitors: seq<MonitorConfig>) returns (inDegree: map<string, int>, successors: Successors)
    ensures inDegree.Keys == Names(monitors) && SuccessorsKnown(successors, Names(monitors))
    ensures UniqueNames(monitors) ==> Counted(GraphOf(monitors), Names(monitors), inDegree, successors)
  {
    var nameSet;
    nameSet, inDegree := InitDegrees(monitors);
    successors := map[];
    assert GraphOf(monitors[..0]) == map[];
    ghost var unique := UniqueNames(monitors);
    hide DegreesCounted, SuccessorsListed, GraphOf, SuccessorsKnown;
    for i := 0 to |monitors|
      invariant inDegree.Keys == nameSet && SuccessorsKnown(successors, nameSet)
      invariant unique ==> Counted(GraphOf(monitors[..i]), nameSet, inDegree, successors)
    {
      assert monitors[i].name in nameSet;
      if unique { NextMonitor(monitors, i); }
      hide UniqueNames;
      inDegree, successors := CountDependencies(monitors[i], nameSet, inDegree, successors, GraphOf(monitors[..i]), unique);
    }
    assert monitors[..|monitors|] == monitors;
  }

  method SeedQueue(monitors: seq<MonitorConfig>, inDegree: map<string, int>) returns (queue: seq<string>)
    requires inDegree.Keys == Names(monitors)
    ensures UniqueNames(monitors) ==> Distinct(queue)
    ensures forall n :: n in queue <==> n in inDegree && inDegree[n] == 0
  {
    queue := [];
    for i := 0 to |monitors|
      invariant UniqueNames(monitors) ==> Distinct(queue)
      invariant forall n :: n in queue <==> n in Names(monitors[..i]) && inDegree[n] == 0
    {
      assert monitors[..i + 1] == monitors[..i] + [monitors[i]];
      if inDegree[monitors[i].name] == 0 {
        queue := queue + [monitors[i].name];
      }
    }
    assert monitors[..|monitors|] == monitors;
  }

  method IndexByName(monitors: seq<MonitorConfig>) returns (byName: map<string, MonitorConfig>)
    ensures byName.Keys == Names(monitors)
    ensures forall n :: n in byName ==> byName[n] in monitors && byName[n].name == n
  {
    byName := map[];
    for i := 0 to |monitors|
      invariant byName.Keys == Names(monitors[..i])
      invariant forall n :: n in byName ==> byName[n] in monitors && byName[n].name == n
    {
      assert monitors[..i + 1] == monitors[..i] + [monitors[i]];
      byName := byName[monitors[i].name := monitors[i]];
    }
    assert monitors[..|monitors|] == monitors;
  }

  lemma {:induction false} StartDraining(g: Graph, queue: seq<string>, inDegree: map<string, int>, successors: Successors)
    requires Counted(g, g.Keys, inDegree, successors) && Distinct(queue)
    requires forall n :: n in queue <==> n in inDegree && inDegree[n] == 0
    ensures Draining(g, [], queue, inDegree, [])
  {
    assert [] + queue == queue;
    assert g.Keys - Elements([]) == g.Keys;
  }

  function Waiting(inDegree: map<string, int>): set<string> {
    set n | n in inDegree && inDegree[n] > 0
  }

  /** Queueing a name takes it off the waiting ones, also when repeated names push an in-degree below zero. */
  lemma {:induction false} DecrementWaits(inDegree: map<string, int>, n: string)
    requires n in inDegree
    ensures var after := inDegree[n := inDegree[n] - 1];
            |Waiting(after)| + (if after[n] == 0 then 1 else 0) <= |Waiting(inDegree)|
  {
    var after := inDegree[n := inDegree[n] - 1];
    if after[n] == 0 {
      assert Waiting(inDegree) == Waiting(after) + {n};
    } else {
      assert Waiting(after) == Waiting(inDegree);
    }
  }

  /** The successor loop after `cur` was emitted. */
  method DrainSuccessors(ghost g: Graph, ghost emitted: seq<string>, succs: seq<string>, queue: seq<string>,
                         inDegree: map<string, int>, ghost unique: bool)
    returns (queue': seq<string>, inDegree': map<string, int>)
    requires (forall n :: n in queue ==> n in inDegree) && (forall n :: n in succs ==> n in inDegree)
    requires unique ==> Draining(g, emitted, queue, inDegree, succs)
    ensures inDegree'.Keys == inDegree.Keys && forall n :: n in queue' ==> n in inDegree'
    ensures |queue'| + |Waiting(inDegree')| <= |queue| + |Waiting(inDegree)|
    ensures unique ==> Draining(g, emitted, queue', inDegree', [])
  {
    hide Draining, Waiting;
    queue', inDegree' := queue, inDegree;
    for j := 0 to |succs|
      invariant inDegree'.Keys == inDegree.Keys && forall n :: n in queue' ==> n in inDegree'
      invariant |queue'| + |Waiting(inDegree')| <= |queue| + |Waiting(inDegree)|
      invariant unique ==> Draining(g, emitted, queue', inDegree', succs[j..])
    {
      assert succs[j] in succs;
      if unique {
        assert succs[j..] == [succs[j]] + succs[j + 1..];
        Decrement(g, emitted, queue', inDegree', succs[j], succs[j + 1..]);
      }
      DecrementWaits(inDegree', succs[j]);
      inDegree' := inDegree'[succs[j] := inDegree'[succs[j]] - 1];
      if inDegree'[succs[j]] == 0 {
        queue' := queue' + [succs[j]];
      }
    }
    assert succs[|succs|..] == [];
  }

  lemma {:induction false} HeadIsKnown(g: Graph, emitted: seq<string>, queue: seq<string>, inDegree: map<string, int>,
                    successors: Successors, succs: seq<string>)
    requires Draining(g, emitted, queue, inDegree, []) && queue != []
    requires SuccessorsListed(g, g.Keys, successors)
    requires succs == if queue[0] in successors then successors[queue[0]] else []
    ensures queue[0] in g
    ensures forall n :: multiset(succs)[n] == if n in g then multiset(g[n])[queue[0]] else 0
  {
    assert queue[0] in emitted + queue;
    forall n ensures multiset(succs)[n] == if n in g then multiset(g[n])[queue[0]] else 0 {
      assert multiset(succs)[n] == Listed(successors, queue[0], n) == Uses(g, n, queue[0]);
    }
  }

  /** For uniquely named monitors a successful sort is a permutation of the input with every in-list dependency
      strictly earlier, and the sort succeeds exactly when the graph has a rank. It terminates on every list. */
  method TopologicalSortMonitors(monitors: seq<MonitorConfig>) returns (r: SortResult)
    ensures UniqueNames(monitors) ==> (r.Sorted? <==> Ranked(GraphOf(monitors)))
    ensures UniqueNames(monitors) && r.Sorted? ==> multiset(r.monitors) == multiset(monitors)
    ensures UniqueNames(monitors) && r.Sorted? ==> InDependencyOrder(r.monitors) && UniqueNames(r.monitors)
    ensures r.Sorted? ==> |r.monitors| == |monitors| && forall m :: m in r.monitors ==> m in monitors
  {
    ghost var g := GraphOf(monitors);
    ghost var unique := UniqueNames(monitors);
    if unique { GraphOfUnique(monitors); }
    var inDegree, successors := BuildGraph(monitors);
    var queue := SeedQueue(monitors, inDegree);
    var byName := IndexByName(monitors);
    var sorted := [];
    ghost var emitted := [];
    if unique { StartDraining(g, queue, inDegree, successors); }
    hide Draining, DegreesCounted, GraphOf, Ranked, InDependencyOrder, NamesOf, UniqueNames, Waiting;
    while queue != []
      invariant unique ==> Draining(g, emitted, queue, inDegree, []) && emitted == NamesOf(sorted)
      invariant inDegree.Keys == Names(monitors) && forall n :: n in queue ==> n in inDegree
      invariant forall m :: m in sorted ==> m in monitors
      decreases |queue| + |Waiting(inDegree)|
    {
      var cur := queue[0];
      var succs := if cur in successors then successors[cur] else [];
      if unique {
        HeadIsKnown(g, emitted, queue, inDegree, successors, succs);
        Emit(g, emitted, queue, inDegree, succs);
        NamesOfAppend(sorted, byName[cur]);
      }
      sorted := sorted + [byName[cur]];
      emitted := emitted + [cur];
      queue, inDegree := DrainSuccessors(g, emitted, succs, queue[1..], inDegree, unique);
    }
    if |sorted| != |monitors| {
      if unique { ShortOutputHasCycle(monitors, emitted, inDegree); }
      r := CycleDetected;
    } else {
      if unique { FullOutputSorted(monitors, sorted, inDegree); }
      r := Sorted(sorted);
    }
  }
}
