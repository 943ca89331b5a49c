/** The two depth-first cycle checks: the three-colour search run at start-up (pkg/types/config.go) and
    the path-returning search run before a hot reload (pkg/reload/validator.go). */
module CycleValidation {
  import opened MonitorTypes
  import opened DependencyGraph
  import opened Collections
  import opened KahnSort

  type Colors = map<string, int>

  const WHITE := 0
  const GRAY := 1
  const BLACK := 2

  function Color(colors: Colors, n: string): int {
    if n in colors then colors[n] else WHITE
  }

  ghost predicate Settled(g: Graph, done: seq<string>) {
    forall j, d :: 0 <= j < |done| && Edge(g, done[j], d) ==> d in done[..j]
  }

  /** What both searches keep: gray is the current path, which follows dependencies, and black is a
      list of finished names, each after everything it depends on. */
  ghost predicate Searching(g: Graph, colors: Colors, path: seq<string>, done: seq<string>) {
    && (forall n :: n in colors ==> colors[n] in {WHITE, GRAY, BLACK})
    && (forall n :: Color(colors, n) == GRAY <==> n in path)
    && (forall n :: Color(colors, n) == BLACK <==> n in done)
    && Distinct(path) && Walk(g, path)
    && Distinct(done) && Settled(g, done)
  }

  /** `name` may be visited next: it is a start or a dependency of the last name on the path. */
  ghost predicate Reached(g: Graph, path: seq<string>, name: string) {
    path == [] || Edge(g, path[|path| - 1], name)
  }

  /** Names the search can meet: finite and closed under dependencies. */
  ghost predicate Universe(g: Graph, names: set<string>) {
    forall n, d :: n in names && Edge(g, n, d) ==> d in names
  }

  function White(colors: Colors, names: set<string>): set<string> {
    set n | n in names && Color(colors, n) == WHITE
  }

  lemma {:induction false} Enter(g: Graph, colors: Colors, path: seq<string>, done: seq<string>, name: string)
    requires Searching(g, colors, path, done) && Reached(g, path, name) && Color(colors, name) == WHITE
    ensures Searching(g, colors[name := GRAY], path + [name], done)
  {
    var path' := path + [name];
    forall i | 0 <= i < |path'| - 1 ensures Edge(g, path'[i], path'[i + 1]) {
      if i < |path| - 1 { assert Edge(g, path[i], path[i + 1]); }
    }
  }

  lemma {:induction false} Leave(g: Graph, colors: Colors, path: seq<string>, done: seq<string>, name: string)
    requires Searching(g, colors, path + [name], done)
    requires forall d :: Edge(g, name, d) ==> Color(colors, d) == BLACK
    ensures Searching(g, colors[name := BLACK], path, done + [name])
  {
    var path', done' := path + [name], done + [name];
    assert path'[|path|] == name;
    assert name in path';
    forall n ensures n in path <==> n in path' && n != name {
      if n in path {
        var i :| 0 <= i < |path| && path[i] == n;
        assert path'[i] != path'[|path|];
      }
    }
    assert Walk(g, path) by { SubwalkIsWalk(g, path', 0, |path|); assert path'[0..|path|] == path; }
    assert Distinct(path) by { assert path == path'[..|path|]; }
    forall j, d | 0 <= j < |done'| && Edge(g, done'[j], d) ensures d in done'[..j] {
      if j < |done| {
        assert done'[j] == done[j] && done'[..j] == done[..j];
      } else {
        assert done'[..j] == done;
      }
    }
  }

  lemma {:induction false} GrayClosesWalk(g: Graph, path: seq<string>, name: string, i: nat)
    requires Walk(g, path) && Reached(g, path, name) && i < |path| && path[i] == name
    ensures Walk(g, path + [name]) && ClosedWalk(g, path[i..] + [name])
  {
    var w := path + [name];
    forall k | 0 <= k < |w| - 1 ensures Edge(g, w[k], w[k + 1]) {
      if k < |path| - 1 { assert Edge(g, path[k], path[k + 1]); }
    }
    SubwalkIsWalk(g, w, i, |w|);
    assert w[i..] == path[i..] + [name];
  }

  lemma {:induction false} ColorKinds(g: Graph, colors: Colors, path: seq<string>, done: seq<string>, name: string)
    requires Searching(g, colors, path, done)
    ensures Color(colors, name) in {WHITE, GRAY, BLACK}
  {
  }

  /** Meeting a gray name: the path so far and that name end in a closed walk. */
  lemma {:induction false} GrayShowsCycle(g: Graph, colors: Colors, path: seq<string>, done: seq<string>, name: string)
    requires Searching(g, colors, path, done) && Reached(g, path, name) && Color(colors, name) == GRAY
    ensures exists k :: 0 <= k < |path| && ClosedWalk(g, (path + [name])[k..])
  {
    var i :| 0 <= i < |path| && path[i] == name;
    GrayClosesWalk(g, path, name, i);
    assert (path + [name])[i..] == path[i..] + [name];
  }

  lemma {:induction false} WhiteShrinks(colors: Colors, names: set<string>, name: string)
    requires name in names && Color(colors, name) == WHITE
    ensures |White(colors[name := GRAY], names)| < |White(colors, names)|
  {
    assert White(colors, names) == White(colors[name := GRAY], names) + {name};
  }

  /** Everything black and every key black: the finished list ranks the graph. */
  lemma {:induction false} AllBlackRanks(g: Graph, colors: Colors, done: seq<string>)
    requires Searching(g, colors, [], done) && forall n :: n in g ==> Color(colors, n) == BLACK
    ensures Ranked(g)
  {
    OrderRanks(g, done);
  }

  // ----- Start-up: detectCircularDependencies -----

  /** The closure of detectCircularDependencies: its captured state map and path slice. */
  class StartupSearch {
    const graph: Graph
    var state: Colors
    var path: seq<string>
    ghost var done: seq<string>

    constructor (graph: Graph)
      ensures this.graph == graph && Searching(graph, state, [], done) && path == [] && state == map[]
    {
      this.graph := graph;
      state, path, done := map[], [], [];
    }

    /** `cycle` is a walk that ends in a name it already passed. */
    ghost predicate ShowsCycle(cycle: seq<string>) {
      exists k :: 0 <= k < |cycle| && ClosedWalk(graph, cycle[k..])
    }

    method Visit(name: string, ghost names: set<string>) returns (err: Option<seq<string>>)
      requires Searching(graph, state, path, done) && Reached(graph, path, name)
      requires Universe(graph, names) && name in names
      modifies this
      ensures err.Some? ==> ShowsCycle(err.value)
      ensures err.None? ==> Searching(graph, state, path, done) && path == old(path)
      ensures err.None? ==> Color(state, name) == BLACK && White(state, names) <= old(White(state, names))
      ensures err.None? ==> forall n :: old(Color(state, n)) == BLACK ==> Color(state, n) == BLACK
      decreases |White(state, names)|
    {
      hide Searching, Walk, ClosedWalk;
      ColorKinds(graph, state, path, done, name);
      if Color(state, name) == BLACK {
        return None;
      }
      if Color(state, name) == GRAY {
        GrayShowsCycle(graph, state, path, done, name);
        return Some(path + [name]);
      }
      Enter(graph, state, path, done, name);
      WhiteShrinks(state, names, name);
      ghost var before := path;
      ghost var whites := White(state, names);
      state := state[name := GRAY];
      path := path + [name];
      var deps := Deps(graph, name);
      for j := 0 to |deps|
        invariant Searching(graph, state, path, done) && path == before + [name]
        invariant |White(state, names)| < |whites| && White(state, names) <= whites
        invariant forall n :: old(Color(state, n)) == BLACK ==> Color(state, n) == BLACK
        invariant forall i :: 0 <= i < j ==> Color(state, deps[i]) == BLACK
      {
        assert Edge(graph, name, deps[j]);
        ghost var here := White(state, names);
        err := Visit(deps[j], names);
        if err.Some? {
          return;
        }
        SubsetSize(White(state, names), here);
      }
      Leave(graph, state, before, done, name);
      state := state[name := BLACK];
      path := path[..|path| - 1];
      done := done + [name];
      err := None;
    }
  }

  datatype DependencyError = Missing(monitor: string, dependency: string) | Circular(cycle: seq<string>)

  method BuildDependencyGraph(monitors: seq<MonitorConfig>) returns (graph: Graph, exist: set<string>)
    ensures graph == GraphOf(monitors) && exist == Names(monitors)
  {
    graph, exist := map[], {};
    for i := 0 to |monitors|
      invariant graph == GraphOf(monitors[..i]) && exist == Names(monitors[..i])
    {
      assert monitors[..i + 1] == monitors[..i] + [monitors[i]];
      assert monitors[..i + 1][..i] == monitors[..i];
      exist := exist + {monitors[i].name};
      graph := graph[monitors[i].name := monitors[i].dependsOn];
    }
    assert monitors[..|monitors|] == monitors;
  }

  lemma {:induction false} GraphOfMember(monitors: seq<MonitorConfig>, n: string)
    ensures n in GraphOf(monitors) <==> n in Names(monitors)
    ensures n in GraphOf(monitors) ==> exists m :: m in monitors && m.name == n && m.dependsOn == GraphOf(monitors)[n]
  {
    if monitors != [] {
      var front, last := monitors[..|monitors| - 1], monitors[|monitors| - 1];
      assert monitors == front + [last];
      GraphOfMember(front, n);
    }
  }

  lemma {:induction false} ExistingDependenciesAreClosed(monitors: seq<MonitorConfig>)
    requires DependenciesExist(monitors)
    ensures Universe(GraphOf(monitors), Names(monitors))
  {
    forall n, d | n in Names(monitors) && Edge(GraphOf(monitors), n, d) ensures d in Names(monitors) {
      GraphOfMember(monitors, n);
    }
  }

  method FindMissing(monitors: seq<MonitorConfig>, exist: set<string>) returns (err: Option<DependencyError>)
    requires exist == Names(monitors)
    ensures err.None? <==> DependenciesExist(monitors)
    ensures err.Some? ==> err.value.Missing? && err.value.dependency !in exist
  {
    for i := 0 to |monitors|
      invariant forall k, d :: 0 <= k < i && d in monitors[k].dependsOn ==> d in exist
    {
      var deps := monitors[i].dependsOn;
      for j := 0 to |deps|
        invariant forall k :: 0 <= k < j ==> deps[k] in exist
      {
        if deps[j] !in exist {
          assert monitors[i] in monitors && deps[j] in monitors[i].dependsOn;
          return Some(Missing(monitors[i].name, deps[j]));
        }
      }
    }
    err := None;
  }

  /** No error exactly when every dependency exists and the graph has a rank; a reported cycle is a walk
      along dependencies that ends in a closed walk. */
  method DetectCircularDependencies(monitors: seq<MonitorConfig>) returns (err: Option<DependencyError>)
    ensures err.None? <==> DependenciesExist(monitors) && Ranked(GraphOf(monitors))
    ensures err.Some? && err.value.Circular? ==>
              exists k :: 0 <= k < |err.value.cycle| && ClosedWalk(GraphOf(monitors), err.value.cycle[k..])
  {
    var graph, exist := BuildDependencyGraph(monitors);
    err := FindMissing(monitors, exist);
    if err.Some? {
      return;
    }
    ExistingDependenciesAreClosed(monitors);
    var search := new StartupSearch(graph);
    for i := 0 to |monitors|
      invariant Searching(graph, search.state, search.path, search.done) && fresh(search)
      invariant search.path == [] && search.graph == graph
      invariant forall k :: 0 <= k < i ==> Color(search.state, monitors[k].name) == BLACK
    {
      if Color(search.state, monitors[i].name) == WHITE {
        search.path := [];
        assert monitors[i].name in exist;
        var cycle := search.Visit(monitors[i].name, exist);
        if cycle.Some? {
          ghost var k :| 0 <= k < |cycle.value| && ClosedWalk(graph, cycle.value[k..]);
          ClosedWalkRefutesRank(graph, cycle.value[k..]);
          return Some(Circular(cycle.value));
        }
      }
    }
    forall n | n in graph ensures Color(search.state, n) == BLACK {
      GraphOfMember(monitors, n);
    }
    AllBlackRanks(graph, search.state, search.done);
    err := None;
  }

  // ----- Reload: validateMonitorDependencies and detectCycle -----

  method IndexOnPath(path: seq<string>, node: string) returns (start: int)
    ensures start == -1 <==> node !in path
    ensures start != -1 ==> 0 <= start < |path| && path[start] == node
  {
    for i := 0 to |path|
      invariant node !in path[..i]
    {
      if path[i] == node {
        return i;
      }
      assert path[..i + 1] == path[..i] + [path[i]];
    }
    assert path[..|path|] == path;
    start := -1;
  }

  class ReloadSearch {
    const graph: Graph
    var visited: Colors
    ghost var done: seq<string>

    constructor (graph: Graph)
      ensures this.graph == graph && Searching(graph, visited, [], done) && visited == map[]
    {
      this.graph := graph;
      visited, done := map[], [];
    }

    /** Terminates on every finite graph, also along edges to monitors that do not exist. A list it
        returns is a closed walk; gray names are exactly those on `path` before and after. */
    method DetectCycle(node: string, path: seq<string>, ghost names: set<string>) returns (cycle: seq<string>)
      requires Searching(graph, visited, path, done) && Reached(graph, path, node)
      requires Universe(graph, names) && node in names
      modifies this
      ensures cycle != [] ==> ClosedWalk(graph, cycle)
      ensures cycle == [] ==> Searching(graph, visited, path, done)
      ensures cycle == [] ==> Color(visited, node) == BLACK && White(visited, names) <= old(White(visited, names))
      ensures cycle == [] ==> forall n :: old(Color(visited, n)) == BLACK ==> Color(visited, n) == BLACK
      decreases |White(visited, names)|
    {
      if Color(visited, node) == GRAY {
        var start := IndexOnPath(path, node);
        assert start != -1;  // a gray name is always on the path, so the search never falls through here
        if start != -1 {
          GrayClosesWalk(graph, path, node, start);
          return path[start..] + [node];
        }
      }
      if Color(visited, node) == BLACK {
        return [];
      }
      Enter(graph, visited, path, done, node);
      WhiteShrinks(visited, names, node);
      ghost var whites := White(visited, names);
      visited := visited[node := GRAY];
      var path' := path + [node];
      var neighbors := Deps(graph, node);
      for j := 0 to |neighbors|
        invariant Searching(graph, visited, path', done)
        invariant |White(visited, names)| < |whites| && White(visited, names) <= whites
        invariant forall n :: old(Color(visited, n)) == BLACK ==> Color(visited, n) == BLACK
        invariant forall i :: 0 <= i < j ==> Color(visited, neighbors[i]) == BLACK
      {
        assert Edge(graph, node, neighbors[j]);
        ghost var here := White(visited, names);
        cycle := DetectCycle(neighbors[j], path', names);
        if cycle != [] {
          return;
        }
        SubsetSize(White(visited, names), here);
      }
      Leave(graph, visited, path, done, node);
      visited := visited[node := BLACK];
      done := done + [node];
      cycle := [];
    }
  }

  /** The reload validator's graph leaves out monitors without dependencies. */
  function ReloadGraph(monitors: seq<MonitorConfig>): Graph {
    if monitors == [] then map[]
    else
      var last := monitors[|monitors| - 1];
      var g := ReloadGraph(monitors[..|monitors| - 1]);
      if last.dependsOn == [] then g else g[last.name := last.dependsOn]
  }

  lemma {:induction false} ReloadGraphDeps(monitors: seq<MonitorConfig>, n: string)
    requires UniqueNames(monitors)
    ensures Deps(ReloadGraph(monitors), n) == Deps(GraphOf(monitors), n)
    ensures n !in Names(monitors) ==> n !in ReloadGraph(monitors)
  {
    if monitors != [] {
      var front, last := monitors[..|monitors| - 1], monitors[|monitors| - 1];
      assert monitors == front + [last];
      ReloadGraphDeps(front, n);
      GraphOfMember(front, n);
    }
  }

  lemma {:induction false} ReloadGraphRanked(monitors: seq<MonitorConfig>)
    requires UniqueNames(monitors)
    ensures Ranked(ReloadGraph(monitors)) <==> Ranked(GraphOf(monitors))
  {
    var g, h := ReloadGraph(monitors), GraphOf(monitors);
    forall n, d ensures Edge(g, n, d) <==> Edge(h, n, d) {
      ReloadGraphDeps(monitors, n);
    }
    forall rank ensures IsRank(g, rank) <==> IsRank(h, rank) {
    }
  }

  function Mentioned(graph: Graph): set<string> {
    graph.Keys + set n, d | n in graph && d in graph[n] :: d
  }

  method BuildReloadGraph(monitors: seq<MonitorConfig>) returns (graph: Graph, exist: set<string>)
    ensures graph == ReloadGraph(monitors) && exist == Names(monitors)
  {
    graph, exist := map[], {};
    for i := 0 to |monitors|
      invariant graph == ReloadGraph(monitors[..i]) && exist == Names(monitors[..i])
    {
      assert monitors[..i + 1] == monitors[..i] + [monitors[i]];
      assert monitors[..i + 1][..i] == monitors[..i];
      exist := exist + {monitors[i].name};
      if |monitors[i].dependsOn| > 0 {
        graph := graph[monitors[i].name := monitors[i].dependsOn];
      }
    }
    assert monitors[..|monitors|] == monitors;
  }

  /** The third pass, over the graph's keys in whatever order the map yields them. */
  method FindCycle(graph: Graph) returns (cycle: seq<string>)
    ensures cycle == [] <==> Ranked(graph)
    ensures cycle != [] ==> ClosedWalk(graph, cycle)
  {
    var search := new ReloadSearch(graph);
    ghost var names := Mentioned(graph);
    var todo := graph.Keys;
    while todo != {}
      invariant todo <= graph.Keys && search.graph == graph && fresh(search)
      invariant Searching(graph, search.visited, [], search.done)
      invariant forall n :: n in graph && n !in todo ==> Color(search.visited, n) == BLACK
      decreases |todo|
    {
      var name :| name in todo;
      todo := todo - {name};
      if Color(search.visited, name) == WHITE {
        cycle := search.DetectCycle(name, [], names);
        if cycle != [] {
          ClosedWalkRefutesRank(graph, cycle);
          return;
        }
      }
    }
    AllBlackRanks(graph, search.visited, search.done);
    cycle := [];
  }

  method ValidateMonitorDependencies(monitors: seq<MonitorConfig>) returns (errors: seq<DependencyError>)
    ensures (exists e :: e in errors && e.Missing?) <==> !DependenciesExist(monitors)
    ensures UniqueNames(monitors) ==> ((exists e :: e in errors && e.Circular?) <==> !Ranked(GraphOf(monitors)))
    ensures forall e :: e in errors && e.Circular? ==> ClosedWalk(ReloadGraph(monitors), e.cycle)
  {
    var graph, exist := BuildReloadGraph(monitors);
    errors := [];
    for i := 0 to |monitors|
      invariant forall e :: e in errors ==> e.Missing?
      invariant errors == [] <==> forall k, d :: 0 <= k < i && d in monitors[k].dependsOn ==> d in exist
    {
      var deps := monitors[i].dependsOn;
      ghost var before := errors;
      for j := 0 to |deps|
        invariant forall e :: e in errors ==> e.Missing?
        invariant errors == [] <==> before == [] && forall k :: 0 <= k < j ==> deps[k] in exist
      {
        if deps[j] !in exist {
          errors := errors + [Missing(monitors[i].name, deps[j])];
        }
      }
    }
    ghost var missing := errors;
    assert missing == [] <==> DependenciesExist(monitors);
    assert missing != [] ==> missing[0] in missing;
    var cycle := FindCycle(graph);
    if cycle != [] {
      errors := errors + [Circular(cycle)];
      assert errors[|missing|] in errors;
    }
    assert missing != [] ==> missing[0] in errors;
    if UniqueNames(monitors) {
      ReloadGraphRanked(monitors);
    }
  }

  // ----- Agreement -----

  /** On uniquely named monitors whose dependencies exist, the three checks give the same answer,
      whatever order the reload check visits the graph in. */
  method ThreeChecksAgree(monitors: seq<MonitorConfig>) returns (kahn: bool, startup: bool, reload: bool)
    requires UniqueNames(monitors) && DependenciesExist(monitors)
    ensures kahn == startup == reload
    ensures kahn <==> !exists w :: ClosedWalk(GraphOf(monitors), w)
  {
    var sorted := TopologicalSortMonitors(monitors);
    var err := DetectCircularDependencies(monitors);
    var errors := ValidateMonitorDependencies(monitors);
    kahn, startup, reload := sorted.Sorted?, err.None?, |errors| == 0;
    RankedIffNoClosedWalk(GraphOf(monitors));
    if errors != [] {
      assert errors[0] in errors;
    }
  }
}
