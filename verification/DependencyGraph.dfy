/** The monitor dependency graph and what it means for it to be acyclic. The three cycle checks
    of the program (KahnSort, CycleValidation) are all proved against these definitions. */
module DependencyGraph {
  import opened MonitorTypes

  /** Monitor name to the names it depends on. A name may occur as a dependency without being a key. */
  type Graph = map<string, seq<string>>

  function Deps(g: Graph, n: string): seq<string> {
    if n in g then g[n] else []
  }

  ghost predicate Edge(g: Graph, n: string, d: string) {
    d in Deps(g, n)
  }

  function GraphOf(monitors: seq<MonitorConfig>): (g: Graph)
  {
    if monitors == [] then map[]
    else
      var last := monitors[|monitors| - 1];
      GraphOf(monitors[..|monitors| - 1])[last.name := last.dependsOn]
  }

  lemma {:induction false} GraphOfUnique(monitors: seq<MonitorConfig>)
    requires UniqueNames(monitors)
    ensures GraphOf(monitors).Keys == Names(monitors)
    ensures forall m :: m in monitors ==> m.name in GraphOf(monitors) && GraphOf(monitors)[m.name] == m.dependsOn
  {
    if monitors != [] {
      var front := monitors[..|monitors| - 1];
      var last := monitors[|monitors| - 1];
      GraphOfUnique(front);
      assert monitors == front + [last];
      assert Names(monitors) == Names(front) + {last.name};
    }
  }

  ghost predicate DependenciesExist(monitors: seq<MonitorConfig>) {
    forall m, d :: m in monitors && d in m.dependsOn ==> d in Names(monitors)
  }

  // ----- Acyclicity, two ways -----

  function RankOf(rank: map<string, nat>, n: string): nat {
    if n in rank then rank[n] else 0
  }

  ghost predicate IsRank(g: Graph, rank: map<string, nat>) {
    forall n, d :: Edge(g, n, d) ==> RankOf(rank, d) < RankOf(rank, n)
  }

  /** Some rank strictly decreases along every dependency. */
  ghost predicate Ranked(g: Graph) {
    exists rank :: IsRank(g, rank)
  }

  ghost predicate Walk(g: Graph, w: seq<string>) {
    forall i :: 0 <= i < |w| - 1 ==> Edge(g, w[i], w[i + 1])
  }

  ghost predicate ClosedWalk(g: Graph, w: seq<string>) {
    |w| >= 2 && w[0] == w[|w| - 1] && Walk(g, w)
  }

  lemma {:induction false} SubwalkIsWalk(g: Graph, w: seq<string>, i: nat, j: nat)
    requires Walk(g, w) && i <= j <= |w|
    ensures Walk(g, w[i..j])
  {
    var v := w[i..j];
    forall k | 0 <= k < |v| - 1 ensures Edge(g, v[k], v[k + 1]) {
      assert Edge(g, w[i + k], w[i + k + 1]);
    }
  }

  lemma {:induction false} RankDecreasesAlongWalk(g: Graph, rank: map<string, nat>, w: seq<string>, k: nat)
    requires IsRank(g, rank) && Walk(g, w) && k < |w|
    ensures RankOf(rank, w[k]) + k <= RankOf(rank, w[0])
  {
    if k > 0 {
      RankDecreasesAlongWalk(g, rank, w, k - 1);
      assert Edge(g, w[k - 1], w[k - 1 + 1]);
    }
  }

  lemma {:induction false} ClosedWalkRefutesRank(g: Graph, w: seq<string>)
    requires ClosedWalk(g, w)
    ensures !Ranked(g)
  {
    if Ranked(g) {
      var rank :| IsRank(g, rank);
      RankDecreasesAlongWalk(g, rank, w, |w| - 1);
    }
  }

  ghost predicate DependsInto(g: Graph, n: string, names: set<string>) {
    exists d :: d in names && Edge(g, n, d)
  }

  /** Every member of `stuck` depends on a member. */
  ghost predicate Stuck(g: Graph, stuck: set<string>) {
    stuck != {} && forall n {:trigger DependsInto(g, n, stuck)} :: n in stuck ==> DependsInto(g, n, stuck)
  }

  lemma {:induction false} StuckHasNoRank(g: Graph, stuck: set<string>, rank: map<string, nat>)
    requires Stuck(g, stuck)
    ensures !IsRank(g, rank)
  {
    var low := LowestRanked(rank, stuck);
    assert DependsInto(g, low, stuck);
    var d :| d in stuck && Edge(g, low, d);
  }

  lemma {:induction false} LowestRanked(rank: map<string, nat>, names: set<string>) returns (low: string)
    requires names != {}
    ensures low in names && forall n :: n in names ==> RankOf(rank, low) <= RankOf(rank, n)
    decreases |names|
  {
    var n :| n in names;
    if names == {n} {
      low := n;
    } else {
      var rest := names - {n};
      assert names == rest + {n};
      low := LowestRanked(rank, rest);
      if RankOf(rank, n) < RankOf(rank, low) { low := n; }
    }
  }

  /** What peeling keeps: the ranked names depend only on lower-ranked ones, never on what is left. */
  ghost predicate Peeled(g: Graph, left: set<string>, rank: map<string, nat>, top: nat) {
    && g.Keys <= left + rank.Keys
    && (forall n :: n in rank ==> n !in left && rank[n] <= top)
    && (forall n, d :: n in rank && Edge(g, n, d) ==> d !in left && RankOf(rank, d) < rank[n])
  }

  lemma {:induction false} PeelOne(g: Graph, left: set<string>, rank: map<string, nat>, top: nat, free: string)
    requires Peeled(g, left, rank, top) && free in left && !DependsInto(g, free, left)
    ensures Peeled(g, left - {free}, rank[free := top + 1], top + 1)
  {
    forall n, d | n in rank[free := top + 1] && Edge(g, n, d)
      ensures d !in left && RankOf(rank[free := top + 1], d) < rank[free := top + 1][n]
    {
      assert n == free ==> d !in left;
    }
  }

  /** Peeling off names that depend on nothing left either ranks the graph or ends in a stuck set. */
  lemma {:induction false} PeelOrStuck(g: Graph, left: set<string>, rank: map<string, nat>, top: nat)
    returns (full: map<string, nat>, stuck: set<string>)
    requires Peeled(g, left, rank, top)
    ensures if stuck == {} then IsRank(g, full) else Stuck(g, stuck)
    decreases |left|
  {
    full, stuck := rank, left;
    if left != {} {
      if free :| free in left && !DependsInto(g, free, left) {
        PeelOne(g, left, rank, top, free);
        full, stuck := PeelOrStuck(g, left - {free}, rank[free := top + 1], top + 1);
      }
    } else {
      forall n, d | Edge(g, n, d) ensures RankOf(rank, d) < RankOf(rank, n) {
        assert n in rank;
      }
    }
  }

  /** A walk inside a stuck set can be made as long as wanted. */
  lemma {:induction false} StuckWalk(g: Graph, stuck: set<string>, n: nat) returns (w: seq<string>)
    requires Stuck(g, stuck)
    ensures |w| == n + 1 && Walk(g, w) && forall x :: x in w ==> x in stuck
  {
    if n == 0 {
      var x :| x in stuck;
      w := [x];
    } else {
      var v := StuckWalk(g, stuck, n - 1);
      assert DependsInto(g, v[n - 1], stuck);
      var d :| d in stuck && Edge(g, v[n - 1], d);
      w := v + [d];
    }
  }

  lemma {:induction false} Pigeonhole(w: seq<string>, s: set<string>) returns (i: nat, j: nat)
    requires |w| > |s| && forall x :: x in w ==> x in s
    ensures i < j < |w| && w[i] == w[j]
    decreases |w|
  {
    var last := w[|w| - 1];
    var front := w[..|w| - 1];
    if last in front {
      i :| 0 <= i < |front| && front[i] == last;
      j := |w| - 1;
    } else {
      assert last in s;
      assert |s - {last}| == |s| - 1;
      i, j := Pigeonhole(front, s - {last});
    }
  }

  /** A graph has a rank exactly when it has no closed walk. */
  lemma {:induction false} RankedIffNoClosedWalk(g: Graph)
    ensures Ranked(g) <==> !exists w :: ClosedWalk(g, w)
  {
    var full, stuck := PeelOrStuck(g, g.Keys, map[], 0);
    forall w ensures ClosedWalk(g, w) ==> !Ranked(g) {
      if ClosedWalk(g, w) { ClosedWalkRefutesRank(g, w); }
    }
    if stuck != {} {
      var w := StuckWalk(g, stuck, |stuck|);
      var i, j := Pigeonhole(w, stuck);
      SubwalkIsWalk(g, w, i, j + 1);
      assert ClosedWalk(g, w[i..j + 1]);
    }
  }

  /** Listing every key once, dependencies first, ranks the graph by position. */
  ghost predicate DependenciesFirst(g: Graph, order: seq<string>) {
    forall j, d :: 0 <= j < |order| && Edge(g, order[j], d) ==> d !in g || d in order[..j]
  }

  function PositionRank(order: seq<string>): (rank: map<string, nat>)
  {
    if order == [] then map[]
    else
      var front := order[..|order| - 1];
      PositionRank(front)[order[|order| - 1] := |order|]
  }

  lemma {:induction false} PositionRankKeys(order: seq<string>)
    ensures PositionRank(order).Keys == set n | n in order
  {
    if order != [] {
      var front, last := order[..|order| - 1], order[|order| - 1];
      PositionRankKeys(front);
      assert order == front + [last];
    }
  }

  lemma {:induction false} PositionRankAt(order: seq<string>, j: nat)
    requires forall a, b :: 0 <= a < b < |order| ==> order[a] != order[b]
    requires j < |order|
    ensures RankOf(PositionRank(order), order[j]) == j + 1
  {
    var front, last := order[..|order| - 1], order[|order| - 1];
    assert PositionRank(order) == PositionRank(front)[last := |order|];
    if j < |order| - 1 {
      PositionRankAt(front, j);
      assert front[j] == order[j] != last;
    }
  }

  lemma {:induction false} OrderRanks(g: Graph, order: seq<string>)
    requires forall a, b :: 0 <= a < b < |order| ==> order[a] != order[b]
    requires DependenciesFirst(g, order) && g.Keys <= set n | n in order
    ensures Ranked(g)
  {
    PositionRankKeys(order);
    var rank := map n | n in PositionRank(order) && n in g :: PositionRank(order)[n];
    forall n, d | Edge(g, n, d) ensures RankOf(rank, d) < RankOf(rank, n) {
      var j :| 0 <= j < |order| && order[j] == n;
      PositionRankAt(order, j);
      if d in g {
        var i :| 0 <= i < j && order[..j][i] == d;
        PositionRankAt(order, i);
      }
    }
    assert IsRank(g, rank);
  }
}
