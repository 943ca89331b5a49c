/** Detection and resolution of cluster-wide correlations (pkg/controller/correlator.go). */
module Correlator {
  import opened MonitorTypes
  import opened Collections

  /** A node's latest report, by the types of its active problems. */
  datatype Report = Report(node: string, problems: seq<string>)

  datatype CorrelationType = Infrastructure | CommonCause | Cascade

  /** The hash behind an ID is taken to be injective on what it hashes. */
  datatype CorrelationId = CorrelationId(kind: CorrelationType, identifier: string)

  /** `affectedNodes` is a sorted list without repetitions in the source. */
  datatype Correlation = Correlation(id: CorrelationId, affectedNodes: set<string>, problemTypes: seq<string>)

  datatype Pattern = Pattern(name: string, problems: seq<string>)

  const BUILTIN_PATTERNS: seq<Pattern> := [
    Pattern("resource-exhaustion", ["MemoryPressure", "DiskPressure"]),
    Pattern("node-runtime-failure", ["KubeletUnhealthy", "ContainerRuntimeUnhealthy"]),
    Pattern("network-infrastructure", ["DNSFailure", "NetworkUnreachable"])]

  const CASCADE_PATTERNS: seq<Pattern> := [
    Pattern("kubelet-cascade", ["KubeletUnhealthy", "PodNotRunning", "NodeNotReady"]),
    Pattern("disk-cascade", ["DiskPressure", "PodEviction", "CapacityReduced"])]

  /** The first pattern of that name. */
  function Find(patterns: seq<Pattern>, name: string): Option<Pattern> {
    if patterns == [] then None
    else if patterns[0].name == name then Some(patterns[0])
    else Find(patterns[1..], name)
  }

  ghost predicate DistinctNames(patterns: seq<Pattern>) {
    forall i, j :: 0 <= i < j < |patterns| ==> patterns[i].name != patterns[j].name
  }

  ghost predicate DistinctNodes(reports: seq<Report>) {
    forall i, j :: 0 <= i < j < |reports| ==> reports[i].node != reports[j].node
  }

  ghost predicate DistinctIds(found: seq<Correlation>) {
    forall i, j :: 0 <= i < j < |found| ==> found[i].id != found[j].id
  }

  // ----- One evaluation as a function of its snapshot -----

  /** What one evaluation reads: the reports, the common-cause patterns and the configuration. */
  datatype Snapshot = Snapshot(reports: seq<Report>, patterns: seq<Pattern>, minNodes: int, threshold: real)

  predicate HasAll(r: Report, problems: seq<string>) {
    forall p :: p in problems ==> p in r.problems
  }

  /** How many links of the chain the node shows. */
  function Links(r: Report, chain: seq<string>): nat {
    if chain == [] then 0
    else Links(r, chain[..|chain| - 1]) + if chain[|chain| - 1] in r.problems then 1 else 0
  }

  function PatternOf(w: Snapshot, id: CorrelationId): Option<Pattern> {
    match id.kind
    case Infrastructure => Some(Pattern(id.identifier, [id.identifier]))
    case CommonCause => Find(w.patterns, id.identifier)
    case Cascade => Find(CASCADE_PATTERNS, id.identifier)
  }

  /** Whether a node counts as affected. */
  predicate Hit(id: CorrelationId, problems: seq<string>, r: Report) {
    match id.kind
    case Infrastructure => id.identifier in r.problems
    case CommonCause => HasAll(r, problems)
    case Cascade => Links(r, problems) >= 2
  }

  function Hits(reports: seq<Report>, id: CorrelationId, problems: seq<string>): set<string> {
    set r | r in reports && Hit(id, problems, r) :: r.node
  }

  function Affected(w: Snapshot, id: CorrelationId): set<string> {
    match PatternOf(w, id)
    case Some(p) => Hits(w.reports, id, p.problems)
    case None => {}
  }

  predicate MeetsRatio(w: Snapshot, n: nat) {
    w.reports != [] && n as real / |w.reports| as real >= w.threshold
  }

  predicate Detected(w: Snapshot, id: CorrelationId) {
    && PatternOf(w, id).Some?
    && |Affected(w, id)| >= w.minNodes
    && (id.kind.Infrastructure? ==> Affected(w, id) != {} && MeetsRatio(w, |Affected(w, id)|))
  }

  function NewCorrelation(w: Snapshot, id: CorrelationId): Correlation
    requires PatternOf(w, id).Some?
  {
    Correlation(id, Affected(w, id), PatternOf(w, id).value.problems)
  }

  /** Some affected node still shows one of the correlation's problems. */
  predicate StillShown(c: Correlation, reports: seq<Report>) {
    exists r :: r in reports && r.node in c.affectedNodes && Overlap(c.problemTypes, r.problems)
  }

  predicate Overlap(a: seq<string>, b: seq<string>) {
    exists p :: p in a && p in b
  }

  function Lookup(active: map<CorrelationId, Correlation>, id: CorrelationId): Option<Correlation> {
    if id in active then Some(active[id]) else None
  }

  /** A detection replaces the affected nodes of a known correlation and keeps its problem types. */
  function Merged(w: Snapshot, before: Option<Correlation>, id: CorrelationId): Option<Correlation> {
    if !Detected(w, id) then before
    else if before.Some? then Some(before.value.(affectedNodes := Affected(w, id)))
    else Some(NewCorrelation(w, id))
  }

  function After(w: Snapshot, before: Option<Correlation>, id: CorrelationId): Option<Correlation> {
    var merged := Merged(w, before, id);
    if merged.Some? && StillShown(merged.value, w.reports) then merged else None
  }

  ghost predicate Evaluates(w: Snapshot, active: map<CorrelationId, Correlation>, active': map<CorrelationId, Correlation>) {
    forall id :: Lookup(active', id) == After(w, Lookup(active, id), id)
  }

  ghost predicate PatternsValid(patterns: seq<Pattern>) {
    DistinctNames(patterns) && forall p :: p in patterns ==> p.problems != []
  }

  // ----- What an evaluation guarantees -----

  lemma {:induction false} FindIsMember(patterns: seq<Pattern>, name: string)
    ensures Find(patterns, name).Some? ==> Find(patterns, name).value in patterns && Find(patterns, name).value.name == name
  {
    if patterns != [] { FindIsMember(patterns[1..], name); }
  }

  lemma {:induction false} FindNamed(patterns: seq<Pattern>, i: nat)
    requires DistinctNames(patterns) && i < |patterns|
    ensures Find(patterns, patterns[i].name) == Some(patterns[i])
  {
    if i > 0 {
      assert patterns[1..][i - 1] == patterns[i];
      FindNamed(patterns[1..], i - 1);
    }
  }

  lemma {:induction false} LinksShow(r: Report, chain: seq<string>)
    ensures Links(r, chain) > 0 ==> Overlap(chain, r.problems)
  {
    if chain != [] {
      var last := chain[|chain| - 1];
      LinksShow(r, chain[..|chain| - 1]);
      if last in r.problems {
        assert last in chain;
      } else if Links(r, chain[..|chain| - 1]) > 0 {
        var p :| p in chain[..|chain| - 1] && p in r.problems;
        assert p in chain;
      }
    }
  }

  /** Removing the first link takes away exactly its share. */
  lemma {:induction false} LinksFirst(r: Report, chain: seq<string>)
    requires chain != []
    ensures Links(r, chain) == Links(r, chain[1..]) + if chain[0] in r.problems then 1 else 0
    decreases |chain|
  {
    if |chain| > 1 {
      assert chain[..|chain| - 1][1..] == chain[1..][..|chain| - 2];
      LinksFirst(r, chain[..|chain| - 1]);
    }
  }

  /** A node affected by a cascade lacks the root cause exactly when it shows two of the later links and not the first. */
  lemma {:induction false} CascadeWithoutRootIff(id: CorrelationId, chain: seq<string>, r: Report)
    requires id.kind.Cascade? && chain != []
    ensures Hit(id, chain, r) && chain[0] !in r.problems <==> chain[0] !in r.problems && Links(r, chain[1..]) >= 2
    ensures |chain| == 3 ==>
              (Hit(id, chain, r) && chain[0] !in r.problems <==>
               chain[0] !in r.problems && chain[1] in r.problems && chain[2] in r.problems)
  {
    LinksFirst(r, chain);
    if |chain| == 3 {
      LinksFirst(r, chain[1..]);
      LinksFirst(r, chain[1..][1..]);
    }
  }

  /** A node with no kubelet failure is affected by the kubelet cascade. */
  lemma {:induction false} CascadeWithoutRoot()
    ensures var chain := CASCADE_PATTERNS[0].problems;
            var r := Report("n1", ["PodNotRunning", "NodeNotReady"]);
            Hit(CorrelationId(Cascade, "kubelet-cascade"), chain, r) && chain[0] !in r.problems
  {
    CascadeWithoutRootIff(CorrelationId(Cascade, "kubelet-cascade"), CASCADE_PATTERNS[0].problems,
                          Report("n1", ["PodNotRunning", "NodeNotReady"]));
  }

  /** An affected node shows one of the problems it is affected by. */
  lemma {:induction false} HitShows(w: Snapshot, id: CorrelationId, r: Report)
    requires PatternsValid(w.patterns) && PatternOf(w, id).Some?
    requires Hit(id, PatternOf(w, id).value.problems, r)
    ensures Overlap(PatternOf(w, id).value.problems, r.problems)
  {
    var problems := PatternOf(w, id).value.problems;
    match id.kind
    case Infrastructure => assert id.identifier in problems;
    case CommonCause =>
      FindIsMember(w.patterns, id.identifier);
      assert problems[0] in problems;
    case Cascade => LinksShow(r, problems);
  }

  ghost function Showing(reports: seq<Report>, p: string): set<string> {
    set r | r in reports && p in r.problems :: r.node
  }

  /** A problem type is detected exactly when at least one node shows it, at least the minimum of nodes do, and so does at
      least the threshold's share of all. */
  lemma {:induction false} InfrastructureIff(w: Snapshot, p: string)
    ensures Detected(w, CorrelationId(Infrastructure, p)) <==>
            && Showing(w.reports, p) != {} && |Showing(w.reports, p)| >= w.minNodes
            && |Showing(w.reports, p)| as real >= w.threshold * |w.reports| as real
  {
    var id, n := CorrelationId(Infrastructure, p), |Showing(w.reports, p)|;
    assert Affected(w, id) == Showing(w.reports, p);
    if Showing(w.reports, p) != {} {
      assert w.reports != [];
    }
  }

  /** A common-cause correlation of two problems lists the nodes that show both, and no pattern lists a node that lacks
      one of its problems. */
  lemma {:induction false} CommonCauseIff(w: Snapshot, name: string, n: string)
    requires Find(w.patterns, name).Some?
    ensures var problems := Find(w.patterns, name).value.problems;
            var affected := Affected(w, CorrelationId(CommonCause, name));
            && (n in affected <==> exists r :: r in w.reports && r.node == n && forall p :: p in problems ==> p in r.problems)
            && (DistinctNodes(w.reports) && |problems| == 2 ==>
                  (n in affected <==> n in Showing(w.reports, problems[0]) && n in Showing(w.reports, problems[1])))
  {
    var problems := Find(w.patterns, name).value.problems;
    if DistinctNodes(w.reports) && |problems| == 2 && n in Showing(w.reports, problems[0]) && n in Showing(w.reports, problems[1]) {
      var r :| r in w.reports && problems[0] in r.problems && r.node == n;
      var q :| q in w.reports && problems[1] in q.problems && q.node == n;
      assert r == q by {
        var i :| 0 <= i < |w.reports| && w.reports[i] == r;
        var j :| 0 <= j < |w.reports| && w.reports[j] == q;
      }
    }
  }

  /** A correlation that is not detected again stays exactly while one of its affected nodes shows one of its problems. */
  lemma {:induction false} UndetectedStaysIff(w: Snapshot, c: Correlation)
    requires !Detected(w, c.id)
    ensures After(w, Some(c), c.id) == Some(c) || After(w, Some(c), c.id) == None
    ensures After(w, Some(c), c.id).Some? <==>
            exists r, p :: r in w.reports && r.node in c.affectedNodes && p in c.problemTypes && p in r.problems
  {
    hide Detected;
    if r, p :| r in w.reports && r.node in c.affectedNodes && p in c.problemTypes && p in r.problems {
      assert Overlap(c.problemTypes, r.problems);
    }
  }

  /** A correlation created by an evaluation outlives its resolution phase exactly when it affects a node. */
  lemma {:induction false} NewSurvivesIff(w: Snapshot, id: CorrelationId)
    requires PatternsValid(w.patterns) && Detected(w, id)
    ensures After(w, None, id).Some? <==> Affected(w, id) != {}
  {
    var c := NewCorrelation(w, id);
    if Affected(w, id) != {} {
      var n :| n in Affected(w, id);
      var r :| r in w.reports && Hit(id, PatternOf(w, id).value.problems, r) && r.node == n;
      HitShows(w, id, r);
      assert StillShown(c, w.reports);
    }
  }

  /** With a minimum of at least one node, no new correlation is resolved in the pass that creates it. */
  lemma {:induction false} NewNotResolved(w: Snapshot, id: CorrelationId)
    requires PatternsValid(w.patterns) && w.minNodes >= 1 && Detected(w, id)
    ensures After(w, None, id) == Some(NewCorrelation(w, id))
  {
    NewSurvivesIff(w, id);
  }

  /** The minimum matters: with 0, a built-in pattern no node shows is created and resolved in one pass. */
  lemma {:induction false} NewResolvedAtOnce()
    ensures var w := Snapshot([], BUILTIN_PATTERNS, 0, 0.3);
            var id := CorrelationId(CommonCause, "resource-exhaustion");
            Detected(w, id) && After(w, None, id) == None
  {
    var w := Snapshot([], BUILTIN_PATTERNS, 0, 0.3);
    assert Find(BUILTIN_PATTERNS, "resource-exhaustion") == Some(BUILTIN_PATTERNS[0]);
    assert Affected(w, CorrelationId(CommonCause, "resource-exhaustion")) == {};
  }

  /** A correlation that is detected again under its old ID survives exactly when an affected node
      shows one of the problem types it was first created with. */
  lemma {:induction false} RedetectedSurvivesIff(w: Snapshot, c: Correlation)
    requires Detected(w, c.id)
    ensures After(w, Some(c), c.id).Some? <==>
            exists r :: r in w.reports && r.node in Affected(w, c.id) && Overlap(c.problemTypes, r.problems)
    ensures PatternsValid(w.patterns) && w.minNodes >= 1 && c.problemTypes == PatternOf(w, c.id).value.problems
            ==> After(w, Some(c), c.id) == Some(NewCorrelation(w, c.id))
  {
    var merged := c.(affectedNodes := Affected(w, c.id));
    assert Merged(w, Some(c), c.id) == Some(merged);
    if PatternsValid(w.patterns) && w.minNodes >= 1 && c.problemTypes == PatternOf(w, c.id).value.problems {
      NewNotResolved(w, c.id);
      assert merged == NewCorrelation(w, c.id);
    }
  }

  /** Injecting a pattern again with other problem types makes that fail: the correlation is detected
      on two nodes and resolved in the same pass. */
  lemma {:induction false} RedetectedMayBeResolved()
    ensures var reports := [Report("n1", ["B"]), Report("n2", ["B"])];
            var w := Snapshot(reports, InForce([Pattern("custom", ["B"])]), 2, 0.3);
            var id := CorrelationId(CommonCause, "custom");
            Detected(w, id) && After(w, Some(Correlation(id, {"n1", "n2"}, ["A"])), id) == None
  {
    var reports, custom := [Report("n1", ["B"]), Report("n2", ["B"])], Pattern("custom", ["B"]);
    assert custom.name !in PatternNames(BUILTIN_PATTERNS) by {
      forall p | p in BUILTIN_PATTERNS ensures p.name != "custom" {
        assert |p.name| > |"custom"|;
      }
    }
    InjectedFound(custom);
    hide InForce, Find, PatternNames;
    var w := Snapshot(reports, InForce([custom]), 2, 0.3);
    var id := CorrelationId(CommonCause, "custom");
    assert reports[0] in reports && reports[1] in reports;
    assert Affected(w, id) == {"n1", "n2"};
    assert !Overlap(["A"], ["B"]);
  }

  /** An injected pattern that is named like no built-in one is in force. */
  lemma {:induction false} InjectedFound(p: Pattern)
    requires p.problems != [] && p.name !in PatternNames(BUILTIN_PATTERNS)
    ensures Find(InForce([p]), p.name) == Some(p)
  {
    InForceValid([p]);
    assert p in InForce([p]);
    var i :| 0 <= i < |InForce([p])| && InForce([p])[i] == p;
    FindNamed(InForce([p]), i);
  }

  /** A known correlation is detected on nodes none of which shows a problem type it was created with. */
  ghost predicate Outdated(w: Snapshot, before: Option<Correlation>, id: CorrelationId) {
    && Detected(w, id) && before.Some?
    && !exists r :: r in w.reports && r.node in Affected(w, id) && Overlap(before.value.problemTypes, r.problems)
  }

  lemma {:induction false} ResolvedIffOutdated(w: Snapshot, before: Option<Correlation>, id: CorrelationId)
    requires PatternsValid(w.patterns) && w.minNodes >= 1 && Detected(w, id)
    ensures After(w, before, id) == None <==> Outdated(w, before, id)
  {
    if before.None? {
      NewNotResolved(w, id);
    } else {
      hide Detected, Affected, Overlap;
      assert Merged(w, before, id) == Some(before.value.(affectedNodes := Affected(w, id)));
    }
  }

  /** Evaluating the same snapshot again changes nothing, exactly unless a known correlation is outdated; its
      second evaluation then creates it anew. */
  lemma {:induction false} EvaluationSettlesIff(w: Snapshot, before: Option<Correlation>, id: CorrelationId)
    requires PatternsValid(w.patterns) && w.minNodes >= 1
    ensures After(w, After(w, before, id), id) == After(w, before, id) <==> !Outdated(w, before, id)
    ensures Outdated(w, before, id) ==>
              After(w, before, id) == None && After(w, None, id) == Some(NewCorrelation(w, id))
  {
    if Detected(w, id) {
      NewNotResolved(w, id);
      ResolvedIffOutdated(w, before, id);
    }
  }

  /** A third evaluation of the same snapshot changes nothing. */
  lemma {:induction false} EvaluationSettles(w: Snapshot, a0: map<CorrelationId, Correlation>, a1: map<CorrelationId, Correlation>,
                                             a2: map<CorrelationId, Correlation>, a3: map<CorrelationId, Correlation>)
    requires PatternsValid(w.patterns) && w.minNodes >= 1
    requires Evaluates(w, a0, a1) && Evaluates(w, a1, a2) && Evaluates(w, a2, a3)
    ensures a3 == a2
    ensures forall id :: Detected(w, id) ==> id in a2
  {
    forall id ensures Lookup(a3, id) == Lookup(a2, id) && (Detected(w, id) ==> id in a2) {
      var before := Lookup(a0, id);
      assert Lookup(a1, id) == After(w, before, id);
      assert Lookup(a2, id) == After(w, Lookup(a1, id), id);
      assert Lookup(a3, id) == After(w, Lookup(a2, id), id);
      EvaluationSettlesIff(w, before, id);
      EvaluationSettlesIff(w, Lookup(a1, id), id);
      if Detected(w, id) {
        NewNotResolved(w, id);
        ResolvedIffOutdated(w, before, id);
        ResolvedIffOutdated(w, Lookup(a1, id), id);
      }
    }
    SameLookups(a2, a3);
  }

  lemma {:induction false} SameLookups(a: map<CorrelationId, Correlation>, b: map<CorrelationId, Correlation>)
    requires forall id :: Lookup(a, id) == Lookup(b, id)
    ensures a == b
  {
    forall id ensures id in a <==> id in b {
      assert Lookup(a, id) == Lookup(b, id);
    }
    forall id | id in a ensures a[id] == b[id] {
      assert Lookup(a, id) == Lookup(b, id);
    }
  }

  // ----- Finding affected nodes -----

  lemma {:induction false} HitsExtend(reports: seq<Report>, i: nat, id: CorrelationId, problems: seq<string>)
    requires i < |reports|
    ensures Hits(reports[..i + 1], id, problems) ==
            Hits(reports[..i], id, problems) + if Hit(id, problems, reports[i]) then {reports[i].node} else {}
  {
    assert reports[..i + 1] == reports[..i] + [reports[i]];
  }

  lemma {:induction false} AppendDistinct(names: seq<string>, n: string)
    requires Distinct(names) && n !in names
    ensures Distinct(names + [n]) && Elements(names + [n]) == Elements(names) + {n}
  {
  }

  /** No more nodes are affected than reported. */
  lemma {:induction false} HitsBounded(reports: seq<Report>, id: CorrelationId, problems: seq<string>)
    ensures |Hits(reports, id, problems)| <= |reports|
  {
    if reports != [] {
      var i := |reports| - 1;
      HitsBounded(reports[..i], id, problems);
      HitsExtend(reports, i, id, problems);
      assert reports[..i + 1] == reports;
    }
  }

  method NodeHasAllProblems(report: Report, problemTypes: seq<string>) returns (all: bool)
    ensures all <==> HasAll(report, problemTypes)
  {
    var problemSet: set<string> := {};
    for i := 0 to |report.problems|
      invariant problemSet == Elements(report.problems[..i])
    {
      assert report.problems[..i + 1] == report.problems[..i] + [report.problems[i]];
      problemSet := problemSet + {report.problems[i]};
    }
    assert report.problems[..|report.problems|] == report.problems;
    for i := 0 to |problemTypes|
      invariant forall j :: 0 <= j < i ==> problemTypes[j] in report.problems
    {
      if problemTypes[i] !in problemSet {
        return false;
      }
    }
    return true;
  }

  method FindNodesWithAllProblems(reports: seq<Report>, problemTypes: seq<string>, ghost id: CorrelationId) returns (nodes: seq<string>)
    requires DistinctNodes(reports) && id.kind.CommonCause?
    ensures Distinct(nodes) && Elements(nodes) == Hits(reports, id, problemTypes)
  {
    nodes := [];
    for i := 0 to |reports|
      invariant Distinct(nodes) && Elements(nodes) == Hits(reports[..i], id, problemTypes)
    {
      HitsExtend(reports, i, id, problemTypes);
      var all := NodeHasAllProblems(reports[i], problemTypes);
      hide Hits, HasAll, Distinct;
      if all {
        assert reports[i].node !in Elements(nodes);
        AppendDistinct(nodes, reports[i].node);
        nodes := nodes + [reports[i].node];
      }
    }
    assert reports[..|reports|] == reports;
  }

  method CountLinks(report: Report, chain: seq<string>) returns (matchCount: nat)
    ensures matchCount == Links(report, chain)
  {
    matchCount := 0;
    for i := 0 to |chain|
      invariant matchCount == Links(report, chain[..i])
    {
      assert chain[..i + 1][..i] == chain[..i];
      var found := false;
      for j := 0 to |report.problems|
        invariant found <==> chain[i] in report.problems[..j]
      {
        assert report.problems[..j + 1] == report.problems[..j] + [report.problems[j]];
        if report.problems[j] == chain[i] {
          found := true;
          break;
        }
      }
      assert found <==> chain[i] in report.problems;
      if found {
        matchCount := matchCount + 1;
      }
    }
    assert chain[..|chain|] == chain;
  }

  method FindNodesWithCascade(reports: seq<Report>, chain: seq<string>, ghost id: CorrelationId) returns (nodes: seq<string>)
    requires DistinctNodes(reports) && id.kind.Cascade?
    ensures Distinct(nodes) && Elements(nodes) == Hits(reports, id, chain)
  {
    if |chain| == 0 {
      return [];
    }
    nodes := [];
    for i := 0 to |reports|
      invariant Distinct(nodes) && Elements(nodes) == Hits(reports[..i], id, chain)
    {
      HitsExtend(reports, i, id, chain);
      var matchCount := CountLinks(reports[i], chain);
      hide Hits, Links, Distinct;
      if matchCount >= 2 {
        assert reports[i].node !in Elements(nodes);
        AppendDistinct(nodes, reports[i].node);
        nodes := nodes + [reports[i].node];
      }
    }
    assert reports[..|reports|] == reports;
  }

  // ----- Detection -----

  /** `found` holds, once each, the detected correlations of one type with an identifier in `names`. */
  ghost predicate Covers(w: Snapshot, kind: CorrelationType, names: set<string>, found: seq<Correlation>) {
    && DistinctIds(found)
    && (forall c :: c in found ==> c.id.kind == kind && c.id.identifier in names && Detected(w, c.id) && c == NewCorrelation(w, c.id))
    && (forall name :: name in names && Detected(w, CorrelationId(kind, name)) ==> NewCorrelation(w, CorrelationId(kind, name)) in found)
  }

  /** `found` holds, once each, exactly the detected correlations of one type. */
  ghost predicate Lists(w: Snapshot, kind: CorrelationType, found: seq<Correlation>) {
    && DistinctIds(found)
    && (forall c :: c in found ==> c.id.kind == kind && Detected(w, c.id) && c == NewCorrelation(w, c.id))
    && (forall id: CorrelationId :: id.kind == kind && Detected(w, id) ==> NewCorrelation(w, id) in found)
  }

  lemma {:induction false} CoversMore(w: Snapshot, kind: CorrelationType, names: set<string>, found: seq<Correlation>, name: string)
    requires Covers(w, kind, names, found) && name !in names
    ensures var id := CorrelationId(kind, name);
            Covers(w, kind, names + {name}, if Detected(w, id) then found + [NewCorrelation(w, id)] else found)
  {
    var id := CorrelationId(kind, name);
    assert Detected(w, id) ==> NewCorrelation(w, id).id == id;
    hide Detected, NewCorrelation;
    if Detected(w, id) {
      forall j | 0 <= j < |found| ensures found[j].id != id {
        assert found[j] in found;
      }
    }
  }

  lemma {:induction false} CoversLists(w: Snapshot, kind: CorrelationType, names: set<string>, found: seq<Correlation>)
    requires Covers(w, kind, names, found)
    requires forall id: CorrelationId :: id.kind == kind && Detected(w, id) ==> id.identifier in names
    ensures Lists(w, kind, found)
  {
    hide NewCorrelation, Affected, PatternOf, MeetsRatio;
    forall id: CorrelationId | id.kind == kind && Detected(w, id) ensures NewCorrelation(w, id) in found {
      assert id == CorrelationId(kind, id.identifier);
    }
  }

  function PatternNames(patterns: seq<Pattern>): set<string> {
    set p | p in patterns :: p.name
  }

  lemma {:induction false} NamesExtend(patterns: seq<Pattern>, i: nat)
    requires DistinctNames(patterns) && i < |patterns|
    ensures PatternNames(patterns[..i + 1]) == PatternNames(patterns[..i]) + {patterns[i].name}
    ensures patterns[i].name !in PatternNames(patterns[..i])
  {
    assert patterns[..i + 1] == patterns[..i] + [patterns[i]];
  }

  lemma {:induction false} DetectedIsNamed(w: Snapshot, kind: CorrelationType, patterns: seq<Pattern>)
    requires (kind.CommonCause? && patterns == w.patterns) || (kind.Cascade? && patterns == CASCADE_PATTERNS)
    ensures forall id: CorrelationId :: id.kind == kind && Detected(w, id) ==> id.identifier in PatternNames(patterns)
  {
    forall id: CorrelationId | id.kind == kind && Detected(w, id) ensures id.identifier in PatternNames(patterns) {
      FindIsMember(patterns, id.identifier);
    }
  }

  /** A common-cause or cascade pattern is detected by the length of the list of its nodes. */
  lemma {:induction false} PatternDetected(w: Snapshot, id: CorrelationId, pattern: Pattern, nodes: seq<string>)
    requires !id.kind.Infrastructure? && PatternOf(w, id) == Some(pattern)
    requires Distinct(nodes) && Elements(nodes) == Hits(w.reports, id, pattern.problems)
    ensures Detected(w, id) <==> |nodes| >= w.minNodes
    ensures NewCorrelation(w, id) == Correlation(id, Elements(nodes), pattern.problems)
  {
    DistinctSize(nodes);
  }

  method DetectCommonCauseCorrelation(w: Snapshot) returns (found: seq<Correlation>)
    requires DistinctNodes(w.reports) && DistinctNames(w.patterns)
    ensures Lists(w, CommonCause, found)
  {
    found := [];
    for i := 0 to |w.patterns|
      invariant Covers(w, CommonCause, PatternNames(w.patterns[..i]), found)
    {
      var pattern := w.patterns[i];
      var id := CorrelationId(CommonCause, pattern.name);
      NamesExtend(w.patterns, i);
      FindNamed(w.patterns, i);
      var nodes := FindNodesWithAllProblems(w.reports, pattern.problems, id);
      PatternDetected(w, id, pattern, nodes);
      CoversMore(w, CommonCause, PatternNames(w.patterns[..i]), found, pattern.name);
      hide Covers, Detected, NewCorrelation;
      if |nodes| >= w.minNodes {
        found := found + [Correlation(id, Elements(nodes), pattern.problems)];
      }
    }
    assert w.patterns[..|w.patterns|] == w.patterns;
    DetectedIsNamed(w, CommonCause, w.patterns);
    CoversLists(w, CommonCause, PatternNames(w.patterns), found);
  }

  method DetectCascadeCorrelation(w: Snapshot) returns (found: seq<Correlation>)
    requires DistinctNodes(w.reports)
    ensures Lists(w, Cascade, found)
  {
    found := [];
    for i := 0 to |CASCADE_PATTERNS|
      invariant Covers(w, Cascade, PatternNames(CASCADE_PATTERNS[..i]), found)
    {
      var pattern := CASCADE_PATTERNS[i];
      var id := CorrelationId(Cascade, pattern.name);
      NamesExtend(CASCADE_PATTERNS, i);
      FindNamed(CASCADE_PATTERNS, i);
      var nodes := FindNodesWithCascade(w.reports, pattern.problems, id);
      PatternDetected(w, id, pattern, nodes);
      CoversMore(w, Cascade, PatternNames(CASCADE_PATTERNS[..i]), found, pattern.name);
      hide Covers, Detected, NewCorrelation;
      if |nodes| >= w.minNodes {
        found := found + [Correlation(id, Elements(nodes), pattern.problems)];
      }
    }
    assert CASCADE_PATTERNS[..|CASCADE_PATTERNS|] == CASCADE_PATTERNS;
    DetectedIsNamed(w, Cascade, CASCADE_PATTERNS);
    CoversLists(w, Cascade, PatternNames(CASCADE_PATTERNS), found);
  }

  // ----- Infrastructure correlations: grouping the nodes by problem type -----

  function NodesOf(byType: map<string, seq<string>>, p: string): seq<string> {
    if p in byType then byType[p] else []
  }

  ghost predicate GroupsDistinct(byType: map<string, seq<string>>) {
    forall p :: p in byType ==> Distinct(byType[p]) && byType[p] != []
  }

  /** The groups list exactly the nodes of these reports that show each problem type. */
  ghost predicate Groups(byType: map<string, seq<string>>, reports: seq<Report>) {
    forall p, n :: n in NodesOf(byType, p) <==> Shows(reports, p, n)
  }

  ghost predicate Shows(reports: seq<Report>, p: string, n: string) {
    exists r :: r in reports && r.node == n && p in r.problems
  }

  method GroupReport(byType: map<string, seq<string>>, report: Report) returns (grouped: map<string, seq<string>>)
    requires GroupsDistinct(byType)
    ensures GroupsDistinct(grouped)
    ensures forall p, n :: n in NodesOf(grouped, p) <==> n in NodesOf(byType, p) || (n == report.node && p in report.problems)
  {
    grouped := byType;
    for j := 0 to |report.problems|
      invariant GroupsDistinct(grouped)
      invariant forall p, n :: n in NodesOf(grouped, p) <==> n in NodesOf(byType, p) || (n == report.node && p in report.problems[..j])
    {
      var problem := report.problems[j];
      assert report.problems[..j + 1] == report.problems[..j] + [problem];
      var nodes := NodesOf(grouped, problem);
      if report.node !in nodes {
        AppendDistinct(nodes, report.node);
        grouped := grouped[problem := nodes + [report.node]];
      }
    }
    assert report.problems[..|report.problems|] == report.problems;
  }

  method GroupByType(reports: seq<Report>) returns (byType: map<string, seq<string>>)
    ensures GroupsDistinct(byType) && Groups(byType, reports)
  {
    byType := map[];
    for i := 0 to |reports|
      invariant GroupsDistinct(byType) && Groups(byType, reports[..i])
    {
      assert reports[..i + 1] == reports[..i] + [reports[i]];
      ghost var before := byType;
      byType := GroupReport(byType, reports[i]);
    }
    assert reports[..|reports|] == reports;
  }

  /** The group of a problem type lists the nodes it affects, and a type without group affects none. */
  lemma {:induction false} GroupIsAffected(w: Snapshot, byType: map<string, seq<string>>, p: string)
    requires Groups(byType, w.reports) && GroupsDistinct(byType)
    ensures Elements(NodesOf(byType, p)) == Affected(w, CorrelationId(Infrastructure, p))
    ensures |NodesOf(byType, p)| == |Affected(w, CorrelationId(Infrastructure, p))|
  {
    var id := CorrelationId(Infrastructure, p);
    DistinctSize(NodesOf(byType, p));
    forall n ensures n in NodesOf(byType, p) <==> n in Affected(w, id) {
      assert n in NodesOf(byType, p) <==> Shows(w.reports, p, n);
    }
  }

  /** Detects exactly the problem types whose nodes meet both thresholds. */
  method DetectInfrastructureCorrelation(w: Snapshot, totalNodes: nat) returns (found: seq<Correlation>)
    requires totalNodes == |w.reports|
    ensures Lists(w, Infrastructure, found)
  {
    found := [];
    if totalNodes < w.minNodes {
      forall id: CorrelationId | id.kind.Infrastructure? ensures !Detected(w, id) {
        HitsBounded(w.reports, id, [id.identifier]);
      }
      return;
    }
    var byType := GroupByType(w.reports);
    forall id: CorrelationId | id.kind.Infrastructure? && Detected(w, id) ensures id.identifier in byType.Keys {
      GroupIsAffected(w, byType, id.identifier);
      assert id == CorrelationId(Infrastructure, id.identifier);
    }
    var unvisited := byType.Keys;
    while unvisited != {}
      invariant unvisited <= byType.Keys
      invariant Covers(w, Infrastructure, byType.Keys - unvisited, found)
      decreases |unvisited|
    {
      var problemType :| problemType in unvisited;
      var nodes := byType[problemType];
      var id := CorrelationId(Infrastructure, problemType);
      GroupIsAffected(w, byType, problemType);
      GroupDetected(w, byType, problemType);
      CoversMore(w, Infrastructure, byType.Keys - unvisited, found, problemType);
      hide Covers, Detected, NewCorrelation, Groups, GroupsDistinct, Affected;
      var ratio := |nodes| as real / totalNodes as real;
      if ratio >= w.threshold && |nodes| >= w.minNodes {
        found := found + [Correlation(id, Elements(nodes), [problemType])];
      }
      assert byType.Keys - (unvisited - {problemType}) == byType.Keys - unvisited + {problemType};
      unvisited := unvisited - {problemType};
    }
    assert byType.Keys - {} == byType.Keys;
    CoversLists(w, Infrastructure, byType.Keys, found);
  }

  lemma {:induction false} GroupDetected(w: Snapshot, byType: map<string, seq<string>>, p: string)
    requires Groups(byType, w.reports) && GroupsDistinct(byType) && p in byType
    ensures |w.reports| > 0
    ensures var id := CorrelationId(Infrastructure, p); var n := |byType[p]|;
            && (Detected(w, id) <==> n as real / |w.reports| as real >= w.threshold && n >= w.minNodes)
            && NewCorrelation(w, id) == Correlation(id, Elements(byType[p]), [p])
  {
    GroupIsAffected(w, byType, p);
    assert byType[p][0] in NodesOf(byType, p);
    assert Shows(w.reports, p, byType[p][0]);
  }

  // ----- Merging and resolving -----

  function Ids(found: seq<Correlation>): set<CorrelationId> {
    set c | c in found :: c.id
  }

  /** The detections of all three types, once each. */
  ghost predicate AllDetected(w: Snapshot, found: seq<Correlation>) {
    && DistinctIds(found)
    && (forall c :: c in found ==> Detected(w, c.id) && c == NewCorrelation(w, c.id))
    && (forall id :: Detected(w, id) ==> id in Ids(found))
  }

  lemma {:induction false} ListsJoin(w: Snapshot, infrastructure: seq<Correlation>, common: seq<Correlation>, cascade: seq<Correlation>)
    requires Lists(w, Infrastructure, infrastructure) && Lists(w, CommonCause, common) && Lists(w, Cascade, cascade)
    ensures AllDetected(w, infrastructure + common + cascade)
  {
    hide Affected, PatternOf, MeetsRatio;
    var all := infrastructure + common + cascade;
    assert forall i :: 0 <= i < |infrastructure| ==> all[i] == infrastructure[i] && infrastructure[i] in infrastructure;
    assert forall i :: |infrastructure| <= i < |infrastructure| + |common| ==> all[i] in common;
    assert forall i :: |infrastructure| + |common| <= i < |all| ==> all[i] in cascade;
    forall id | Detected(w, id) ensures id in Ids(all) {
      var c := NewCorrelation(w, id);
      assert c in infrastructure || c in common || c in cascade;
      assert c in all;
    }
  }

  /** The first `i` detections have been merged. */
  ghost predicate MergedUpto(w: Snapshot, found: seq<Correlation>, i: nat, before: map<CorrelationId, Correlation>,
                             active: map<CorrelationId, Correlation>)
  {
    && i <= |found|
    && forall id :: Lookup(active, id) == if id in Ids(found[..i]) then Merged(w, Lookup(before, id), id) else Lookup(before, id)
  }

  /** Some report shows the problem on the node. */
  ghost predicate Tabulates(current: map<string, set<string>>, reports: seq<Report>) {
    forall n, p :: OnNode(current, n, p) <==> Shows(reports, p, n)
  }

  predicate OnNode(current: map<string, set<string>>, n: string, p: string) {
    n in current && p in current[n]
  }

  method CurrentProblems(reports: seq<Report>) returns (current: map<string, set<string>>)
    ensures Tabulates(current, reports)
  {
    current := map[];
    for i := 0 to |reports|
      invariant Tabulates(current, reports[..i])
    {
      var report := reports[i];
      ghost var before := current;
      if report.node !in current {
        current := current[report.node := {}];
      }
      for j := 0 to |report.problems|
        invariant report.node in current
        invariant forall n, p :: OnNode(current, n, p) <==> OnNode(before, n, p) || (n == report.node && p in report.problems[..j])
      {
        assert report.problems[..j + 1] == report.problems[..j] + [report.problems[j]];
        current := current[report.node := current[report.node] + {report.problems[j]}];
        hide OnNode;
      }
      assert report.problems[..|report.problems|] == report.problems;
      assert reports[..i + 1] == reports[..i] + [report];
    }
    assert reports[..|reports|] == reports;
  }

  lemma {:induction false} ShowsExtend(reports: seq<Report>, r: Report, p: string, n: string)
    ensures Shows(reports + [r], p, n) <==> Shows(reports, p, n) || (n == r.node && p in r.problems)
  {
    if Shows(reports, p, n) {
      var x :| x in reports && x.node == n && p in x.problems;
      assert x in reports + [r];
    }
    if n == r.node && p in r.problems {
      assert r in reports + [r];
    }
  }

  method NodeShowsOne(current: map<string, set<string>>, node: string, problemTypes: seq<string>) returns (shown: bool)
    ensures shown <==> exists p :: p in problemTypes && OnNode(current, node, p)
  {
    if node !in current {
      return false;
    }
    for i := 0 to |problemTypes|
      invariant forall j :: 0 <= j < i ==> !OnNode(current, node, problemTypes[j])
    {
      if problemTypes[i] in current[node] {
        assert OnNode(current, node, problemTypes[i]);
        return true;
      }
    }
    return false;
  }

  ghost predicate NodeShows(problemTypes: seq<string>, reports: seq<Report>, n: string) {
    exists p :: p in problemTypes && Shows(reports, p, n)
  }

  lemma {:induction false} StillShownByNode(c: Correlation, reports: seq<Report>)
    ensures StillShown(c, reports) <==> exists n :: n in c.affectedNodes && NodeShows(c.problemTypes, reports, n)
  {
    if StillShown(c, reports) {
      var r :| r in reports && r.node in c.affectedNodes && Overlap(c.problemTypes, r.problems);
      var p :| p in c.problemTypes && p in r.problems;
      assert Shows(reports, p, r.node);
      assert NodeShows(c.problemTypes, reports, r.node);
    }
    if n :| n in c.affectedNodes && NodeShows(c.problemTypes, reports, n) {
      var p :| p in c.problemTypes && Shows(reports, p, n);
      var r :| r in reports && r.node == n && p in r.problems;
      assert Overlap(c.problemTypes, r.problems);
    }
  }

  method StillActive(c: Correlation, current: map<string, set<string>>, ghost reports: seq<Report>) returns (stillActive: bool)
    requires Tabulates(current, reports)
    ensures stillActive <==> StillShown(c, reports)
  {
    StillShownByNode(c, reports);
    hide StillShown, Shows;
    stillActive := false;
    var unvisited := c.affectedNodes;
    while unvisited != {}
      invariant unvisited <= c.affectedNodes
      invariant !stillActive && forall n :: n in c.affectedNodes && n !in unvisited ==> !NodeShows(c.problemTypes, reports, n)
      decreases |unvisited|
    {
      var n :| n in unvisited;
      unvisited := unvisited - {n};
      var shown := NodeShowsOne(current, n, c.problemTypes);
      assert shown <==> NodeShows(c.problemTypes, reports, n);
      if shown {
        return true;
      }
    }
  }

  predicate Blank(name: string) {
    forall c :: c in name ==> Space(c)
  }

  /** Unicode white space. */
  predicate Space(c: char) {
    var n := c as int;
    0x09 <= n <= 0x0d || n in {0x20, 0x85, 0xa0, 0x1680, 0x2028, 0x2029, 0x202f, 0x205f, 0x3000} || 0x2000 <= n <= 0x200a
  }

  /** Common-cause patterns in force: an injected pattern cannot shadow a built-in one. */
  function InForce(injected: seq<Pattern>): seq<Pattern> {
    if injected == [] then BUILTIN_PATTERNS
    else
      var last := injected[|injected| - 1];
      InForce(injected[..|injected| - 1]) + if last.name in PatternNames(BUILTIN_PATTERNS) then [] else [last]
  }

  lemma {:induction false} InForceValid(injected: seq<Pattern>)
    requires PatternsValid(injected)
    ensures PatternsValid(InForce(injected))
    ensures forall p :: p in InForce(injected) <==> p in BUILTIN_PATTERNS || (p in injected && p.name !in PatternNames(BUILTIN_PATTERNS))
  {
    if injected != [] {
      var rest, last := injected[..|injected| - 1], injected[|injected| - 1];
      assert injected == rest + [last];
      InForceValid(rest);
      forall p | p in InForce(rest) && last.name !in PatternNames(BUILTIN_PATTERNS) ensures p.name != last.name {}
    }
  }

  /** Appends the injected patterns to the built-in ones, skipping the names already taken. */
  method AppendInjected(injected: seq<Pattern>) returns (patterns: seq<Pattern>)
    ensures patterns == InForce(injected)
  {
    patterns := BUILTIN_PATTERNS;
    var builtinNames := PatternNames(BUILTIN_PATTERNS);
    for i := 0 to |injected|
      invariant patterns == InForce(injected[..i])
    {
      assert injected[..i + 1][..i] == injected[..i];
      if injected[i].name !in builtinNames {
        patterns := patterns + [injected[i]];
      }
    }
    assert injected[..|injected|] == injected;
  }

  class Correlator {
    var active: map<CorrelationId, Correlation>
    var nodeReports: map<string, Report>
    var totalNodes: nat
    var injectedPatterns: seq<Pattern>
    const minNodes: int
    const threshold: real

    ghost predicate Valid() reads this {
      && totalNodes == |nodeReports|
      && (forall n :: n in nodeReports ==> nodeReports[n].node == n)
      && PatternsValid(injectedPatterns)
    }

    constructor (minNodes: int, threshold: real)
      ensures Valid() && active == map[] && nodeReports == map[] && injectedPatterns == []
      ensures this.minNodes == minNodes && this.threshold == threshold
    {
      this.minNodes, this.threshold := minNodes, threshold;
      active, nodeReports, totalNodes, injectedPatterns := map[], map[], 0, [];
    }

    method UpdateNodeReport(report: Report)
      requires Valid()
      modifies this`nodeReports, this`totalNodes
      ensures Valid() && nodeReports == old(nodeReports)[report.node := report]
    {
      nodeReports := nodeReports[report.node := report];
      totalNodes := |nodeReports|;
    }

    method RemoveNode(node: string)
      requires Valid()
      modifies this`nodeReports, this`totalNodes
      ensures Valid() && nodeReports == old(nodeReports) - {node}
    {
      nodeReports := nodeReports - {node};
      totalNodes := |nodeReports|;
    }

    /** A pattern needs a name and a problem type; injecting a name again replaces its pattern. */
    method InjectProblemPattern(pattern: Pattern) returns (ok: bool)
      requires Valid()
      modifies this`injectedPatterns
      ensures Valid()
      ensures ok <==> !Blank(pattern.name) && pattern.problems != []
      ensures !ok ==> injectedPatterns == old(injectedPatterns)
      ensures ok ==> forall p :: p in injectedPatterns <==> p == pattern || (p in old(injectedPatterns) && p.name != pattern.name)
    {
      if Blank(pattern.name) || pattern.problems == [] {
        return false;
      }
      var i := 0;
      while i < |injectedPatterns|
        invariant 0 <= i <= |injectedPatterns| && injectedPatterns == old(injectedPatterns)
        invariant forall j :: 0 <= j < i ==> injectedPatterns[j].name != pattern.name
      {
        if injectedPatterns[i].name == pattern.name {
          ReplacePattern(injectedPatterns, i, pattern);
          injectedPatterns := injectedPatterns[i := pattern];
          return true;
        }
        i := i + 1;
      }
      injectedPatterns := injectedPatterns + [pattern];
      return true;
    }

    /** The reports in whatever order the map is visited. */
    method GetReportsCopy() returns (reports: seq<Report>)
      requires Valid()
      ensures |reports| == |nodeReports| && DistinctNodes(reports)
      ensures forall r :: r in reports <==> r.node in nodeReports && nodeReports[r.node] == r
    {
      reports := [];
      var unvisited := nodeReports.Keys;
      while unvisited != {}
        invariant unvisited <= nodeReports.Keys && |reports| + |unvisited| == |nodeReports|
        invariant forall r :: r in reports <==> r.node in nodeReports && r.node !in unvisited && nodeReports[r.node] == r
        invariant DistinctNodes(reports)
        decreases |unvisited|
      {
        var n :| n in unvisited;
        unvisited := unvisited - {n};
        assert forall j :: 0 <= j < |reports| ==> reports[j] in reports;
        reports := reports + [nodeReports[n]];
      }
    }

    /** Merges all detections, then resolves what no affected node shows any more. */
    method Evaluate() returns (w: Snapshot)
      requires Valid()
      modifies this`active
      ensures Valid()
      ensures w == Snapshot(w.reports, InForce(injectedPatterns), minNodes, threshold)
      ensures |w.reports| == |nodeReports| && DistinctNodes(w.reports) && PatternsValid(w.patterns)
      ensures forall r :: r in w.reports <==> r.node in nodeReports && nodeReports[r.node] == r
      ensures if |nodeReports| < minNodes then active == old(active) else Evaluates(w, old(active), active)
    {
      var reports := GetReportsCopy();
      InForceValid(injectedPatterns);
      var patterns := AppendInjected(injectedPatterns);
      w := Snapshot(reports, patterns, minNodes, threshold);
      if |reports| < minNodes {
        return;
      }
      var infrastructure := DetectInfrastructureCorrelation(w, totalNodes);
      var common := DetectCommonCauseCorrelation(w);
      var cascade := DetectCascadeCorrelation(w);
      var allDetected := infrastructure + common + cascade;
      ListsJoin(w, infrastructure, common, cascade);
      hide *;
      MergeDetected(w, allDetected);
      ResolveStaleCorrelations(w, old(active));
    }

    method MergeDetected(ghost w: Snapshot, allDetected: seq<Correlation>)
      requires AllDetected(w, allDetected)
      modifies this`active
      ensures forall id :: Lookup(active, id) == Merged(w, Lookup(old(active), id), id)
    {
      ghost var before := active;
      assert Ids(allDetected[..0]) == {};
      for i := 0 to |allDetected|
        invariant MergedUpto(w, allDetected, i, before, active)
      {
        var corr := allDetected[i];
        ghost var was := active;
        if corr.id in active {
          active := active[corr.id := active[corr.id].(affectedNodes := corr.affectedNodes)];
        } else {
          active := active[corr.id := corr];
        }
        hide *;
      }
      assert allDetected[..|allDetected|] == allDetected;
    }

    method ResolveStaleCorrelations(w: Snapshot, ghost before: map<CorrelationId, Correlation>)
      requires forall id :: Lookup(active, id) == Merged(w, Lookup(before, id), id)
      modifies this`active
      ensures Evaluates(w, before, active)
    {
      var current := CurrentProblems(w.reports);
      var merged := active;
      var unvisited := merged.Keys;
      while unvisited != {}
        invariant unvisited <= merged.Keys
        invariant forall id :: id in active <==> id in merged && (id in unvisited || StillShown(merged[id], w.reports))
        invariant forall id :: id in active ==> active[id] == merged[id]
        decreases |unvisited|
      {
        var id :| id in unvisited;
        unvisited := unvisited - {id};
        hide *;
        var stillActive := StillActive(active[id], current, w.reports);
        if !stillActive {
          active := active - {id};
        }
      }
      hide StillShown;
      forall id ensures Lookup(active, id) == After(w, Lookup(before, id), id) {
        assert Lookup(merged, id) == Merged(w, Lookup(before, id), id);
      }
    }
  }

  lemma {:induction false} ReplacePattern(patterns: seq<Pattern>, i: nat, p: Pattern)
    requires DistinctNames(patterns) && i < |patterns| && patterns[i].name == p.name
    ensures DistinctNames(patterns[i := p])
    ensures forall q :: q in patterns[i := p] <==> q == p || (q in patterns && q.name != p.name)
  {
    var after := patterns[i := p];
    forall q ensures q in after <==> q == p || (q in patterns && q.name != p.name) {
      if q in patterns && q.name != p.name {
        var j :| 0 <= j < |patterns| && patterns[j] == q;
        assert after[j] == q;
      }
      assert after[i] == p;
      if q in after && q != p {
        var j :| 0 <= j < |after| && after[j] == q;
        assert j != i && patterns[j] == q;
      }
    }
  }
}
