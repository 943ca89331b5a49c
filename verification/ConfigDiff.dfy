/** Differences between two monitor configurations: pkg/reload/diff.go. */
module ConfigDiff {
  import opened MonitorTypes
  import opened Collections

  type MonitorMap = map<string, MonitorConfig>

  /** A config map reduced to what its values print as. */
  function Rendered(config: map<string, ConfigValue>): map<string, ConfigValue> {
    map k | k in config :: ConfigValue(0, config[k].rendered)
  }

  /** A monitor stripped of what the comparison does not read: remediation, dependencies, and the kinds of config values. */
  function Stripped(m: MonitorConfig): MonitorConfig {
    m.(config := Rendered(m.config), remediation := None, dependsOn := [])
  }

  predicate SameSettings(a: MonitorConfig, b: MonitorConfig) {
    Stripped(a) == Stripped(b)
  }

  /** Config maps are compared by what their values print as, in whatever order the map yields them. */
  method ConfigMapsEqual(a: map<string, ConfigValue>, b: map<string, ConfigValue>) returns (same: bool)
    ensures same <==> Rendered(a) == Rendered(b)
  {
    assert Rendered(a).Keys == a.Keys && Rendered(b).Keys == b.Keys;
    if |a| != |b| {
      assert |a.Keys| == |a| && |b.Keys| == |b|;
      return false;
    }
    var todo := a.Keys;
    while todo != {}
      invariant todo <= a.Keys
      invariant forall k :: k in a && k !in todo ==> k in b && a[k].rendered == b[k].rendered
      decreases |todo|
    {
      var k :| k in todo;
      todo := todo - {k};
      if k !in b {
        return false;
      }
      if a[k].rendered != b[k].rendered {
        assert Rendered(a)[k] != Rendered(b)[k];
        return false;
      }
    }
    SubsetSize(a.Keys, b.Keys);
    return true;
  }

  /** Two monitors are equal exactly up to what is not compared. */
  method MonitorsEqual(a: MonitorConfig, b: MonitorConfig) returns (same: bool)
    ensures same <==> SameSettings(a, b)
  {
    if a.name != b.name || a.kind != b.kind || a.enabled != b.enabled || a.interval != b.interval || a.timeout != b.timeout {
      return false;
    }
    same := ConfigMapsEqual(a.config, b.config);
  }

  datatype Change = Change(before: MonitorConfig, after: MonitorConfig)

  datatype Diff = Diff(added: seq<MonitorConfig>, removed: seq<MonitorConfig>, modified: seq<Change>)

  function ByName(monitors: seq<MonitorConfig>): MonitorMap {
    if monitors == [] then map[]
    else
      var last := monitors[|monitors| - 1];
      ByName(monitors[..|monitors| - 1])[last.name := last]
  }

  ghost predicate Keyed(m: MonitorMap) {
    forall n :: n in m ==> m[n].name == n
  }

  lemma {:induction false} ByNameKeyed(monitors: seq<MonitorConfig>)
    ensures Keyed(ByName(monitors))
    decreases |monitors|
  {
    if monitors != [] { ByNameKeyed(monitors[..|monitors| - 1]); }
  }

  lemma {:induction false} ByNameUnique(monitors: seq<MonitorConfig>)
    requires UniqueNames(monitors)
    ensures ByName(monitors).Keys == Names(monitors)
    ensures forall m :: m in monitors ==> m.name in ByName(monitors) && ByName(monitors)[m.name] == m
    decreases |monitors|
  {
    if monitors != [] {
      var front, last := monitors[..|monitors| - 1], monitors[|monitors| - 1];
      ByNameUnique(front);
      assert monitors == front + [last];
      assert Names(monitors) == Names(front) + {last.name};
    }
  }

  ghost predicate UniqueChanges(changes: seq<Change>) {
    forall i, j :: 0 <= i < j < |changes| ==> changes[i].after.name != changes[j].after.name
  }

  /** The diff lists each difference once, in any order. */
  ghost predicate IsDiff(o: MonitorMap, n: MonitorMap, d: Diff) {
    && UniqueNames(d.added) && UniqueNames(d.removed) && UniqueChanges(d.modified)
    && (forall m :: m in d.added <==> m.name in n && n[m.name] == m && m.name !in o)
    && (forall m :: m in d.removed <==> m.name in o && o[m.name] == m && m.name !in n)
    && (forall c :: c in d.modified <==> c.after.name in n && n[c.after.name] == c.after && c.after.name in o
                                         && o[c.after.name] == c.before && !SameSettings(c.before, c.after))
  }

  method MakeMonitorMap(monitors: seq<MonitorConfig>) returns (m: MonitorMap)
    ensures m == ByName(monitors)
  {
    m := map[];
    for i := 0 to |monitors|
      invariant m == ByName(monitors[..i])
    {
      assert monitors[..i + 1][..i] == monitors[..i];
      m := m[monitors[i].name := monitors[i]];
    }
    assert monitors[..|monitors|] == monitors;
  }

  /** Added and modified monitors, in whatever order the map yields them. */
  method FindAddedAndModified(o: MonitorMap, n: MonitorMap) returns (added: seq<MonitorConfig>, modified: seq<Change>)
    requires Keyed(o) && Keyed(n)
    ensures UniqueNames(added) && UniqueChanges(modified)
    ensures forall m :: m in added <==> m.name in n && n[m.name] == m && m.name !in o
    ensures forall c :: c in modified <==> c.after.name in n && n[c.after.name] == c.after && c.after.name in o
                                           && o[c.after.name] == c.before && !SameSettings(c.before, c.after)
  {
    hide SameSettings;
    added, modified := [], [];
    var todo := n.Keys;
    while todo != {}
      invariant todo <= n.Keys && UniqueNames(added) && UniqueChanges(modified)
      invariant forall m :: m in added <==> m.name in n && m.name !in todo && n[m.name] == m && m.name !in o
      invariant forall c :: c in modified <==> c.after.name in n && c.after.name !in todo && n[c.after.name] == c.after
                                               && c.after.name in o && o[c.after.name] == c.before && !SameSettings(c.before, c.after)
      decreases |todo|
    {
      var name :| name in todo;
      todo := todo - {name};
      if name !in o {
        added := added + [n[name]];
      } else {
        var same := MonitorsEqual(o[name], n[name]);
        if !same {
          modified := modified + [Change(o[name], n[name])];
        }
      }
    }
  }

  method FindRemoved(o: MonitorMap, n: MonitorMap) returns (removed: seq<MonitorConfig>)
    requires Keyed(o)
    ensures UniqueNames(removed)
    ensures forall m :: m in removed <==> m.name in o && o[m.name] == m && m.name !in n
  {
    removed := [];
    var todo := o.Keys;
    while todo != {}
      invariant todo <= o.Keys && UniqueNames(removed)
      invariant forall m :: m in removed <==> m.name in o && m.name !in todo && o[m.name] == m && m.name !in n
      decreases |todo|
    {
      var name :| name in todo;
      todo := todo - {name};
      if name !in n {
        removed := removed + [o[name]];
      }
    }
  }

  // ----- Exporters and remediation -----

  // `rest` stands for the fields that no comparison reads.
  datatype Webhook = Webhook(name: string, url: string, sendStatus: bool, sendProblems: bool, rest: string)
  datatype KubernetesExporter = KubernetesExporter(enabled: bool, updateInterval: int, rest: string)
  datatype PrometheusExporter = PrometheusExporter(enabled: bool, port: int, path: string, rest: string)
  datatype HttpExporter = HttpExporter(enabled: bool, workers: int, queueSize: int, timeout: int, webhooks: seq<Webhook>, rest: string)
  datatype Exporters = Exporters(kubernetes: Option<KubernetesExporter>, prometheus: Option<PrometheusExporter>, http: Option<HttpExporter>)

  /** An absent `enabled` leaves the breaker on. */
  datatype BreakerSettings = BreakerSettings(enabled: Option<bool>, threshold: int, timeout: int, successThreshold: int)
  datatype Remediation = Remediation(enabled: bool, dryRun: bool, maxPerHour: int, breaker: BreakerSettings, rest: string)

  datatype Configuration = Configuration(monitors: seq<MonitorConfig>, exporters: Exporters, remediation: Remediation)

  function BareHttp(h: HttpExporter): HttpExporter {
    h.(webhooks := seq(|h.webhooks|, i requires 0 <= i < |h.webhooks| => h.webhooks[i].(rest := "")), rest := "")
  }

  /** The exporters stripped of what is not compared. */
  function Bare(e: Exporters): Exporters {
    Exporters(if e.kubernetes.Some? then Some(e.kubernetes.value.(rest := "")) else None,
              if e.prometheus.Some? then Some(e.prometheus.value.(rest := "")) else None,
              if e.http.Some? then Some(BareHttp(e.http.value)) else None)
  }

  /** Of the breaker's switch only an explicit "off" counts. */
  function BareRemediation(r: Remediation): Remediation {
    r.(breaker := r.breaker.(enabled := if r.breaker.enabled == Some(false) then Some(false) else None), rest := "")
  }

  method WebhooksEqual(a: seq<Webhook>, b: seq<Webhook>) returns (same: bool)
    requires |a| == |b|
    ensures same <==> forall i :: 0 <= i < |a| ==> a[i].(rest := "") == b[i].(rest := "")
  {
    for i := 0 to |a|
      invariant forall j :: 0 <= j < i ==> a[j].(rest := "") == b[j].(rest := "")
    {
      if !(a[i].name == b[i].name && a[i].url == b[i].url && a[i].sendStatus == b[i].sendStatus && a[i].sendProblems == b[i].sendProblems) {
        assert a[i].(rest := "") != b[i].(rest := "");
        return false;
      }
    }
    return true;
  }

  method HttpEqual(a: HttpExporter, b: HttpExporter) returns (same: bool)
    ensures same <==> BareHttp(a) == BareHttp(b)
  {
    if a.enabled != b.enabled || a.workers != b.workers || a.queueSize != b.queueSize || a.timeout != b.timeout
       || |a.webhooks| != |b.webhooks| {
      assert |BareHttp(a).webhooks| == |a.webhooks| && |BareHttp(b).webhooks| == |b.webhooks|;
      return false;
    }
    same := WebhooksEqual(a.webhooks, b.webhooks);
    var x, y := BareHttp(a).webhooks, BareHttp(b).webhooks;
    assert forall i :: 0 <= i < |a.webhooks| ==> x[i] == a.webhooks[i].(rest := "") && y[i] == b.webhooks[i].(rest := "");
    assert same ==> x == y;
  }

  /** Equal exactly up to the fields that are not compared. */
  method ExportersEqual(a: Exporters, b: Exporters) returns (same: bool)
    ensures same <==> Bare(a) == Bare(b)
  {
    if a.kubernetes.Some? != b.kubernetes.Some? {
      return false;
    }
    if a.kubernetes.Some? {
      var x, y := a.kubernetes.value, b.kubernetes.value;
      if x.enabled != y.enabled || x.updateInterval != y.updateInterval {
        return false;
      }
    }
    if a.prometheus.Some? != b.prometheus.Some? {
      return false;
    }
    if a.prometheus.Some? {
      var x, y := a.prometheus.value, b.prometheus.value;
      if x.enabled != y.enabled || x.port != y.port || x.path != y.path {
        return false;
      }
    }
    if a.http.Some? != b.http.Some? {
      return false;
    }
    if a.http.Some? {
      same := HttpEqual(a.http.value, b.http.value);
      return;
    }
    return true;
  }

  predicate Disabled(b: BreakerSettings) {
    b.enabled.Some? && !b.enabled.value
  }

  predicate RemediationEqual(a: Remediation, b: Remediation) {
    && a.enabled == b.enabled && a.dryRun == b.dryRun && a.maxPerHour == b.maxPerHour
    && Disabled(a.breaker) == Disabled(b.breaker) && a.breaker.threshold == b.breaker.threshold
    && a.breaker.timeout == b.breaker.timeout && a.breaker.successThreshold == b.breaker.successThreshold
  }

  datatype Changes = Changes(monitors: Diff, exportersChanged: bool, remediationChanged: bool)

  predicate HasChanges(c: Changes) {
    |c.monitors.added| > 0 || |c.monitors.removed| > 0 || |c.monitors.modified| > 0 || c.exportersChanged || c.remediationChanged
  }

  method ComputeConfigDiff(before: Configuration, after: Configuration) returns (c: Changes)
    ensures IsDiff(ByName(before.monitors), ByName(after.monitors), c.monitors)
    ensures c.exportersChanged <==> Bare(before.exporters) != Bare(after.exporters)
    ensures c.remediationChanged <==> BareRemediation(before.remediation) != BareRemediation(after.remediation)
  {
    var o := MakeMonitorMap(before.monitors);
    var n := MakeMonitorMap(after.monitors);
    ByNameKeyed(before.monitors);
    ByNameKeyed(after.monitors);
    var added, modified := FindAddedAndModified(o, n);
    var removed := FindRemoved(o, n);
    var exportersSame := ExportersEqual(before.exporters, after.exporters);
    hide Bare;
    c := Changes(Diff(added, removed, modified), !exportersSame, !RemediationEqual(before.remediation, after.remediation));
  }

  /** A diff reports no change exactly when the two configurations agree on everything compared. */
  lemma {:induction false} NoChangesIff(before: Configuration, after: Configuration, c: Changes)
    requires IsDiff(ByName(before.monitors), ByName(after.monitors), c.monitors)
    requires c.exportersChanged <==> Bare(before.exporters) != Bare(after.exporters)
    requires c.remediationChanged <==> BareRemediation(before.remediation) != BareRemediation(after.remediation)
    ensures !HasChanges(c) <==> SameMonitors(ByName(before.monitors), ByName(after.monitors))
                                && Bare(before.exporters) == Bare(after.exporters)
                                && BareRemediation(before.remediation) == BareRemediation(after.remediation)
  {
    ByNameKeyed(before.monitors);
    ByNameKeyed(after.monitors);
    DiffIsPatch(ByName(before.monitors), ByName(after.monitors), c.monitors);
    hide IsDiff, SameMonitors, Bare, BareRemediation;
  }

  // ----- The diff is a correct patch -----

  function ChangedNames(changes: seq<Change>): set<string> {
    set c | c in changes :: c.after.name
  }

  /** Applying a diff to the old name map. */
  ghost function Patched(o: MonitorMap, d: Diff): MonitorMap {
    map k | k in (o.Keys - Names(d.removed)) + Names(d.added) ::
      if k in Names(d.added) then (var m :| m in d.added && m.name == k; m)
      else if k in ChangedNames(d.modified) then (var c :| c in d.modified && c.after.name == k; c.after)
      else o[k]
  }

  ghost predicate SameMonitors(a: MonitorMap, b: MonitorMap) {
    a.Keys == b.Keys && forall k :: k in a ==> SameSettings(a[k], b[k])
  }

  lemma {:induction false} DiffNames(o: MonitorMap, n: MonitorMap, d: Diff)
    requires Keyed(o) && Keyed(n) && IsDiff(o, n, d)
    ensures Names(d.added) == n.Keys - o.Keys && Names(d.removed) == o.Keys - n.Keys
    ensures forall k :: k in ChangedNames(d.modified) <==> k in o && k in n && !SameSettings(o[k], n[k])
  {
    hide SameSettings;
    forall k | k in n.Keys - o.Keys ensures k in Names(d.added) { assert n[k] in d.added; }
    forall k | k in o.Keys - n.Keys ensures k in Names(d.removed) { assert o[k] in d.removed; }
    forall k | k in o && k in n && !SameSettings(o[k], n[k]) ensures k in ChangedNames(d.modified) {
      assert Change(o[k], n[k]) in d.modified;
    }
  }

  /** Added, removed and modified names are disjoint, and applying the diff to the old configuration gives the new one,
      up to the fields that are compared; the diff is empty exactly when the two agree that far. */
  lemma {:induction false} DiffIsPatch(o: MonitorMap, n: MonitorMap, d: Diff)
    requires Keyed(o) && Keyed(n) && IsDiff(o, n, d)
    ensures Names(d.added) !! Names(d.removed) !! ChangedNames(d.modified)
    ensures SameMonitors(Patched(o, d), n)
    ensures d.added == [] && d.removed == [] && d.modified == [] <==> SameMonitors(o, n)
  {
    DiffNames(o, n, d);
    PatchedValues(o, n, d);
    assert d.added != [] ==> d.added[0] in d.added;
    assert d.removed != [] ==> d.removed[0] in d.removed;
    assert d.modified != [] ==> d.modified[0] in d.modified;
  }

  lemma {:induction false} PatchedValues(o: MonitorMap, n: MonitorMap, d: Diff)
    requires Keyed(o) && Keyed(n) && IsDiff(o, n, d)
    ensures SameMonitors(Patched(o, d), n)
  {
    DiffNames(o, n, d);
    var p := Patched(o, d);
    assert p.Keys == n.Keys;
    forall k | k in p ensures SameSettings(p[k], n[k]) {
      hide SameSettings;
      if k in Names(d.added) {
        assert p[k] in d.added && p[k].name == k;
      } else if k in ChangedNames(d.modified) {
        var c :| c in d.modified && c.after.name == k && p[k] == c.after;
      }
    }
  }
}
