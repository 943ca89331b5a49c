/** The per-incident dispatch policy over whole runs of the detector (pkg/detector/detector.go): what holds for one
    key's checks holds for its dispatches in the log of any sequence of reports. */
module IncidentRuns {
  import opened MonitorTypes
  import opened Detector

  // ----- Keys -----

  ghost predicate ShareKey(s: string, t: string) {
    exists c: Condition, d: Condition :: KeyOf(s, c) == KeyOf(t, d)
  }

  /** Different monitors can share an incident exactly when one's name and a slash begin the other's. */
  lemma {:induction false} KeysShareIff(s: string, t: string)
    requires s != t
    ensures ShareKey(s, t) <==> s + "/" <= t || t + "/" <= s
  {
    if s + "/" <= t { Collide(s, t); }
    if t + "/" <= s { Collide(t, s); }
    if ShareKey(s, t) {
      var c: Condition, d: Condition :| KeyOf(s, c) == KeyOf(t, d);
      if |s| <= |t| { SharedPrefix(s, t, c, d); } else { SharedPrefix(t, s, d, c); }
    }
  }

  lemma {:induction false} SharedPrefix(s: string, t: string, c: Condition, d: Condition)
    requires s != t && |s| <= |t| && KeyOf(s, c) == KeyOf(t, d)
    ensures s + "/" <= t
  {
    var key := KeyOf(s, c);
    assert key[..|s|] == s && key[|s|] == '/' && key[..|t|] == t && key[..|s|] == t[..|s|];
    assert |s| < |t| ==> t[|s|] == '/';
  }

  lemma {:induction false} Collide(s: string, t: string)
    requires s + "/" <= t
    ensures ShareKey(s, t)
  {
    var c, d := Condition(t[|s| + 1..] + "/", ConditionFalse), Condition("", ConditionFalse);
    assert t == s + "/" + t[|s| + 1..];
    assert KeyOf(s, c) == KeyOf(t, d);
  }

  /** Every monitor whose conditions can carry this key dispatches under `p`, or not at all. */
  ghost predicate KeyPolicy(index: Index, key: string, p: RemediationPolicy) {
    forall n :: n in index && n + "/" <= key && ActivePolicy(index, n).Some? ==> ActivePolicy(index, n).value == p
  }

  /** If no configured name begins another with a slash after it (none with a slash, in particular), every key is
      governed by the policy of its own monitor. */
  lemma {:induction false} OwnPolicyGoverns(index: Index, source: string, c: Condition, p: RemediationPolicy)
    requires forall n :: n in index && n != source ==> !(n + "/" <= source) && !(source + "/" <= n)
    requires ActivePolicy(index, source) == Some(p)
    ensures KeyPolicy(index, KeyOf(source, c), p)
  {
    var key := KeyOf(source, c);
    forall n | n in index && n + "/" <= key ensures n == source {
      if n != source {
        var d := Condition(key[|n| + 1..], ConditionFalse);
        assert key == n + "/" + d.kind;
        if |n| <= |source| { SharedPrefix(n, source, d, c); } else { SharedPrefix(source, n, c, d); }
      }
    }
  }

  lemma {:induction false} SlashFreeNamesDiffer(s: string, t: string)
    requires s != t && '/' !in s && '/' !in t
    ensures !ShareKey(s, t)
  {
    KeysShareIff(s, t);
    if s + "/" <= t { SlashInside(s, t); }
    if t + "/" <= s { SlashInside(t, s); }
  }

  lemma {:induction false} SlashInside(s: string, t: string)
    requires s + "/" <= t
    ensures '/' in t
  {
    assert t[|s|] == (s + "/")[|s|];
  }

  // ----- One status -----

  /** The checks of one key that the conditions of a status cause. */
  function ChecksOf(p: RemediationPolicy, source: string, conditions: seq<Condition>, key: string, looks: seq<Look>): seq<Check> {
    if conditions == [] then []
    else
      var c, look := conditions[|conditions| - 1], LookAt(looks, |conditions| - 1);
      ChecksOf(p, source, conditions[..|conditions| - 1], key, looks) +
        if KeyOf(source, c) != key then []
        else match RemediationTrigger(p, c)
          case Irrelevant => []
          case OutOfProblemState => [Cleared]
          case InProblemState => [Triggered(look.now, look.holds)]
  }

  /** The times at which one key is dispatched. */
  function TimesOf(dispatched: seq<Dispatched>, key: string): seq<nat> {
    if dispatched == [] then []
    else
      var last := dispatched[|dispatched| - 1];
      TimesOf(dispatched[..|dispatched| - 1], key) + if last.key == key then [last.at] else []
  }

  lemma {:induction false} TimesOfAppend(a: seq<Dispatched>, b: seq<Dispatched>, key: string)
    ensures TimesOf(a + b, key) == TimesOf(a, key) + TimesOf(b, key)
    decreases |b|
  {
    if b == [] {
      assert a + b == a;
    } else {
      assert (a + b)[..|a + b| - 1] == a + b[..|b| - 1];
      TimesOfAppend(a, b[..|b| - 1], key);
    }
  }

  /** Checks after checks start from the incident the first ones left. */
  lemma {:induction false} ChecksAppend(p: RemediationPolicy, inc: Incident, a: seq<Check>, b: seq<Check>)
    ensures CheckedAll(p, inc, a + b) == CheckedAll(p, CheckedAll(p, inc, a), b)
    ensures DispatchTimes(p, inc, a + b) == DispatchTimes(p, inc, a) + DispatchTimes(p, CheckedAll(p, inc, a), b)
    decreases |b|
  {
    if b == [] {
      assert a + b == a;
    } else {
      assert (a + b)[..|a + b| - 1] == a + b[..|b| - 1];
      ChecksAppend(p, inc, a, b[..|b| - 1]);
    }
  }

  /** Evaluating a status does to each key's incident what its checks do, and dispatches it when they do. */
  lemma {:induction false} EvaluatedProjects(p: RemediationPolicy, source: string, conditions: seq<Condition>, incidents: Incidents,
                                             looks: seq<Look>, key: string)
    ensures var checks := ChecksOf(p, source, conditions, key, looks);
            var (after, dispatched) := Evaluated(p, source, conditions, incidents, looks);
            && IncidentAt(after, key) == CheckedAll(p, IncidentAt(incidents, key), checks)
            && TimesOf(dispatched, key) == DispatchTimes(p, IncidentAt(incidents, key), checks)
    decreases |conditions|
  {
    if conditions != [] {
      var front, c, look := conditions[..|conditions| - 1], conditions[|conditions| - 1], LookAt(looks, |conditions| - 1);
      EvaluatedProjects(p, source, front, incidents, looks, key);
      var checks := ChecksOf(p, source, front, key, looks);
      var more := ChecksOf(p, source, conditions, key, looks)[|checks|..];
      ChecksAppend(p, IncidentAt(incidents, key), checks, more);
      TimesOfAppend(Evaluated(p, source, front, incidents, looks).1, [Dispatched(KeyOf(source, c), look.now)], key);
      assert more != [] ==> more[..0] == [] && |more| == 1;
      var one := [Dispatched(KeyOf(source, c), look.now)];
      assert one[..0] == [] && TimesOf([], key) == [];
      assert TimesOf(one, key) == if KeyOf(source, c) == key then [look.now] else [];
      hide Admission, TimesOf;
    }
  }

  lemma {:induction false} NoChecks(p: RemediationPolicy, source: string, conditions: seq<Condition>, key: string, looks: seq<Look>)
    requires !(source + "/" <= key)
    ensures ChecksOf(p, source, conditions, key, looks) == []
    decreases |conditions|
  {
    if conditions != [] {
      var c := conditions[|conditions| - 1];
      NoChecks(p, source, conditions[..|conditions| - 1], key, looks);
      assert source + "/" <= KeyOf(source, c);
    }
  }

  // ----- One report -----

  /** The checks of one key that a report causes when handled in state `s`. */
  function ReportChecks(index: Index, s: State, r: Report, key: string): seq<Check> {
    var st := Effective(index, s.last, r.status);
    match ActivePolicy(index, st.source)
    case None => []
    case Some(p) => ChecksOf(p, st.source, st.conditions, key, r.looks)
  }

  lemma {:induction false} HandledProjects(index: Index, s: State, r: Report, key: string, p: RemediationPolicy)
    requires KeyPolicy(index, key, p)
    ensures var checks := ReportChecks(index, s, r, key);
            var (after, dispatched) := Handled(index, s, r);
            && IncidentAt(after.incidents, key) == CheckedAll(p, IncidentAt(s.incidents, key), checks)
            && TimesOf(dispatched, key) == DispatchTimes(p, IncidentAt(s.incidents, key), checks)
  {
    hide ChecksOf, Evaluated;
    var st := Effective(index, s.last, r.status);
    match ActivePolicy(index, st.source)
    case None =>
    case Some(q) =>
      EvaluatedProjects(q, st.source, st.conditions, s.incidents, r.looks, key);
      if q != p {
        NoChecks(q, st.source, st.conditions, key, r.looks);
      }
  }

  /** Check `j` finds its cooldown over, its preconditions met, and room for an attempt since the incident began anew,
      if nothing is dispatched before it. */
  ghost predicate Ready(p: RemediationPolicy, inc: Incident, checks: seq<Check>, j: nat) {
    && j < |checks| && checks[j].Triggered? && checks[j].holds
    && (p.cooldown == 0 || inc.lastAttempt.None? || checks[j].now - inc.lastAttempt.value >= p.cooldown)
    && (p.maxAttemptsPerIncident == 0 || inc.attempts < p.maxAttemptsPerIncident || Cleared in checks[..j])
  }

  ghost predicate SomeReady(p: RemediationPolicy, inc: Incident, checks: seq<Check>) {
    exists j: nat :: Ready(p, inc, checks, j)
  }

  lemma {:induction false} QuietKeeps(p: RemediationPolicy, inc: Incident, checks: seq<Check>)
    requires DispatchTimes(p, inc, checks) == []
    ensures CheckedAll(p, inc, checks).lastAttempt == inc.lastAttempt
    ensures CheckedAll(p, inc, checks).attempts == if Cleared in checks then 0 else inc.attempts
    decreases |checks|
  {
    if checks != [] {
      var front, c := checks[..|checks| - 1], checks[|checks| - 1];
      assert checks == front + [c];
      QuietKeeps(p, inc, front);
    }
  }

  /** Checks dispatch nothing exactly when none of them is ready. */
  lemma {:induction false} NoDispatchIff(p: RemediationPolicy, inc: Incident, checks: seq<Check>)
    ensures DispatchTimes(p, inc, checks) == [] <==> !SomeReady(p, inc, checks)
    decreases |checks|
  {
    if checks != [] {
      var front, c := checks[..|checks| - 1], checks[|checks| - 1];
      NoDispatchIff(p, inc, front);
      forall j: nat | j < |front| ensures Ready(p, inc, checks, j) <==> Ready(p, inc, front, j) {
        assert checks[..j] == front[..j];
      }
      if DispatchTimes(p, inc, front) == [] {
        QuietKeeps(p, inc, front);
        assert Ready(p, inc, checks, |front|) <==> Dispatches(p, CheckedAll(p, inc, front), c);
      } else {
        var j: nat :| j < |front| && Ready(p, inc, front, j);
        assert Ready(p, inc, checks, j);
      }
    }
  }

  /** The condition calls for remediation: it is False, or, under a trigger list, listed and True. */
  ghost predicate InTrouble(triggers: seq<string>, c: Condition) {
    if triggers == [] then c.status == ConditionFalse else c.kind in triggers && c.status == ConditionTrue
  }

  /** Condition `i` is of this kind, calls for remediation, and its preconditions hold. */
  ghost predicate Calls(triggers: seq<string>, conditions: seq<Condition>, looks: seq<Look>, kind: string, i: nat) {
    i < |conditions| && conditions[i].kind == kind && InTrouble(triggers, conditions[i]) && LookAt(looks, i).holds
  }

  ghost predicate SomeHolds(checks: seq<Check>) {
    exists j :: 0 <= j < |checks| && checks[j].Triggered? && checks[j].holds
  }

  ghost predicate SomeCalls(triggers: seq<string>, conditions: seq<Condition>, looks: seq<Look>, kind: string) {
    exists i: nat :: Calls(triggers, conditions, looks, kind, i)
  }

  lemma {:induction false} ChecksCall(p: RemediationPolicy, source: string, conditions: seq<Condition>, kind: string, looks: seq<Look>)
    ensures SomeHolds(ChecksOf(p, source, conditions, source + "/" + kind, looks)) <==> SomeCalls(p.triggerConditions, conditions, looks, kind)
    decreases |conditions|
  {
    if conditions != [] {
      var n, key := |conditions| - 1, source + "/" + kind;
      var front, c := conditions[..n], conditions[n];
      ChecksCall(p, source, front, kind, looks);
      var before, checks := ChecksOf(p, source, front, key, looks), ChecksOf(p, source, conditions, key, looks);
      assert KeyOf(source, c) == key <==> c.kind == kind by {
        assert KeyOf(source, c)[|source| + 1..] == c.kind && key[|source| + 1..] == kind;
      }
      var more := checks[|before|..];
      assert checks == before + more;
      assert more == [] || more == [Cleared] || more == [Triggered(LookAt(looks, n).now, LookAt(looks, n).holds)];
      assert Calls(p.triggerConditions, conditions, looks, kind, n) <==> more != [] && more[0].Triggered? && more[0].holds;
      hide ChecksOf, InTrouble, Calls, RemediationTrigger, KeyOf;
      CallsSplit(p.triggerConditions, conditions, looks, kind, before, more);
    }
  }

  lemma {:induction false} CallsSplit(triggers: seq<string>, conditions: seq<Condition>, looks: seq<Look>, kind: string, before: seq<Check>, more: seq<Check>)
    requires conditions != [] && |more| <= 1
    requires SomeHolds(before) <==> SomeCalls(triggers, conditions[..|conditions| - 1], looks, kind)
    requires Calls(triggers, conditions, looks, kind, |conditions| - 1) <==> more != [] && more[0].Triggered? && more[0].holds
    ensures SomeHolds(before + more) <==> SomeCalls(triggers, conditions, looks, kind)
  {
    var n := |conditions| - 1;
    forall i: nat | i < n ensures Calls(triggers, conditions, looks, kind, i) <==> Calls(triggers, conditions[..n], looks, kind, i) {}
    if SomeCalls(triggers, conditions[..n], looks, kind) {
      var i: nat :| Calls(triggers, conditions[..n], looks, kind, i);
      assert Calls(triggers, conditions, looks, kind, i);
    }
    if SomeHolds(before) {
      var j :| 0 <= j < |before| && before[j].Triggered? && before[j].holds;
      assert (before + more)[j] == before[j];
    }
    if more != [] { assert (before + more)[|before|] == more[0]; }
  }

  /** A report of an unblocked monitor, with no incident known for the key, dispatches it exactly when the monitor is
      configured with remediation, enabled and with a strategy, and some condition of that type calls for it. */
  lemma {:induction false} DispatchedIff(index: Index, s: State, r: Report, kind: string)
    requires !Blocked(index, s.last, r.status.source) && r.status.source + "/" + kind !in s.incidents
    ensures TimesOf(Handled(index, s, r).1, r.status.source + "/" + kind) != [] <==>
            && r.status.source in index && index[r.status.source].remediation.Some?
            && index[r.status.source].remediation.value.enabled && index[r.status.source].remediation.value.strategies != []
            && SomeCalls(index[r.status.source].remediation.value.triggerConditions, r.status.conditions, r.looks, kind)
  {
    var source, key := r.status.source, r.status.source + "/" + kind;
    if ActivePolicy(index, source).Some? {
      var p := ActivePolicy(index, source).value;
      EvaluatedProjects(p, source, r.status.conditions, s.incidents, r.looks, key);
      var checks := ChecksOf(p, source, r.status.conditions, key, r.looks);
      NoDispatchIff(p, NEW_INCIDENT, checks);
      assert SomeReady(p, NEW_INCIDENT, checks) <==> SomeHolds(checks) by {
        if SomeHolds(checks) {
          var j :| 0 <= j < |checks| && checks[j].Triggered? && checks[j].holds;
          assert Ready(p, NEW_INCIDENT, checks, j);
        }
      }
      ChecksCall(p, source, r.status.conditions, kind, r.looks);
      hide ChecksOf, SomeCalls, SomeReady, SomeHolds, Evaluated, TimesOf, DispatchTimes;
    }
  }

  /** A report whose conditions repeat a type dispatches its key again after the first time, at check `f`, exactly when
      a later check is ready for it: the remediation in between may have outlasted the cooldown. */
  lemma {:induction false} RepeatDispatchedIff(index: Index, s: State, r: Report, key: string, p: RemediationPolicy, f: nat)
    requires KeyPolicy(index, key, p) && f < |ReportChecks(index, s, r, key)|
    requires var inc, checks := IncidentAt(s.incidents, key), ReportChecks(index, s, r, key);
             DispatchTimes(p, inc, checks[..f]) == [] && Dispatches(p, CheckedAll(p, inc, checks[..f]), checks[f])
    ensures var inc, checks := IncidentAt(s.incidents, key), ReportChecks(index, s, r, key);
            var first := CheckedAll(p, inc, checks[..f + 1]);
            && first.lastAttempt == Some(checks[f].now)
            && (|TimesOf(Handled(index, s, r).1, key)| > 1 <==> SomeReady(p, first, checks[f + 1..]))
  {
    var inc, checks := IncidentAt(s.incidents, key), ReportChecks(index, s, r, key);
    HandledProjects(index, s, r, key, p);
    assert checks[..f + 1][..f] == checks[..f] && checks == checks[..f + 1] + checks[f + 1..];
    assert DispatchTimes(p, inc, checks[..f + 1]) == [checks[f].now];
    hide ReportChecks, Handled, TimesOf, KeyPolicy, SomeReady;
    ChecksAppend(p, inc, checks[..f + 1], checks[f + 1..]);
    NoDispatchIff(p, CheckedAll(p, inc, checks[..f + 1]), checks[f + 1..]);
  }

  /** The disk monitor reports a full root and a full data mount in one status; the first remediation takes 10, twice
      the cooldown, and the second mount dispatches the same key again. */
  lemma {:induction false} RepeatedTypeDispatchesTwice()
    ensures var p := RemediationPolicy(true, ["disk-cleanup"], [], 0, 5);
            var m := MonitorConfig("disk", "system-disk", true, 30, 10, map[], Some(p), []);
            var full := Condition("DiskPressure", ConditionFalse);
            Handled(map["disk" := m], State(map[], map[]), Report(Status("disk", [full, full]), [Look(0, true), Look(10, true)])).1
            == [Dispatched("disk/DiskPressure", 0), Dispatched("disk/DiskPressure", 10)]
  {
    var p := RemediationPolicy(true, ["disk-cleanup"], [], 0, 5);
    var full, looks := Condition("DiskPressure", ConditionFalse), [Look(0, true), Look(10, true)];
    assert [full, full][..1] == [full] && [full][..0] == [];
    assert Evaluated(p, "disk", [], map[], looks) == (map[], []);
    assert KeyOf("disk", full) == "disk/DiskPressure";
    assert Evaluated(p, "disk", [full], map[], looks).1 == [Dispatched("disk/DiskPressure", 0)];
  }

  // ----- Whole runs -----

  /** The checks of one key over a run of reports. */
  function RunChecks(index: Index, s: State, reports: seq<Report>, key: string): seq<Check> {
    if reports == [] then []
    else
      var front, last := reports[..|reports| - 1], reports[|reports| - 1];
      RunChecks(index, s, front, key) + ReportChecks(index, HandledAll(index, s, front).0, last, key)
  }

  /** The times at which one key is dispatched, over the log of a run. */
  function LogTimes(log: seq<seq<Dispatched>>, key: string): seq<nat> {
    if log == [] then [] else LogTimes(log[..|log| - 1], key) + TimesOf(log[|log| - 1], key)
  }

  /** One key's entries in the log of a run are the dispatches among its checks. */
  lemma {:induction false} RunProjects(index: Index, s: State, reports: seq<Report>, key: string, p: RemediationPolicy)
    requires KeyPolicy(index, key, p)
    ensures var checks, inc := RunChecks(index, s, reports, key), IncidentAt(s.incidents, key);
            var (after, log) := HandledAll(index, s, reports);
            && IncidentAt(after.incidents, key) == CheckedAll(p, inc, checks)
            && LogTimes(log, key) == DispatchTimes(p, inc, checks)
    decreases |reports|
  {
    if reports != [] {
      var front, last := reports[..|reports| - 1], reports[|reports| - 1];
      var (before, log) := HandledAll(index, s, front);
      RunProjects(index, s, front, key, p);
      HandledProjects(index, before, last, key, p);
      ChecksAppend(p, IncidentAt(s.incidents, key), RunChecks(index, s, front, key), ReportChecks(index, before, last, key));
      var dispatched := Handled(index, before, last).1;
      assert (log + [dispatched])[..|log|] == log;
      hide Handled, ReportChecks, CheckedAll, DispatchTimes, KeyPolicy, TimesOf;
    }
  }

  /** In any run of a fresh detector, over any stretch `reports` after `before` in which no check finds the key out of
      its problem state, the key is dispatched at most MaxAttemptsPerIncident times. */
  lemma {:induction false} RunDispatchesCapped(index: Index, last: Statuses, before: seq<Report>, reports: seq<Report>, key: string, p: RemediationPolicy)
    requires KeyPolicy(index, key, p) && p.maxAttemptsPerIncident > 0
    requires AllTriggered(RunChecks(index, HandledAll(index, State(last, map[]), before).0, reports, key))
    ensures |LogTimes(HandledAll(index, HandledAll(index, State(last, map[]), before).0, reports).1, key)| <= p.maxAttemptsPerIncident
  {
    var s := State(last, map[]);
    var s' := HandledAll(index, s, before).0;
    RunProjects(index, s, before, key, p);
    RunProjects(index, s', reports, key, p);
    IncidentDispatchesCapped(p, RunChecks(index, s, before, key), RunChecks(index, s', reports, key));
  }

  // ----- Spacing -----

  /** The clock readings of a report do not go back and lie between these times. */
  ghost predicate LooksWithin(r: Report, lo: nat, hi: nat) {
    && |r.looks| >= |r.status.conditions| && lo <= hi
    && (forall i :: 0 <= i < |r.looks| ==> lo <= r.looks[i].now <= hi)
    && forall i, j :: 0 <= i < j < |r.looks| ==> r.looks[i].now <= r.looks[j].now
  }

  /** `clock[i]` is when report `i` begins. */
  ghost predicate RunsBy(reports: seq<Report>, clock: seq<nat>) {
    |clock| == |reports| + 1 && forall i :: 0 <= i < |reports| ==> LooksWithin(reports[i], clock[i], clock[i + 1])
  }

  ghost predicate ChecksWithin(checks: seq<Check>, lo: nat, hi: nat) {
    && lo <= hi && ClockMonotone(checks)
    && forall i :: 0 <= i < |checks| && checks[i].Triggered? ==> lo <= checks[i].now <= hi
  }

  lemma {:induction false} StatusChecksWithin(p: RemediationPolicy, source: string, conditions: seq<Condition>, key: string, r: Report, lo: nat, hi: nat)
    requires LooksWithin(r, lo, hi) && |conditions| <= |r.looks|
    ensures ChecksWithin(ChecksOf(p, source, conditions, key, r.looks), lo, if conditions == [] then lo else r.looks[|conditions| - 1].now)
    decreases |conditions|
  {
    if conditions != [] {
      var front := conditions[..|conditions| - 1];
      StatusChecksWithin(p, source, front, key, r, lo, hi);
      var checks, mid := ChecksOf(p, source, front, key, r.looks), if front == [] then lo else r.looks[|front| - 1].now;
      var more := ChecksOf(p, source, conditions, key, r.looks)[|checks|..];
      assert ChecksWithin(more, mid, r.looks[|front|].now);
      hide ChecksOf, ChecksWithin;
    }
  }

  lemma {:induction false} ReportChecksWithin(index: Index, s: State, r: Report, key: string, lo: nat, hi: nat)
    requires LooksWithin(r, lo, hi)
    ensures ChecksWithin(ReportChecks(index, s, r, key), lo, hi)
  {
    var st := Effective(index, s.last, r.status);
    if ActivePolicy(index, st.source).Some? {
      var p := ActivePolicy(index, st.source).value;
      if st == r.status {
        StatusChecksWithin(p, st.source, st.conditions, key, r, lo, hi);
      } else {
        BlockedChecksNothing(p, st.source, key, r.looks);
      }
    }
  }

  lemma {:induction false} BlockedChecksNothing(p: RemediationPolicy, name: string, key: string, looks: seq<Look>)
    ensures var checks := ChecksOf(p, name, SynthBlockedStatus(name).conditions, key, looks); checks == [] || checks == [Cleared]
  {
    var conditions := SynthBlockedStatus(name).conditions;
    assert conditions[..0] == [] && ChecksOf(p, name, conditions[..0], key, looks) == [];
  }

  lemma {:induction false} RunChecksWithin(index: Index, s: State, reports: seq<Report>, key: string, clock: seq<nat>)
    requires RunsBy(reports, clock)
    ensures ChecksWithin(RunChecks(index, s, reports, key), clock[0], clock[|reports|])
    decreases |reports|
  {
    if reports != [] {
      var n := |reports| - 1;
      var before := HandledAll(index, s, reports[..n]).0;
      RunChecksWithin(index, s, reports[..n], key, clock[..n + 1]);
      ReportChecksWithin(index, before, reports[n], key, clock[n], clock[n + 1]);
      hide ChecksWithin, ReportChecks, HandledAll;
    }
  }

  /** In any run, any two dispatches of a key, by different reports or by one, are at least Cooldown apart, also across
      incidents. */
  lemma {:induction false} RunDispatchesSpaced(index: Index, s: State, reports: seq<Report>, key: string, p: RemediationPolicy, clock: seq<nat>, i: nat, j: nat)
    requires KeyPolicy(index, key, p) && RunsBy(reports, clock)
    requires i < j < |LogTimes(HandledAll(index, s, reports).1, key)|
    ensures var times := LogTimes(HandledAll(index, s, reports).1, key); times[j] - times[i] >= p.cooldown
  {
    RunProjects(index, s, reports, key, p);
    RunChecksWithin(index, s, reports, key, clock);
    hide HandledAll, RunChecks, KeyPolicy, RunsBy, LogTimes;
    DispatchesSpaced(p, IncidentAt(s.incidents, key), RunChecks(index, s, reports, key), i, j);
  }
}
