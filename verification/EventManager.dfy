/** Deduplication and rate limiting of Kubernetes events
    (pkg/exporters/kubernetes/event_manager.go), as any number of overlapping CreateEvent calls. */
module EventManager {
  import opened MonitorTypes
  import opened Collections

  /** One minute in nanoseconds. */
  const MINUTE: nat := 60_000_000_000

  function Truncate(t: int): (m: int)
    ensures m <= t < m + MINUTE && m % MINUTE == 0
  {
    t - t % MINUTE
  }

  /** What an event is deduplicated by; `None` is Go's zero time. The hash of a signature is taken to
      be injective, so the signature is its own cache key. */
  datatype Signature = Signature(reason: string, message: string, kind: string, source: string, timestamp: Option<int>)

  /** The fields of an event that its signature reads. */
  datatype Event = Event(reason: string, message: string, kind: string, source: string, firstTimestamp: Option<int>)

  function SignatureOf(e: Event): Signature {
    Signature(e.reason, e.message, e.kind, e.source,
              if e.firstTimestamp.Some? then Some(Truncate(e.firstTimestamp.value)) else None)
  }

  /** Two events share a signature exactly when they agree in reason, message, type and source, and both carry no time
      or times in the same minute. */
  lemma {:induction false} SameSignatureIff(a: Event, b: Event)
    ensures SignatureOf(a) == SignatureOf(b) <==>
            && a.reason == b.reason && a.message == b.message && a.kind == b.kind && a.source == b.source
            && (a.firstTimestamp.Some? <==> b.firstTimestamp.Some?)
            && (a.firstTimestamp.Some? ==> a.firstTimestamp.value / MINUTE == b.firstTimestamp.value / MINUTE)
  {
  }

  // ----- The atomic sections -----

  /** The time under which a signature recorded at `now` is remembered. */
  function Stamp(sig: Signature, now: int): int {
    if sig.timestamp.Some? then sig.timestamp.value else now
  }

  predicate Duplicate(cache: map<Signature, int>, ttl: nat, sig: Signature, now: int) {
    sig in cache && now - cache[sig] < ttl
  }

  function Fresh(cache: map<Signature, int>, ttl: nat, now: int): map<Signature, int> {
    map sig | sig in cache && now - cache[sig] <= ttl :: cache[sig]
  }

  function Recent(counts: map<int, nat>, now: int): map<int, nat> {
    map m | m in counts && now - m <= 2 * MINUTE :: counts[m]
  }

  function CountOf(counts: map<int, nat>, m: int): nat {
    if m in counts then counts[m] else 0
  }

  predicate HasQuota(counts: map<int, nat>, max: nat, now: int) {
    CountOf(Recent(counts, now), Truncate(now)) < max
  }

  function Limited(counts: map<int, nat>, max: nat, now: int): map<int, nat> {
    var recent := Recent(counts, now);
    if HasQuota(counts, max, now) then recent[Truncate(now) := CountOf(recent, Truncate(now)) + 1] else recent
  }

  // ----- Runs of overlapping calls -----

  /** Where a CreateEvent call stands: past the duplicate check, or past the rate limit too. */
  datatype Phase = Checked(sig: Signature) | Admitted(sig: Signature)

  /** `cache` and `counts` are the manager's maps. `uncleaned` is the cache without any clean-up, `admitted` the
      times of all admissions so far and `created` all events created. */
  datatype Manager = Manager(
    now: int,
    cache: map<Signature, int>,
    counts: map<int, nat>,
    calls: map<nat, Phase>,
    uncleaned: map<Signature, int>,
    admitted: seq<int>,
    created: multiset<Signature>)

  /** A call checks for a duplicate, then the rate limit, then ends with the API's answer. */
  datatype Step = Check(call: nat, sig: Signature) | Limit(call: nat) | End(call: nat, created: bool) | Cleanup | Tick(t: nat)

  /** Events are stamped with the time they happen, so a signature is never ahead of the clock. */
  ghost predicate Enabled(s: Manager, step: Step) {
    match step
    case Check(c, sig) => c !in s.calls && (sig.timestamp.Some? ==> sig.timestamp.value <= s.now)
    case Limit(c) => c in s.calls && s.calls[c].Checked?
    case End(c, _) => c in s.calls && s.calls[c].Admitted?
    case Cleanup => true
    case Tick(_) => true
  }

  ghost function Apply(max: nat, ttl: nat, s: Manager, step: Step): Manager
    requires Enabled(s, step)
  {
    match step
    case Check(c, sig) => if Duplicate(s.cache, ttl, sig, s.now) then s else s.(calls := s.calls[c := Checked(sig)])
    case Limit(c) =>
      if HasQuota(s.counts, max, s.now)
      then s.(counts := Limited(s.counts, max, s.now),
              calls := s.calls[c := Admitted(s.calls[c].sig)],
              admitted := s.admitted + [s.now])
      else s.(counts := Limited(s.counts, max, s.now), calls := s.calls - {c})
    case End(c, created) =>
      var sig := s.calls[c].sig;
      if created
      then s.(cache := s.cache[sig := Stamp(sig, s.now)],
              uncleaned := s.uncleaned[sig := Stamp(sig, s.now)],
              created := s.created + multiset{sig},
              calls := s.calls - {c})
      else s.(calls := s.calls - {c})
    case Cleanup => s.(cache := Fresh(s.cache, ttl, s.now), counts := Recent(s.counts, s.now))
    case Tick(t) => s.(now := s.now + t)
  }

  ghost predicate Run(max: nat, ttl: nat, states: seq<Manager>, steps: seq<Step>) {
    && |states| == |steps| + 1
    && states[0] == Manager(states[0].now, map[], map[], map[], map[], [], multiset{})
    && forall i :: 0 <= i < |steps| ==> Enabled(states[i], steps[i]) && states[i + 1] == Apply(max, ttl, states[i], steps[i])
  }

  // ----- The rate limit -----

  function CountInMinute(times: seq<int>, m: int): nat {
    if times == [] then 0 else CountInMinute(times[..|times| - 1], m) + if Truncate(times[|times| - 1]) == m then 1 else 0
  }

  /** The counter of every minute that can still matter is the number of its admissions. */
  ghost predicate Counts(counts: map<int, nat>, admitted: seq<int>, max: nat, now: int) {
    && (forall m :: CountInMinute(admitted, m) <= max)
    && (forall m :: CountInMinute(admitted, m) > 0 ==> m <= now)
    && (forall m :: m in counts ==> counts[m] == CountInMinute(admitted, m))
    && (forall m :: m !in counts && now - m <= 2 * MINUTE ==> CountInMinute(admitted, m) == 0)
  }

  lemma {:induction false} RecentCounts(counts: map<int, nat>, admitted: seq<int>, max: nat, now: int)
    requires Counts(counts, admitted, max, now)
    ensures Counts(Recent(counts, now), admitted, max, now)
  {
  }

  lemma {:induction false} LimitCounts(counts: map<int, nat>, admitted: seq<int>, max: nat, now: int)
    requires Counts(counts, admitted, max, now)
    ensures Counts(Limited(counts, max, now), if HasQuota(counts, max, now) then admitted + [now] else admitted, max, now)
  {
    RecentCounts(counts, admitted, max, now);
    if HasQuota(counts, max, now) {
      var recent, current := Recent(counts, now), Truncate(now);
      var more := admitted + [now];
      assert more[..|admitted|] == admitted;
      forall m ensures CountInMinute(more, m) == CountInMinute(admitted, m) + if m == current then 1 else 0 {}
      assert CountOf(recent, current) == CountInMinute(admitted, current);
    }
  }

  lemma {:induction false} QuotaIffRoom(counts: map<int, nat>, admitted: seq<int>, max: nat, seen: int, now: int)
    requires Counts(counts, admitted, max, seen) && seen <= now
    ensures HasQuota(counts, max, now) <==> CountInMinute(admitted, Truncate(now)) < max
    ensures Counts(Limited(counts, max, now), if HasQuota(counts, max, now) then admitted + [now] else admitted, max, now)
  {
    RecentCounts(counts, admitted, max, now);
    LimitCounts(counts, admitted, max, now);
    assert CountOf(Recent(counts, now), Truncate(now)) == CountInMinute(admitted, Truncate(now));
  }

  // ----- The cleaned cache against the uncleaned one -----

  /** The cache has lost only what was older than the TTL. */
  ghost predicate Agrees(cache: map<Signature, int>, uncleaned: map<Signature, int>, ttl: nat, now: int) {
    && (forall sig :: sig in cache ==> sig in uncleaned && cache[sig] == uncleaned[sig])
    && (forall sig :: sig in uncleaned && sig !in cache ==> now - uncleaned[sig] > ttl)
  }

  ghost predicate Inv(max: nat, ttl: nat, s: Manager) {
    Counts(s.counts, s.admitted, max, s.now) && Agrees(s.cache, s.uncleaned, ttl, s.now)
  }

  lemma {:induction false} StepKeepsInv(max: nat, ttl: nat, s: Manager, step: Step)
    requires Inv(max, ttl, s) && Enabled(s, step)
    ensures Inv(max, ttl, Apply(max, ttl, s, step))
  {
    RecentCounts(s.counts, s.admitted, max, s.now);
    LimitCounts(s.counts, s.admitted, max, s.now);
  }

  lemma {:induction false} RunKeepsInv(max: nat, ttl: nat, states: seq<Manager>, steps: seq<Step>, i: nat)
    requires Run(max, ttl, states, steps) && i < |states|
    ensures Inv(max, ttl, states[i])
  {
    if i > 0 {
      RunKeepsInv(max, ttl, states, steps, i - 1);
      assert states[i - 1 + 1] == Apply(max, ttl, states[i - 1], steps[i - 1]);
      StepKeepsInv(max, ttl, states[i - 1], steps[i - 1]);
    }
  }

  /** Whatever overlaps, no clock minute sees more admissions than the limit. */
  lemma {:induction false} MinuteLimited(max: nat, ttl: nat, states: seq<Manager>, steps: seq<Step>, i: nat, m: int)
    requires Run(max, ttl, states, steps) && i < |states|
    ensures CountInMinute(states[i].admitted, m) <= max
  {
    RunKeepsInv(max, ttl, states, steps, i);
  }

  /** The limit is also used up: a call is refused only when its minute already holds `max` admissions. */
  lemma {:induction false} RefusedIffFull(max: nat, ttl: nat, states: seq<Manager>, steps: seq<Step>, i: nat)
    requires Run(max, ttl, states, steps) && i < |steps| && steps[i].Limit?
    ensures states[i + 1].admitted == states[i].admitted <==> CountInMinute(states[i].admitted, Truncate(states[i].now)) == max
  {
    RunKeepsInv(max, ttl, states, steps, i);
    QuotaIffRoom(states[i].counts, states[i].admitted, max, states[i].now, states[i].now);
  }

  /** At any point of any run, clean-up has changed no duplicate decision, now or later. */
  lemma {:induction false} CleanupInvisible(max: nat, ttl: nat, states: seq<Manager>, steps: seq<Step>, i: nat, sig: Signature, later: int)
    requires Run(max, ttl, states, steps) && i < |states| && states[i].now <= later
    ensures Duplicate(states[i].cache, ttl, sig, later) <==> Duplicate(states[i].uncleaned, ttl, sig, later)
  {
    RunKeepsInv(max, ttl, states, steps, i);
  }

  // ----- Duplicates -----

  /** Step `i` let call `c` with this signature past the duplicate check. */
  ghost predicate Passed(ttl: nat, states: seq<Manager>, steps: seq<Step>, i: nat, c: nat, sig: Signature) {
    && i < |steps| && i < |states|
    && steps[i] == Check(c, sig)
    && !Duplicate(states[i].uncleaned, ttl, sig, states[i].now)
  }

  lemma {:induction false} OpenCallPassed(max: nat, ttl: nat, states: seq<Manager>, steps: seq<Step>, j: nat, c: nat) returns (i: nat)
    requires Run(max, ttl, states, steps) && j < |states| && c in states[j].calls
    ensures i < j && Passed(ttl, states, steps, i, c, states[j].calls[c].sig)
  {
    assert j > 0;
    var s, step := states[j - 1], steps[j - 1];
    assert Enabled(s, step) && states[j - 1 + 1] == Apply(max, ttl, s, step);
    if c in s.calls {
      i := OpenCallPassed(max, ttl, states, steps, j - 1, c);
    } else {
      i := j - 1;
      CleanupInvisible(max, ttl, states, steps, i, step.sig, s.now);
    }
  }

  /** Duplicates use no quota: every admission is of a call whose event was no duplicate when it was
      checked, and no other step touches the admissions or, but for pruning, the counters. */
  lemma {:induction false} OnlyFreshEventsUseQuota(max: nat, ttl: nat, states: seq<Manager>, steps: seq<Step>, j: nat) returns (i: nat)
    requires Run(max, ttl, states, steps) && j < |steps|
    ensures states[j + 1].admitted != states[j].admitted ==>
              && steps[j].Limit? && steps[j].call in states[j].calls
              && i < j && Passed(ttl, states, steps, i, steps[j].call, states[j].calls[steps[j].call].sig)
              && states[j + 1].admitted == states[j].admitted + [states[j].now]
    ensures states[j + 1].admitted == states[j].admitted ==>
              states[j + 1].counts == states[j].counts || states[j + 1].counts == Recent(states[j].counts, states[j].now)
  {
    i := 0;
    if states[j + 1].admitted != states[j].admitted {
      i := OpenCallPassed(max, ttl, states, steps, j, steps[j].call);
    }
  }

  /** A recorded signature stays remembered and its time never goes back; an event's own time never changes. */
  lemma {:induction false} RecordLasts(max: nat, ttl: nat, states: seq<Manager>, steps: seq<Step>, i: nat, j: nat, sig: Signature)
    requires Run(max, ttl, states, steps) && i < j < |states|
    requires steps[i].End? && steps[i].created && states[i].calls[steps[i].call].sig == sig
    ensures states[i].now <= states[j].now
    ensures sig in states[j].uncleaned && states[j].uncleaned[sig] >= Stamp(sig, states[i].now)
    ensures sig.timestamp.Some? ==> states[j].uncleaned[sig] == sig.timestamp.value
  {
    if j == i + 1 {
      assert states[i + 1] == Apply(max, ttl, states[i], steps[i]);
    } else {
      RecordLasts(max, ttl, states, steps, i, j - 1, sig);
      assert states[j - 1 + 1] == Apply(max, ttl, states[j - 1], steps[j - 1]);
    }
  }

  /** Once an event was created, a later check of an event with the same signature passes only
      after the deduplication window; for an event that carries its own time, exactly then. */
  lemma {:induction false} CreatedSuppresses(max: nat, ttl: nat, states: seq<Manager>, steps: seq<Step>, i: nat, j: nat, c: nat, sig: Signature)
    requires Run(max, ttl, states, steps) && i < j < |steps|
    requires steps[i].End? && steps[i].created && states[i].calls[steps[i].call].sig == sig
    requires steps[j] == Check(c, sig)
    ensures c in states[j + 1].calls ==> states[j].now >= Stamp(sig, states[i].now) + ttl
    ensures sig.timestamp.Some? ==> (c in states[j + 1].calls <==> states[j].now >= sig.timestamp.value + ttl)
  {
    RecordLasts(max, ttl, states, steps, i, j, sig);
    CleanupInvisible(max, ttl, states, steps, j, sig, states[j].now);
    assert Enabled(states[j], steps[j]);
    assert states[j + 1] == Apply(max, ttl, states[j], steps[j]);
  }

  // ----- Overlapping calls with one signature -----

  ghost function Open(s: Manager, sig: Signature): set<nat> {
    set c | c in s.calls && s.calls[c].sig == sig
  }

  /** Step `i` creates an event with this signature. */
  ghost predicate CreatesAt(states: seq<Manager>, steps: seq<Step>, i: nat, sig: Signature) {
    && i < |steps| && i < |states| && steps[i].End? && steps[i].created
    && steps[i].call in states[i].calls && states[i].calls[steps[i].call].sig == sig
  }

  /** A step that does not let a new call with this signature in turns open calls into created events one for one. */
  lemma {:induction false} StepSpendsOpen(max: nat, ttl: nat, s: Manager, step: Step, sig: Signature)
    requires Enabled(s, step)
    requires step.Check? && step.sig == sig ==> step.call !in Apply(max, ttl, s, step).calls
    ensures var s' := Apply(max, ttl, s, step);
            s'.created[sig] + |Open(s', sig)| <= s.created[sig] + |Open(s, sig)|
    ensures s.now <= Apply(max, ttl, s, step).now
  {
    var s' := Apply(max, ttl, s, step);
    hide HasQuota, Limited, Fresh, Recent, Duplicate, Open;
    match step
    case Check(c, other) => CallsKeepOpen(s, s', sig, c);
    case Limit(c) => CallsKeepOpen(s, s', sig, c);
    case End(c, created) => CallsKeepOpen(s, s', sig, c);
    case _ =>
  }

  /** Changing one call changes who is open with a signature by at most that call. */
  lemma {:induction false} CallsKeepOpen(s: Manager, s': Manager, sig: Signature, c: nat)
    requires s'.calls - {c} == s.calls - {c}
    ensures |Open(s', sig)| - (if c in s'.calls && s'.calls[c].sig == sig then 1 else 0) ==
            |Open(s, sig)| - (if c in s.calls && s.calls[c].sig == sig then 1 else 0)
  {
    var rest := set x | x in s.calls - {c} && s.calls[x].sig == sig;
    OpenSplits(s, sig, c, rest);
    assert rest == set x | x in s'.calls - {c} && s'.calls[x].sig == sig by {
      assert forall x :: x in s.calls - {c} <==> x in s'.calls - {c};
      assert forall x :: x in s.calls - {c} ==> (s.calls - {c})[x] == (s'.calls - {c})[x];
    }
    OpenSplits(s', sig, c, rest);
  }

  lemma {:induction false} OpenSplits(s: Manager, sig: Signature, c: nat, rest: set<nat>)
    requires rest == set x | x in s.calls - {c} && s.calls[x].sig == sig
    ensures |Open(s, sig)| == |rest| + if c in s.calls && s.calls[c].sig == sig then 1 else 0
  {
    if c in s.calls && s.calls[c].sig == sig {
      assert Open(s, sig) == rest + {c};
    } else {
      assert Open(s, sig) == rest;
    }
  }

  /** From a creation on and until its window ends, open calls are all that can create the event again. */
  lemma {:induction false} WindowSpendsOpen(max: nat, ttl: nat, states: seq<Manager>, steps: seq<Step>, i: nat, j: nat, sig: Signature)
    requires Run(max, ttl, states, steps) && CreatesAt(states, steps, i, sig) && i <= j < |states|
    requires states[j].now < Stamp(sig, states[i].now) + ttl
    ensures states[j].created[sig] + |Open(states[j], sig)| <= states[i].created[sig] + |Open(states[i], sig)|
    decreases j
  {
    if i < j {
      var s, step := states[j - 1], steps[j - 1];
      assert Enabled(s, step) && states[j - 1 + 1] == Apply(max, ttl, s, step);
      if step.Check? && step.sig == sig {
        if i == j - 1 { assert false; }
        CreatedSuppresses(max, ttl, states, steps, i, j - 1, step.call, sig);
      }
      hide Run;
      StepSpendsOpen(max, ttl, s, step, sig);
      WindowSpendsOpen(max, ttl, states, steps, i, j - 1, sig);
    }
  }

  /** Within the deduplication window an event is created at most as often as calls with its signature were open at
      its first creation; with one call at a time, once. */
  lemma {:induction false} DuplicatesWithinOverlap(max: nat, ttl: nat, states: seq<Manager>, steps: seq<Step>, i: nat, j: nat, sig: Signature)
    requires Run(max, ttl, states, steps) && CreatesAt(states, steps, i, sig) && i <= j < |states|
    requires states[j].now < Stamp(sig, states[i].now) + ttl
    ensures states[j].created[sig] - states[i].created[sig] <= |Open(states[i], sig)| <= |states[i].calls|
  {
    WindowSpendsOpen(max, ttl, states, steps, i, j, sig);
    SubsetSize(Open(states[i], sig), states[i].calls.Keys);
    assert |states[i].calls| == |states[i].calls.Keys|;
  }

  ghost predicate OverlapAtMost(states: seq<Manager>, k: nat) {
    forall i :: 0 <= i < |states| ==> |states[i].calls| <= k
  }

  /** From a creation at step `i` to state `j` within its window, the event is not created again. */
  ghost predicate CreatedOnce(ttl: nat, states: seq<Manager>, steps: seq<Step>, i: nat, j: nat, sig: Signature) {
    CreatesAt(states, steps, i, sig) && i <= j < |states| && states[j].now < Stamp(sig, states[i].now) + ttl
    ==> states[j].created[sig] <= states[i].created[sig] + 1
  }

  ghost predicate OncePerWindow(max: nat, ttl: nat, k: nat) {
    forall states: seq<Manager>, steps: seq<Step>, i: nat, j: nat, sig: Signature :: Run(max, ttl, states, steps) && OverlapAtMost(states, k) ==>
      CreatedOnce(ttl, states, steps, i, j, sig)
  }

  lemma {:induction false} NoQuotaNoneAdmitted(ttl: nat, states: seq<Manager>, steps: seq<Step>, i: nat)
    requires Run(0, ttl, states, steps) && i < |states|
    ensures forall c :: c in states[i].calls ==> states[i].calls[c].Checked?
  {
    if i > 0 {
      NoQuotaNoneAdmitted(ttl, states, steps, i - 1);
      assert states[i - 1 + 1] == Apply(0, ttl, states[i - 1], steps[i - 1]);
      assert !HasQuota(states[i - 1].counts, 0, states[i - 1].now);
    }
  }

  const UNTIMED_EVENT := Signature("OOM", "killed", "Warning", "node-doctor", None)

  /** Two calls pass the duplicate check together, are admitted in successive minutes, and both create the event. */
  function TwiceSteps(): seq<Step> {
    [Check(0, UNTIMED_EVENT), Check(1, UNTIMED_EVENT), Tick(MINUTE - 1), Limit(0), Tick(1), Limit(1), End(0, true), End(1, true)]
  }

  function TwiceStates(): seq<Manager> {
    var e := UNTIMED_EVENT;
    var cached, late := map[e := MINUTE], MINUTE - 1;
    [Manager(0, map[], map[], map[], map[], [], multiset{}),
     Manager(0, map[], map[], map[0 := Checked(e)], map[], [], multiset{}),
     Manager(0, map[], map[], map[0 := Checked(e), 1 := Checked(e)], map[], [], multiset{}),
     Manager(late, map[], map[], map[0 := Checked(e), 1 := Checked(e)], map[], [], multiset{}),
     Manager(late, map[], map[0 := 1], map[0 := Admitted(e), 1 := Checked(e)], map[], [late], multiset{}),
     Manager(MINUTE, map[], map[0 := 1], map[0 := Admitted(e), 1 := Checked(e)], map[], [late], multiset{}),
     Manager(MINUTE, map[], map[0 := 1, MINUTE := 1], map[0 := Admitted(e), 1 := Admitted(e)], map[], [late, MINUTE], multiset{}),
     Manager(MINUTE, cached, map[0 := 1, MINUTE := 1], map[1 := Admitted(e)], cached, [late, MINUTE], multiset{e}),
     Manager(MINUTE, cached, map[0 := 1, MINUTE := 1], map[], cached, [late, MINUTE], multiset{e, e})]
  }

  lemma {:induction false} TwiceChecks(max: nat, ttl: nat, i: nat)
    requires i in {0, 1, 2, 4}
    ensures var s, step := TwiceStates()[i], TwiceSteps()[i];
            Enabled(s, step) && Apply(max, ttl, s, step) == TwiceStates()[i + 1]
  {
    if i == 0 {
      assert map[][0 := Checked(UNTIMED_EVENT)] == map[0 := Checked(UNTIMED_EVENT)];
    } else if i == 1 {
      assert map[0 := Checked(UNTIMED_EVENT)][1 := Checked(UNTIMED_EVENT)] == map[0 := Checked(UNTIMED_EVENT), 1 := Checked(UNTIMED_EVENT)];
    }
  }

  lemma {:induction false} TwiceLimits(max: nat, ttl: nat, i: nat)
    requires max > 0 && (i == 3 || i == 5)
    ensures var s, step := TwiceStates()[i], TwiceSteps()[i];
            Enabled(s, step) && Apply(max, ttl, s, step) == TwiceStates()[i + 1]
  {
    var s := TwiceStates()[i];
    var counts: map<int, nat> := s.counts;
    assert Recent(counts, s.now) == counts && Truncate(s.now) == if i == 3 then 0 else MINUTE;
    assert HasQuota(counts, max, s.now) && Limited(counts, max, s.now) == TwiceStates()[i + 1].counts;
    hide HasQuota, Limited;
    if i == 3 {
      assert s.calls[0 := Admitted(UNTIMED_EVENT)] == TwiceStates()[4].calls;
    } else {
      assert s.calls[1 := Admitted(UNTIMED_EVENT)] == TwiceStates()[6].calls;
    }
  }

  lemma {:induction false} TwiceEnds(max: nat, ttl: nat, i: nat)
    requires i == 6 || i == 7
    ensures var s, step := TwiceStates()[i], TwiceSteps()[i];
            Enabled(s, step) && Apply(max, ttl, s, step) == TwiceStates()[i + 1]
  {
    var s := TwiceStates()[i];
    if i == 6 {
      assert s.calls - {0} == TwiceStates()[7].calls;
      assert s.cache[UNTIMED_EVENT := MINUTE] == TwiceStates()[7].cache;
      assert multiset{} + multiset{UNTIMED_EVENT} == multiset{UNTIMED_EVENT};
    } else {
      assert s.calls - {1} == map[];
      assert s.cache[UNTIMED_EVENT := MINUTE] == s.cache;
      assert multiset{UNTIMED_EVENT} + multiset{UNTIMED_EVENT} == multiset{UNTIMED_EVENT, UNTIMED_EVENT};
    }
  }

  /** However short the window and small the limit, that run creates the event twice at once. */
  lemma {:induction false} TwiceInWindow(max: nat, ttl: nat)
    requires max > 0 && ttl > 0
    ensures Run(max, ttl, TwiceStates(), TwiceSteps()) && OverlapAtMost(TwiceStates(), 2)
    ensures !CreatedOnce(ttl, TwiceStates(), TwiceSteps(), 6, 8, UNTIMED_EVENT)
  {
    var states, steps := TwiceStates(), TwiceSteps();
    hide Apply, Enabled;
    forall i | 0 <= i < |steps| ensures Enabled(states[i], steps[i]) && states[i + 1] == Apply(max, ttl, states[i], steps[i]) {
      if i in {0, 1, 2, 4} { TwiceChecks(max, ttl, i); } else if i < 6 { TwiceLimits(max, ttl, i); } else { TwiceEnds(max, ttl, i); }
    }
  }

  lemma {:induction false} StampsPast(max: nat, ttl: nat, states: seq<Manager>, steps: seq<Step>, i: nat)
    requires Run(max, ttl, states, steps) && i < |states|
    ensures forall c :: c in states[i].calls ==> Stamp(states[i].calls[c].sig, states[i].now) <= states[i].now
  {
    if i > 0 {
      StampsPast(max, ttl, states, steps, i - 1);
      hide Duplicate, HasQuota, Limited, Fresh, Recent;
      assert Enabled(states[i - 1], steps[i - 1]) && states[i - 1 + 1] == Apply(max, ttl, states[i - 1], steps[i - 1]);
    }
  }

  /** Every event is created at most once per window on every run exactly when calls do not overlap, or nothing is ever
      admitted, or the window is empty. */
  lemma {:induction false} OncePerWindowIff(max: nat, ttl: nat, k: nat)
    ensures OncePerWindow(max, ttl, k) <==> k <= 1 || max == 0 || ttl == 0
  {
    if k <= 1 || max == 0 || ttl == 0 {
      forall states: seq<Manager>, steps: seq<Step>, i: nat, j: nat, sig: Signature | Run(max, ttl, states, steps) && OverlapAtMost(states, k)
        ensures CreatedOnce(ttl, states, steps, i, j, sig)
      {
        if ttl == 0 {
          if CreatesAt(states, steps, i, sig) && i <= j < |states| {
            StampsPast(max, ttl, states, steps, i);
            if i < j { RecordLasts(max, ttl, states, steps, i, j, sig); }
          }
        } else if max == 0 {
          if i < |steps| {
            NoQuotaNoneAdmitted(ttl, states, steps, i);
            assert Enabled(states[i], steps[i]);
          }
        } else if CreatesAt(states, steps, i, sig) && i <= j < |states| && states[j].now < Stamp(sig, states[i].now) + ttl {
          DuplicatesWithinOverlap(max, ttl, states, steps, i, j, sig);
        }
      }
    } else {
      TwiceInWindow(max, ttl);
      hide TwiceStates, TwiceSteps, CreatedOnce, Run;
      assert OverlapAtMost(TwiceStates(), k);
    }
  }

  // ----- The object -----

  datatype Outcome = Suppressed | RateLimited | Failed | Created

  class EventManager {
    var eventCache: map<Signature, int>
    var rateLimiter: map<int, nat>
    const maxEventsPerMin: nat
    const deduplicationTTL: nat
    ghost var uncleaned: map<Signature, int>
    ghost var admitted: seq<int>
    ghost var seen: int            // the latest clock reading

    ghost predicate Valid() reads this {
      && Counts(rateLimiter, admitted, maxEventsPerMin, seen)
      && Agrees(eventCache, uncleaned, deduplicationTTL, seen)
    }

    /** A limit or window that is not positive falls back to the default. */
    constructor (maxPerMinute: int, window: int, now: int)
      ensures Valid() && seen == now && uncleaned == map[] && admitted == []
      ensures maxEventsPerMin == (if maxPerMinute > 0 then maxPerMinute else 10)
      ensures deduplicationTTL == (if window > 0 then window else 10 * MINUTE)
    {
      maxEventsPerMin := if maxPerMinute > 0 then maxPerMinute else 10;
      deduplicationTTL := if window > 0 then window else 10 * MINUTE;
      eventCache, rateLimiter, uncleaned, admitted, seen := map[], map[], map[], [], now;
    }

    /** The cache answers as a log that never forgets. */
    method IsDuplicate(sig: Signature, now: int) returns (dup: bool)
      requires Valid() && seen <= now
      modifies this`seen
      ensures Valid() && seen == now
      ensures dup <==> Duplicate(uncleaned, deduplicationTTL, sig, now)
    {
      seen := now;
      if sig !in eventCache {
        return false;
      }
      return now - eventCache[sig] < deduplicationTTL;
    }

    /** Admits exactly while the current minute holds fewer admissions than the limit. */
    method CheckRateLimit(now: int) returns (ok: bool)
      requires Valid() && seen <= now
      modifies this`seen, this`rateLimiter, this`admitted
      ensures Valid() && seen == now
      ensures ok <==> CountInMinute(old(admitted), Truncate(now)) < maxEventsPerMin
      ensures admitted == if ok then old(admitted) + [now] else old(admitted)
      ensures rateLimiter == Limited(old(rateLimiter), maxEventsPerMin, now)
    {
      QuotaIffRoom(rateLimiter, admitted, maxEventsPerMin, seen, now);
      hide Counts, CountInMinute, Recent;
      seen := now;
      var currentMinute := Truncate(now);
      rateLimiter := PruneMinutes(rateLimiter, now);
      var currentCount := if currentMinute in rateLimiter then rateLimiter[currentMinute] else 0;
      if currentCount >= maxEventsPerMin {
        return false;
      }
      rateLimiter := rateLimiter[currentMinute := currentCount + 1];
      admitted := admitted + [now];
      return true;
    }

    method RecordEvent(sig: Signature, now: int)
      requires Valid() && seen <= now
      modifies this`seen, this`eventCache, this`uncleaned
      ensures Valid() && seen == now
      ensures uncleaned == old(uncleaned)[sig := Stamp(sig, now)]
    {
      seen := now;
      var timestamp := if sig.timestamp.None? then now else sig.timestamp.value;
      eventCache := eventCache[sig := timestamp];
      uncleaned := uncleaned[sig := timestamp];
    }

    method Cleanup(now: int)
      requires Valid() && seen <= now
      modifies this`seen, this`eventCache, this`rateLimiter
      ensures Valid() && seen == now
      ensures eventCache == Fresh(old(eventCache), deduplicationTTL, now)
      ensures rateLimiter == Recent(old(rateLimiter), now)
    {
      RecentCounts(rateLimiter, admitted, maxEventsPerMin, now);
      seen := now;
      eventCache := PruneCache(eventCache, deduplicationTTL, now);
      rateLimiter := PruneMinutes(rateLimiter, now);
    }

    /** `apiOk` is the API server's answer; the clock is read by each of the three sections. */
    method CreateEvent(event: Event, checkedAt: int, limitedAt: int, endedAt: int, apiOk: bool) returns (out: Outcome)
      requires Valid() && seen <= checkedAt <= limitedAt <= endedAt
      modifies this
      ensures Valid()
      ensures out == Suppressed <==> Duplicate(old(uncleaned), deduplicationTTL, SignatureOf(event), checkedAt)
      ensures out == RateLimited <==>
        out != Suppressed && CountInMinute(old(admitted), Truncate(limitedAt)) == maxEventsPerMin
      ensures out == Created <==> out != Suppressed && out != RateLimited && apiOk
      ensures admitted == if out.Suppressed? || out.RateLimited? then old(admitted) else old(admitted) + [limitedAt]
      ensures out.Suppressed? ==> rateLimiter == old(rateLimiter)
      ensures uncleaned == if out.Created? then old(uncleaned)[SignatureOf(event) := Stamp(SignatureOf(event), endedAt)] else old(uncleaned)
    {
      var sig := SignatureOf(event);
      var dup := IsDuplicate(sig, checkedAt);
      if dup {
        return Suppressed;
      }
      assert CountInMinute(admitted, Truncate(limitedAt)) <= maxEventsPerMin;
      var ok := CheckRateLimit(limitedAt);
      if !ok {
        return RateLimited;
      }
      if !apiOk {
        return Failed;
      }
      RecordEvent(sig, endedAt);
      return Created;
    }
  }

  lemma {:induction false} SomeMinute(minutes: set<int>)
    ensures minutes == {} || exists m :: m in minutes
  {
    if forall m :: m !in minutes { assert minutes == {}; }
  }

  /** Deletes the counters more than two minutes old, in whatever order the map is visited. */
  method PruneMinutes(counts: map<int, nat>, now: int) returns (kept: map<int, nat>)
    ensures kept == Recent(counts, now)
  {
    kept := counts;
    var unvisited := counts.Keys;
    while unvisited != {}
      invariant unvisited <= counts.Keys
      invariant kept == map m | m in counts && (m in unvisited || now - m <= 2 * MINUTE) :: counts[m]
      decreases |unvisited|
    {
      SomeMinute(unvisited);
      var m :| m in unvisited;
      unvisited := unvisited - {m};
      if now - m > 2 * MINUTE {
        kept := kept - {m};
      }
    }
  }

  method PruneCache(cache: map<Signature, int>, ttl: nat, now: int) returns (kept: map<Signature, int>)
    ensures kept == Fresh(cache, ttl, now)
  {
    kept := cache;
    var unvisited := cache.Keys;
    while unvisited != {}
      invariant unvisited <= cache.Keys
      invariant forall sig :: sig in kept <==> sig in cache && (sig in unvisited || now - cache[sig] <= ttl)
      invariant forall sig :: sig in kept ==> kept[sig] == cache[sig]
      decreases |unvisited|
    {
      var sig :| sig in unvisited;
      unvisited := unvisited - {sig};
      if now - cache[sig] > ttl {
        kept := kept - {sig};
      }
    }
  }
}
