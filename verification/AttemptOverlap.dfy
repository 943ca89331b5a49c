/** Overlapping remediations through one remediator instance (pkg/remediators/base.go): checking that a problem may be
    remediated and recording the attempt are separate locked sections. */
module AttemptOverlap {
  import opened Collections
  import opened Registry

  datatype Entry = Entry(key: string, at: int)

  /** `calls` have passed the check for their problem key and not yet recorded their attempt; `log` lists all attempts. */
  datatype Sys = Sys(now: int, tracker: Tracker, calls: map<nat, string>, log: seq<Entry>)

  datatype Step = Check(call: nat, key: string) | Attempt(call: nat) | Leave(call: nat) | Tick(t: nat)

  /** At most `k` calls overlap. A dry run leaves without an attempt. */
  ghost predicate Enabled(k: nat, s: Sys, step: Step) {
    match step
    case Check(c, key) => c !in s.calls && |s.calls| < k && CanRemediate(s.tracker, key, s.now)
    case Attempt(c) => c in s.calls
    case Leave(c) => c in s.calls
    case Tick(_) => true
  }

  ghost function Apply(s: Sys, step: Step): Sys {
    match step
    case Check(c, key) => s.(calls := s.calls[c := key])
    case Attempt(c) =>
      if c in s.calls
      then Sys(s.now, Recorded(s.tracker, s.calls[c], s.now), s.calls - {c}, s.log + [Entry(s.calls[c], s.now)])
      else s
    case Leave(c) => s.(calls := s.calls - {c})
    case Tick(t) => s.(now := s.now + t)
  }

  /** A run of a new instance with these limits. */
  ghost predicate Run(limits: Factory, k: nat, states: seq<Sys>, steps: seq<Step>) {
    && |states| == |steps| + 1
    && states[0].tracker == Tracker(limits.cooldown, limits.maxAttempts, map[], map[])
    && states[0].calls == map[] && states[0].log == []
    && forall i :: 0 <= i < |steps| ==> Enabled(k, states[i], steps[i]) && states[i + 1] == Apply(states[i], steps[i])
  }

  ghost function Pending(s: Sys, key: string): set<nat> {
    set c | c in s.calls && s.calls[c] == key
  }

  // ----- The bound -----

  ghost predicate Within(limits: Factory, k: nat, s: Sys, key: string) {
    && s.tracker.maxAttempts == limits.maxAttempts && s.tracker.cooldown == limits.cooldown
    && if Attempts(s.tracker, key) + |Pending(s, key)| == 0 then true
       else limits.maxAttempts > 0 && k > 0 && Attempts(s.tracker, key) + |Pending(s, key)| <= limits.maxAttempts + k - 1
  }

  lemma {:induction false} WithinCheck(limits: Factory, k: nat, s: Sys, c: nat, other: string, key: string)
    requires Within(limits, k, s, key) && Enabled(k, s, Check(c, other))
    ensures Within(limits, k, Apply(s, Check(c, other)), key)
  {
    var s' := Apply(s, Check(c, other));
    assert Pending(s', key) == if other == key then Pending(s, key) + {c} else Pending(s, key);
    SubsetSize(Pending(s, key), s.calls.Keys);
    assert |s.calls| == |s.calls.Keys|;
  }

  lemma {:induction false} WithinLeave(limits: Factory, k: nat, s: Sys, c: nat, key: string)
    requires Within(limits, k, s, key) && c in s.calls
    ensures Within(limits, k, s.(calls := s.calls - {c}), key)
    ensures |Pending(s.(calls := s.calls - {c}), key)| == |Pending(s, key)| - if s.calls[c] == key then 1 else 0
  {
    var s' := s.(calls := s.calls - {c});
    assert Pending(s', key) == Pending(s, key) - {c};
    assert s.calls[c] == key <==> c in Pending(s, key);
  }

  lemma {:induction false} WithinAttempt(limits: Factory, k: nat, s: Sys, c: nat, key: string)
    requires Within(limits, k, s, key) && c in s.calls
    ensures Within(limits, k, Apply(s, Attempt(c)), key)
  {
    WithinLeave(limits, k, s, c, key);
    var s' := Apply(s, Attempt(c));
    assert Pending(s', key) == Pending(s.(calls := s.calls - {c}), key);
    assert Attempts(s'.tracker, key) == Attempts(s.tracker, key) + if s.calls[c] == key then 1 else 0;
  }

  lemma {:induction false} RunWithin(limits: Factory, k: nat, states: seq<Sys>, steps: seq<Step>, i: nat, key: string)
    requires Run(limits, k, states, steps) && i < |states|
    ensures Within(limits, k, states[i], key)
  {
    if i == 0 {
      assert Pending(states[0], key) == {};
    } else {
      RunWithin(limits, k, states, steps, i - 1, key);
      var s := states[i - 1];
      assert Enabled(k, s, steps[i - 1]) && states[i - 1 + 1] == Apply(s, steps[i - 1]);
      match steps[i - 1]
      case Check(c, other) => WithinCheck(limits, k, s, c, other, key);
      case Attempt(c) => WithinAttempt(limits, k, s, c, key);
      case Leave(c) => WithinLeave(limits, k, s, c, key);
      case Tick(t) => assert Pending(s.(now := s.now + t), key) == Pending(s, key);
    }
  }

  /** With at most `k` overlapping calls no problem key is ever attempted more than maxAttempts + k - 1 times. Every run of a
      body follows an attempt of its own. */
  lemma {:induction false} AttemptsLimited(limits: Factory, k: nat, states: seq<Sys>, steps: seq<Step>, i: nat, key: string)
    requires Run(limits, k, states, steps) && i < |states|
    ensures Attempts(states[i].tracker, key) <= if limits.maxAttempts == 0 || k == 0 then 0 else limits.maxAttempts + k - 1
  {
    RunWithin(limits, k, states, steps, i, key);
  }

  // ----- The bound is met -----

  ghost predicate EndsIn(limits: Factory, k: nat, states: seq<Sys>, steps: seq<Step>, s: Sys) {
    Run(limits, k, states, steps) && states[|steps|] == s
  }

  lemma {:induction false} RunOneMore(limits: Factory, k: nat, states: seq<Sys>, steps: seq<Step>, s: Sys, step: Step)
    returns (states': seq<Sys>, steps': seq<Step>)
    requires EndsIn(limits, k, states, steps, s) && Enabled(k, s, step)
    ensures EndsIn(limits, k, states', steps', Apply(s, step))
  {
    hide Apply, Enabled;
    states', steps' := states + [Apply(s, step)], steps + [step];
  }

  /** `n` attempts are recorded and calls 0..f have passed the check. */
  ghost predicate Reached(limits: Factory, s: Sys, key: string, n: nat, f: nat) {
    && s.tracker.cooldown == limits.cooldown && s.tracker.maxAttempts == limits.maxAttempts
    && Attempts(s.tracker, key) == n && s.calls.Keys == Range(f)
  }

  ghost function Range(n: nat): set<nat> {
    if n == 0 then {} else Range(n - 1) + {n - 1}
  }

  lemma {:induction false} RangeSize(n: nat)
    ensures |Range(n)| == n && forall c :: c in Range(n) ==> c < n
  {
    if n > 0 { RangeSize(n - 1); }
  }

  lemma {:induction false} OneMoreCheck(limits: Factory, k: nat, s: Sys, key: string, n: nat, f: nat)
    requires Reached(limits, s, key, n, f) && !InCooldown(s.tracker, key, s.now) && n < limits.maxAttempts && f < k
    ensures Enabled(k, s, Check(f, key)) && Reached(limits, Apply(s, Check(f, key)), key, n, f + 1)
  {
    RangeSize(f);
    assert |s.calls| == |s.calls.Keys|;
    assert s.calls[f := key].Keys == s.calls.Keys + {f} && Range(f + 1) == Range(f) + {f};
  }

  lemma {:induction false} OneMoreAttempt(limits: Factory, k: nat, s: Sys, key: string, n: nat, f: nat)
    requires Reached(limits, s, key, n, f) && f > 0 && f - 1 in s.calls && s.calls[f - 1] == key
    ensures Enabled(k, s, Attempt(f - 1)) && Reached(limits, Apply(s, Attempt(f - 1)), key, n + 1, f - 1)
    ensures Apply(s, Attempt(f - 1)).calls == s.calls - {f - 1}
  {
    RangeSize(f - 1);
    assert (s.calls - {f - 1}).Keys == s.calls.Keys - {f - 1} && Range(f - 1) == Range(f) - {f - 1};
  }

  /** Attempts one at a time, waiting out the cooldown. */
  lemma {:induction false} AttemptSerially(limits: Factory, k: nat, key: string, n: nat) returns (states: seq<Sys>, steps: seq<Step>, s: Sys)
    requires n <= limits.maxAttempts && k > 0
    ensures EndsIn(limits, k, states, steps, s) && Reached(limits, s, key, n, 0) && !InCooldown(s.tracker, key, s.now)
  {
    if n == 0 {
      s := Sys(0, Tracker(limits.cooldown, limits.maxAttempts, map[], map[]), map[], []);
      states, steps := [s], [];
    } else {
      var s0;
      states, steps, s0 := AttemptSerially(limits, k, key, n - 1);
      OneMoreCheck(limits, k, s0, key, n - 1, 0);
      var s1 := Apply(s0, Check(0, key));
      OneMoreAttempt(limits, k, s1, key, n - 1, 1);
      var s2 := Apply(s1, Attempt(0));
      s := Apply(s2, Tick(limits.cooldown));
      assert !InCooldown(s.tracker, key, s.now);
      hide EndsIn;
      states, steps := RunOneMore(limits, k, states, steps, s0, Check(0, key));
      states, steps := RunOneMore(limits, k, states, steps, s1, Attempt(0));
      states, steps := RunOneMore(limits, k, states, steps, s2, Tick(limits.cooldown));
    }
  }

  /** Then `f` calls pass the check before any of them records its attempt. */
  lemma {:induction false} CheckTogether(limits: Factory, k: nat, key: string, f: nat) returns (states: seq<Sys>, steps: seq<Step>, s: Sys)
    requires limits.maxAttempts > 0 && f <= k && k > 0
    ensures EndsIn(limits, k, states, steps, s) && Reached(limits, s, key, limits.maxAttempts - 1, f)
    ensures !InCooldown(s.tracker, key, s.now) && forall c :: c in s.calls ==> s.calls[c] == key
  {
    if f == 0 {
      states, steps, s := AttemptSerially(limits, k, key, limits.maxAttempts - 1);
    } else {
      var before;
      states, steps, before := CheckTogether(limits, k, key, f - 1);
      OneMoreCheck(limits, k, before, key, limits.maxAttempts - 1, f - 1);
      s := Apply(before, Check(f - 1, key));
      hide EndsIn;
      states, steps := RunOneMore(limits, k, states, steps, before, Check(f - 1, key));
    }
  }

  /** Then `r` of the `k` record theirs. */
  lemma {:induction false} AttemptTogether(limits: Factory, k: nat, key: string, r: nat) returns (states: seq<Sys>, steps: seq<Step>, s: Sys)
    requires limits.maxAttempts > 0 && r <= k && k > 0
    ensures EndsIn(limits, k, states, steps, s) && Reached(limits, s, key, limits.maxAttempts - 1 + r, k - r)
    ensures forall c :: c in s.calls ==> s.calls[c] == key
  {
    if r == 0 {
      states, steps, s := CheckTogether(limits, k, key, k);
    } else {
      var before;
      states, steps, before := AttemptTogether(limits, k, key, r - 1);
      OneMoreAttempt(limits, k, before, key, limits.maxAttempts - 1 + r - 1, k - (r - 1));
      s := Apply(before, Attempt(k - r));
      hide EndsIn, Reached, Enabled;
      states, steps := RunOneMore(limits, k, states, steps, before, Attempt(k - r));
    }
  }

  ghost predicate LimitHolds(limits: Factory, k: nat) {
    forall states: seq<Sys>, steps: seq<Step>, key :: Run(limits, k, states, steps) ==>
      Attempts(states[|steps|].tracker, key) <= limits.maxAttempts
  }

  /** The configured number of attempts is kept on every run exactly when calls do not overlap, or nothing may be attempted. */
  lemma {:induction false} LimitHoldsIff(limits: Factory, k: nat)
    ensures LimitHolds(limits, k) <==> k <= 1 || limits.maxAttempts == 0
  {
    if k <= 1 || limits.maxAttempts == 0 {
      forall states: seq<Sys>, steps: seq<Step>, key | Run(limits, k, states, steps)
        ensures Attempts(states[|steps|].tracker, key) <= limits.maxAttempts
      {
        AttemptsLimited(limits, k, states, steps, |steps|, key);
      }
    } else {
      var states, steps, s := AttemptTogether(limits, k, "disk:root", k);
      assert Run(limits, k, states, steps) && Attempts(states[|steps|].tracker, "disk:root") == limits.maxAttempts + k - 1;
    }
  }

  // ----- Spacing -----

  ghost predicate Spaced(log: seq<Entry>, cooldown: nat) {
    forall i, j :: 0 <= i < j < |log| && log[i].key == log[j].key ==> log[j].at - log[i].at >= cooldown
  }

  /** With calls one at a time, the tracker knows the latest attempt at every key, and a call past its check is out of cooldown. */
  ghost predicate Serial(limits: Factory, s: Sys) {
    && s.tracker.cooldown == limits.cooldown && Spaced(s.log, limits.cooldown) && |s.calls| <= 1
    && (forall i :: 0 <= i < |s.log| ==>
          s.log[i].at <= s.now && s.log[i].key in s.tracker.lastAttempt && s.log[i].at <= s.tracker.lastAttempt[s.log[i].key])
    && (forall c :: c in s.calls ==> !InCooldown(s.tracker, s.calls[c], s.now))
  }

  lemma {:induction false} OnlyCall(calls: map<nat, string>, c: nat)
    requires |calls| <= 1 && c in calls
    ensures calls - {c} == map[]
  {
    assert |calls.Keys - {c}| == |calls.Keys| - 1;
    assert calls.Keys - {c} == {};
  }

  lemma {:induction false} SerialStep(limits: Factory, s: Sys, step: Step)
    requires Serial(limits, s) && Enabled(1, s, step)
    ensures Serial(limits, Apply(s, step))
  {
    match step
    case Check(c, key) =>
      assert s.calls == map[];
    case Attempt(c) => OnlyCall(s.calls, c);
    case Leave(c) => OnlyCall(s.calls, c);
    case Tick(t) =>
  }

  lemma {:induction false} RunSerial(limits: Factory, states: seq<Sys>, steps: seq<Step>, i: nat)
    requires Run(limits, 1, states, steps) && i < |states|
    ensures Serial(limits, states[i])
  {
    if i > 0 {
      RunSerial(limits, states, steps, i - 1);
      assert Enabled(1, states[i - 1], steps[i - 1]) && states[i - 1 + 1] == Apply(states[i - 1], steps[i - 1]);
      hide Serial, Apply, Enabled;
      SerialStep(limits, states[i - 1], steps[i - 1]);
    }
  }

  lemma {:induction false} LogOrdered(limits: Factory, k: nat, states: seq<Sys>, steps: seq<Step>, i: nat)
    requires Run(limits, k, states, steps) && i < |states|
    ensures InOrder(states[i].log, states[i].now)
  {
    if i > 0 {
      LogOrdered(limits, k, states, steps, i - 1);
      assert states[i - 1 + 1] == Apply(states[i - 1], steps[i - 1]);
      hide Run, Apply, InOrder;
      OrderStep(states[i - 1], steps[i - 1]);
    }
  }

  lemma {:induction false} OrderStep(s: Sys, step: Step)
    requires InOrder(s.log, s.now)
    ensures InOrder(Apply(s, step).log, Apply(s, step).now)
  {
    hide Recorded;
  }

  ghost predicate InOrder(log: seq<Entry>, now: int) {
    Spaced(log, 0) && forall j :: 0 <= j < |log| ==> log[j].at <= now
  }

  lemma {:induction false} NothingAttempted(limits: Factory, k: nat, states: seq<Sys>, steps: seq<Step>, i: nat)
    requires Run(limits, k, states, steps) && i < |states| && (k == 0 || limits.maxAttempts == 0)
    ensures states[i].log == [] && states[i].calls == map[] && states[i].tracker.maxAttempts == limits.maxAttempts
  {
    if i > 0 {
      NothingAttempted(limits, k, states, steps, i - 1);
      assert Enabled(k, states[i - 1], steps[i - 1]) && states[i - 1 + 1] == Apply(states[i - 1], steps[i - 1]);
    }
  }

  ghost predicate CooldownKept(limits: Factory, k: nat) {
    forall states: seq<Sys>, steps: seq<Step> :: Run(limits, k, states, steps) ==> Spaced(states[|steps|].log, limits.cooldown)
  }

  /** Two calls check together and attempt at the same instant. */
  lemma {:induction false} AttemptsCoincide(limits: Factory, k: nat, key: string) returns (states: seq<Sys>, steps: seq<Step>, s: Sys)
    requires k >= 2 && limits.maxAttempts > 0
    ensures EndsIn(limits, k, states, steps, s) && s.log == [Entry(key, 0), Entry(key, 0)]
  {
    var s0 := Sys(0, Tracker(limits.cooldown, limits.maxAttempts, map[], map[]), map[], []);
    states, steps := [s0], [];
    var s1 := Apply(s0, Check(0, key));
    var s2 := Apply(s1, Check(1, key));
    var s3 := Apply(s2, Attempt(0));
    s := Apply(s3, Attempt(1));
    assert s1.calls == map[0 := key] && |s1.calls| == 1;
    states, steps := RunOneMore(limits, k, states, steps, s0, Check(0, key));
    hide EndsIn;
    states, steps := RunOneMore(limits, k, states, steps, s1, Check(1, key));
    states, steps := RunOneMore(limits, k, states, steps, s2, Attempt(0));
    states, steps := RunOneMore(limits, k, states, steps, s3, Attempt(1));
  }

  /** Attempts at one problem keep the cooldown on every run exactly when calls do not overlap, or there is no cooldown, or
      nothing may be attempted. */
  lemma {:induction false} CooldownKeptIff(limits: Factory, k: nat)
    ensures CooldownKept(limits, k) <==> k <= 1 || limits.cooldown == 0 || limits.maxAttempts == 0
  {
    if k <= 1 || limits.cooldown == 0 || limits.maxAttempts == 0 {
      forall states: seq<Sys>, steps: seq<Step> | Run(limits, k, states, steps) ensures Spaced(states[|steps|].log, limits.cooldown) {
        if k == 0 || limits.maxAttempts == 0 {
          NothingAttempted(limits, k, states, steps, |steps|);
        } else if k == 1 {
          RunSerial(limits, states, steps, |steps|);
        } else {
          LogOrdered(limits, k, states, steps, |steps|);
        }
      }
    } else {
      var states, steps, s := AttemptsCoincide(limits, k, "disk:root");
      assert s.log[0].key == s.log[1].key && !Spaced(s.log, limits.cooldown);
    }
  }
}
