/** The sliding-window limit on remediations of pkg/remediators/registry.go. */
module RateLimit {

  /** Entries of a time-ordered log strictly after `cutoff`. */
  function CountAfter(log: seq<int>, cutoff: int): (n: nat)
  {
    if log == [] then 0 else CountAfter(log[..|log| - 1], cutoff) + if log[|log| - 1] > cutoff then 1 else 0
  }

  /** Entries in the half-open window (a, b]. */
  function CountIn(log: seq<int>, a: int, b: int): (n: nat)
  {
    if log == [] then 0 else CountIn(log[..|log| - 1], a, b) + if a < log[|log| - 1] <= b then 1 else 0
  }

  /** Entries in the window of length `w` that starts after `a`. */
  function CountWindow(log: seq<int>, a: int, w: nat): nat {
    CountIn(log, a, a + w)
  }

  ghost predicate Ordered(log: seq<int>) {
    forall i, j :: 0 <= i < j < |log| ==> log[i] <= log[j]
  }

  // ----- The limiter as a step system -----

  /** The full log of recorded remediations, and how many calls have passed the check but not yet ended. */
  datatype Limiter = Limiter(now: int, log: seq<int>, inflight: nat)

  datatype Step = Admit | Record | Abort | Tick(t: nat)

  /** `k` bounds how many calls overlap. A call is admitted when fewer than `max` entries are in the window. */
  ghost predicate Enabled(max: nat, window: nat, k: nat, s: Limiter, step: Step) {
    match step
    case Admit => CountAfter(s.log, s.now - window) < max && s.inflight < k
    case Record => s.inflight > 0
    case Abort => s.inflight > 0
    case Tick(_) => true
  }

  ghost function Apply(s: Limiter, step: Step): Limiter {
    match step
    case Admit => s.(inflight := s.inflight + 1)
    case Record => s.(log := s.log + [s.now], inflight := if s.inflight > 0 then s.inflight - 1 else 0)
    case Abort => s.(inflight := if s.inflight > 0 then s.inflight - 1 else 0)
    case Tick(t) => s.(now := s.now + t)
  }

  ghost predicate Run(max: nat, window: nat, k: nat, states: seq<Limiter>, steps: seq<Step>) {
    && |states| == |steps| + 1
    && states[0].log == [] && states[0].inflight == 0
    && forall i :: 0 <= i < |steps| ==> Enabled(max, window, k, states[i], steps[i]) && states[i + 1] == Apply(states[i], steps[i])
  }

  /** Any window reaching the present, plus the calls in flight, stays within max + k - 1; so does any older window. */
  ghost predicate Within(max: nat, window: nat, k: nat, s: Limiter) {
    && (forall i :: 0 <= i < |s.log| ==> s.log[i] <= s.now)
    && (forall a :: CountWindow(s.log, a, window) <= max + k - 1)
    && (forall a :: s.now <= a + window ==> CountIn(s.log, a, s.now) + s.inflight <= max + k - 1)
  }

  lemma {:induction false} CountInPast(log: seq<int>, a: int, b: int, c: int)
    requires forall i :: 0 <= i < |log| ==> log[i] <= b
    requires b <= c
    ensures CountIn(log, a, c) == CountAfter(log, a) == CountIn(log, a, b)
  {
    if log != [] { CountInPast(log[..|log| - 1], a, b, c); }
  }

  lemma {:induction false} CountAfterShrinks(log: seq<int>, a: int, b: int)
    requires a <= b
    ensures CountAfter(log, b) <= CountAfter(log, a)
  {
    if log != [] { CountAfterShrinks(log[..|log| - 1], a, b); }
  }

  lemma {:induction false} WithinAdmit(max: nat, window: nat, k: nat, s: Limiter)
    requires Within(max, window, k, s) && Enabled(max, window, k, s, Admit)
    ensures Within(max, window, k, Apply(s, Admit))
  {
    forall a | s.now <= a + window ensures CountIn(s.log, a, s.now) + s.inflight + 1 <= max + k - 1 {
      CountInPast(s.log, a, s.now, s.now);
      CountAfterShrinks(s.log, s.now - window, a);
    }
  }

  lemma {:induction false} WithinRecord(max: nat, window: nat, k: nat, s: Limiter)
    requires Within(max, window, k, s) && Enabled(max, window, k, s, Record)
    ensures Within(max, window, k, Apply(s, Record))
  {
    var log' := s.log + [s.now];
    assert log'[..|s.log|] == s.log;
    forall a ensures CountWindow(log', a, window) <= max + k - 1 {
      assert CountWindow(s.log, a, window) <= max + k - 1;
      if a < s.now <= a + window {
        CountInPast(s.log, a, s.now, a + window);
        assert CountIn(s.log, a, s.now) + s.inflight <= max + k - 1;
      }
    }
    forall a | s.now <= a + window ensures CountIn(log', a, s.now) + s.inflight - 1 <= max + k - 1 {
      assert CountIn(s.log, a, s.now) + s.inflight <= max + k - 1;
    }
  }

  lemma {:induction false} WithinTick(max: nat, window: nat, k: nat, s: Limiter, t: nat)
    requires Within(max, window, k, s)
    ensures Within(max, window, k, Apply(s, Tick(t)))
  {
    var later := s.now + t;
    forall a | later <= a + window ensures CountIn(s.log, a, later) + s.inflight <= max + k - 1 {
      CountInPast(s.log, a, s.now, later);
      assert s.now <= a + window;
    }
  }

  lemma {:induction false} RunWithin(max: nat, window: nat, k: nat, states: seq<Limiter>, steps: seq<Step>, i: nat)
    requires Run(max, window, k, states, steps) && i < |states| && max > 0 && k > 0
    ensures Within(max, window, k, states[i])
  {
    if i == 0 {
    } else {
      RunWithin(max, window, k, states, steps, i - 1);
      var s, step := states[i - 1], steps[i - 1];
      assert states[i - 1 + 1] == Apply(s, step);
      hide Within;
      match step
      case Admit => WithinAdmit(max, window, k, s);
      case Record => WithinRecord(max, window, k, s);
      case Abort =>
      case Tick(t) => WithinTick(max, window, k, s, t);
    }
  }

  /** Every window of any run with at most `k` overlapping calls holds at most max + k - 1 remediations;
      with calls one at a time, at most max. */
  lemma {:induction false} WindowLimited(max: nat, window: nat, k: nat, states: seq<Limiter>, steps: seq<Step>, i: nat, a: int)
    requires Run(max, window, k, states, steps) && i < |states| && max > 0 && k > 0
    ensures CountWindow(states[i].log, a, window) <= max + k - 1
  {
    RunWithin(max, window, k, states, steps, i);
  }

  // ----- Overlapping calls do exceed the limit -----

  function Zeros(n: nat): seq<int> {
    seq(n, _ => 0)
  }

  lemma {:induction false} CountZeros(n: nat, window: nat)
    requires window > 0
    ensures CountAfter(Zeros(n), 0 - window) == n && CountWindow(Zeros(n), 0 - window, window) == n
  {
    if n > 0 {
      assert Zeros(n)[..n - 1] == Zeros(n - 1);
      CountZeros(n - 1, window);
    }
  }

  ghost predicate EndsIn(max: nat, window: nat, k: nat, states: seq<Limiter>, steps: seq<Step>, s: Limiter) {
    Run(max, window, k, states, steps) && states[|steps|] == s
  }

  lemma {:induction false} RunOneMore(max: nat, window: nat, k: nat, states: seq<Limiter>, steps: seq<Step>, s: Limiter, step: Step)
    returns (states': seq<Limiter>, steps': seq<Step>)
    requires EndsIn(max, window, k, states, steps, s) && Enabled(max, window, k, s, step)
    ensures EndsIn(max, window, k, states', steps', Apply(s, step))
  {
    hide Apply, Enabled;
    states', steps' := states + [Apply(s, step)], steps + [step];
  }

  /** `n` calls have recorded and `f` more have passed the check: all but the last of the limit one at a time, then up to
      `k` together. */
  lemma {:induction false} FillUp(max: nat, window: nat, k: nat, n: nat, f: nat) returns (states: seq<Limiter>, steps: seq<Step>)
    requires max > 0 && k > 0 && window > 0 && ((n < max && f <= k) || (n >= max && n + f == max - 1 + k))
    ensures EndsIn(max, window, k, states, steps, Limiter(0, Zeros(n), f))
    decreases 2 * n + f
  {
    if n == 0 && f == 0 {
      states, steps := [Limiter(0, [], 0)], [];
    } else if n < max && f > 0 {
      states, steps := FillUp(max, window, k, n, f - 1);
      CountZeros(n, window);
      hide EndsIn;
      states, steps := RunOneMore(max, window, k, states, steps, Limiter(0, Zeros(n), f - 1), Admit);
    } else {
      states, steps := FillUp(max, window, k, n - 1, f + 1);
      assert Zeros(n - 1) + [0] == Zeros(n);
      hide EndsIn;
      states, steps := RunOneMore(max, window, k, states, steps, Limiter(0, Zeros(n - 1), f + 1), Record);
    }
  }

  /** The bound is met: some run with `k` overlapping calls has a window of max + k - 1 remediations. */
  lemma {:induction false} OverlapFillsWindow(max: nat, window: nat, k: nat) returns (states: seq<Limiter>, steps: seq<Step>)
    requires max > 0 && k > 0 && window > 0
    ensures Run(max, window, k, states, steps)
    ensures CountWindow(states[|steps|].log, 0 - window, window) == max + k - 1
  {
    states, steps := FillUp(max, window, k, max - 1 + k, 0);
    CountZeros(max - 1 + k, window);
  }

  ghost predicate LimitHolds(max: nat, window: nat, k: nat) {
    forall states: seq<Limiter>, steps: seq<Step>, a :: Run(max, window, k, states, steps) ==> CountWindow(states[|steps|].log, a, window) <= max
  }

  lemma {:induction false} EmptyWindow(log: seq<int>, a: int)
    ensures CountIn(log, a, a) == 0
  {
    if log != [] { EmptyWindow(log[..|log| - 1], a); }
  }

  /** The configured limit holds in every window of every run exactly when calls do not overlap. */
  lemma {:induction false} LimitHoldsIff(max: nat, window: nat, k: nat)
    requires max > 0
    ensures LimitHolds(max, window, k) <==> k <= 1 || window == 0
  {
    if window == 0 {
      forall states: seq<Limiter>, steps: seq<Step>, a | Run(max, window, k, states, steps) ensures CountWindow(states[|steps|].log, a, window) <= max {
        EmptyWindow(states[|steps|].log, a);
      }
    } else if k <= 1 {
      forall states: seq<Limiter>, steps: seq<Step>, a | Run(max, window, k, states, steps) ensures CountWindow(states[|steps|].log, a, window) <= max {
        assert Run(max, window, 1, states, steps);
        WindowLimited(max, window, 1, states, steps, |steps|, a);
      }
    } else {
      var states, steps := OverlapFillsWindow(max, window, k);
    }
  }

  // ----- The object -----

  /** `times` is a suffix of the full log that lost only entries outside the window. */
  ghost predicate Prunes(times: seq<int>, log: seq<int>, cutoff: int) {
    |times| <= |log| && log[|log| - |times|..] == times && forall i :: 0 <= i < |log| - |times| ==> log[i] <= cutoff
  }

  lemma {:induction false} CountAfterPruned(times: seq<int>, log: seq<int>, cutoff: int)
    requires Prunes(times, log, cutoff)
    ensures CountAfter(times, cutoff) == CountAfter(log, cutoff)
    decreases |log|
  {
    if |times| > 0 {
      assert times[..|times| - 1] == log[..|log| - 1][|log| - |times|..];
      assert log[..|log| - 1][|log| - 1 - |times[..|times| - 1]|..] == times[..|times| - 1];
      CountAfterPruned(times[..|times| - 1], log[..|log| - 1], cutoff);
      assert times[|times| - 1] == log[|log| - 1];
    } else if |log| > 0 {
      CountAfterPruned(times, log[..|log| - 1], cutoff);
    }
  }

  lemma {:induction false} CountSuffix(times: seq<int>, n: nat, cutoff: int)
    requires n <= |times|
    requires forall i :: |times| - n <= i < |times| ==> times[i] > cutoff
    requires forall i :: 0 <= i < |times| - n ==> times[i] <= cutoff
    ensures CountAfter(times, cutoff) == n
    decreases |times|
  {
    if n > 0 {
      CountSuffix(times[..|times| - 1], n - 1, cutoff);
    } else if times != [] {
      CountSuffix(times[..|times| - 1], 0, cutoff);
    }
  }

  class RateLimiter {
    var remediationTimes: seq<int>
    var maxPerHour: nat
    const rateLimitWindow: nat
    ghost var log: seq<int>       // every entry ever recorded
    ghost var seen: int           // the latest clock reading

    ghost predicate Valid() reads this {
      && Ordered(log) && (forall i :: 0 <= i < |log| ==> log[i] <= seen)
      && Prunes(remediationTimes, log, seen - rateLimitWindow)
    }

    constructor (maxPerHour: nat, window: nat, now: int)
      ensures Valid() && log == [] && seen == now && this.maxPerHour == maxPerHour && rateLimitWindow == window
    {
      this.maxPerHour, rateLimitWindow, remediationTimes, log, seen := maxPerHour, window, [], [], now;
    }

    /** The backward scan with pruning decides as counting the whole log would. */
    method CheckRateLimit(now: int) returns (ok: bool)
      requires Valid() && seen <= now
      modifies this
      ensures Valid() && log == old(log) && maxPerHour == old(maxPerHour) && seen == now
      ensures ok <==> maxPerHour == 0 || CountAfter(log, now - rateLimitWindow) < maxPerHour
    {
      assert Prunes(remediationTimes, log, now - rateLimitWindow);
      hide Prunes, CountAfter;
      seen := now;
      if maxPerHour == 0 {
        return true;
      }
      remediationTimes := Prune(remediationTimes, now - rateLimitWindow, log);
      return |remediationTimes| < maxPerHour;
    }

    method RecordRateLimitEntry(now: int)
      requires Valid() && seen <= now
      modifies this
      ensures Valid() && maxPerHour == old(maxPerHour) && seen == now
      ensures log == if maxPerHour == 0 then old(log) else old(log) + [now]
    {
      seen := now;
      if maxPerHour == 0 {
        return;
      }
      remediationTimes := remediationTimes + [now];
      log := log + [now];
    }
  }

  /** Counting from the back until the first old entry counts every entry in the window. */
  method ScanBack(times: seq<int>, cutoff: int) returns (validEntries: nat)
    requires Ordered(times)
    ensures validEntries <= |times| && validEntries == CountAfter(times, cutoff)
    ensures forall i :: 0 <= i < |times| - validEntries ==> times[i] <= cutoff
  {
    validEntries := 0;
    var i := |times| - 1;
    while i >= 0
      invariant -1 <= i < |times| && validEntries == |times| - 1 - i
      invariant forall j :: i < j < |times| ==> times[j] > cutoff
    {
      if times[i] > cutoff {
        validEntries := validEntries + 1;
      } else {
        break;
      }
      i := i - 1;
    }
    CountSuffix(times, validEntries, cutoff);
  }

  /** Keeping the valid entries keeps exactly what the full log has in the window. */
  method Prune(times: seq<int>, cutoff: int, ghost log: seq<int>) returns (kept: seq<int>)
    requires Ordered(log) && Prunes(times, log, cutoff)
    ensures Prunes(kept, log, cutoff) && |kept| == CountAfter(log, cutoff)
  {
    CountAfterPruned(times, log, cutoff);
    hide Prunes, CountAfter, Ordered;
    var validEntries := ScanBack(times, cutoff);
    kept := times;
    if validEntries < |times| {
      kept := times[|times| - validEntries..];
    }
  }

}
