/**
 * The rate limiter shared by threads: `SyncRateLimiter.__enter__` as a step
 * system in which any thread may move next and the clock may move at any time.
 */
module RateLimiter {
  import opened Options

  /** What one pass under the lock decides. */
  datatype Decision = Permit(next: real) | Wait(sleepFor: real)

  /** The limiter object; `Attempt` is the body of the lock in one pass of the loop. */
  class SyncRateLimiter {
    const minInterval: real
    /** `_next_allowed_ts`. */
    var nextAllowed: real

    constructor (minIntervalS: real)
      ensures minInterval >= 0.0 && minInterval >= minIntervalS
      ensures minInterval == minIntervalS || minInterval == 0.0
      ensures forall threads :: Init(StateOf(this, 0.0, threads))
    {
      minInterval := if minIntervalS > 0.0 then minIntervalS else 0.0;
      nextAllowed := 0.0;
    }

    /** `from_rps`: `rps` operations a second, or no limit. */
    constructor FromRps(rps: real)
      ensures forall threads :: Init(StateOf(this, 0.0, threads))
      ensures rps <= 0.0 ==> minInterval == 0.0
      ensures rps > 0.0 ==> minInterval > 0.0 && minInterval * rps == 1.0
    {
      minInterval := if rps <= 0.0 then 0.0 else 1.0 / rps;
      nextAllowed := 0.0;
    }

    method Attempt(now: real) returns (d: Decision)
      modifies this`nextAllowed
      ensures nextAllowed == (if d.Permit? then d.next else old(nextAllowed))
      ensures Decides(d, old(nextAllowed), minInterval, now)
    {
      if now >= nextAllowed {
        nextAllowed := now + minInterval;
        return Permit(nextAllowed);
      }
      return Wait(nextAllowed - now);
    }
  }

  /** The decision keeps to the schedule: no permit before its time, the next one an interval later. */
  predicate Decides(d: Decision, next: real, interval: real, now: real) {
    match d
    case Permit(next') => now >= next && next' == now + interval
    case Wait(sleepFor) => sleepFor > 0.0 && now + sleepFor == next
  }

  // ---- Threads ----

  type Thread = nat

  /** Where a thread is in `__enter__`; `Idle` is outside of it. */
  datatype Place =
    | Idle
    | AtLock
    | Locked
    | HasRead(now: real)
    | Admitted(now: real)
    | Granted
    | Refused(sleepFor: real)
    | Asleep(until: real)

  /** The shared state; `permits` lists the clock readings of all permits so far. */
  datatype State = State(interval: real, clock: real, next: real, holder: Option<Thread>,
                         places: map<Thread, Place>, permits: seq<real>)

  datatype Step =
    | Tick(elapsed: real)
    | Enter(t: Thread)
    | Acquire(t: Thread)
    | ReadClock(t: Thread)
    | Compare(t: Thread)
    | Advance(t: Thread)
    | Release(t: Thread)
    | Wake(t: Thread)

  predicate InCritical(p: Place) {
    p.Locked? || p.HasRead? || p.Admitted? || p.Granted? || p.Refused?
  }

  predicate At(s: State, t: Thread, p: Place) {
    t in s.places && s.places[t] == p
  }

  predicate Enabled(s: State, step: Step) {
    match step
    case Tick(elapsed) => elapsed >= 0.0
    case Enter(t) => At(s, t, Idle)
    case Acquire(t) => At(s, t, AtLock) && s.holder == None
    case ReadClock(t) => At(s, t, Locked)
    case Compare(t) => t in s.places && s.places[t].HasRead?
    case Advance(t) => t in s.places && s.places[t].Admitted?
    case Release(t) => t in s.places && (s.places[t].Granted? || s.places[t].Refused?)
    case Wake(t) => t in s.places && s.places[t].Asleep? && s.clock >= s.places[t].until
  }

  /** One atomic step; reading the clock, comparing and advancing are separate steps. */
  function Apply(s: State, step: Step): State
    requires Enabled(s, step)
  {
    match step
    case Tick(elapsed) => s.(clock := s.clock + elapsed)
    case Enter(t) => if s.interval <= 0.0 then s else s.(places := s.places[t := AtLock])
    case Acquire(t) => s.(holder := Some(t), places := s.places[t := Locked])
    case ReadClock(t) => s.(places := s.places[t := HasRead(s.clock)])
    case Compare(t) =>
      var now := s.places[t].now;
      s.(places := s.places[t := if now >= s.next then Admitted(now) else Refused(s.next - now)])
    case Advance(t) =>
      var now := s.places[t].now;
      s.(next := now + s.interval, places := s.places[t := Granted], permits := s.permits + [now])
    case Release(t) =>
      var p := s.places[t];
      s.(holder := None, places := s.places[t := if p.Granted? then Idle else Asleep(s.clock + p.sleepFor)])
    case Wake(t) => s.(places := s.places[t := AtLock])
  }

  /** A limiter that nobody is using, among these threads. */
  ghost function StateOf(limiter: SyncRateLimiter, clock: real, threads: set<Thread>): State
    reads limiter
  {
    State(limiter.minInterval, clock, limiter.nextAllowed, None, map t | t in threads :: Idle, [])
  }

  predicate Init(s: State) {
    s.next == 0.0 && s.holder == None && s.permits == [] && s.interval >= 0.0
    && forall t :: t in s.places ==> s.places[t] == Idle
  }

  /** A run: any number of threads, in any order. */
  predicate IsRun(states: seq<State>, steps: seq<Step>) {
    && |states| == |steps| + 1
    && Init(states[0])
    && forall i :: 0 <= i < |steps| ==> Moves(states[i], steps[i], states[i + 1])
  }

  predicate Moves(s: State, step: Step, s': State) {
    Enabled(s, step) && s' == Apply(s, step)
  }

  predicate Spaced(permits: seq<real>, interval: real) {
    forall i :: 0 <= i < |permits| - 1 ==> permits[i + 1] - permits[i] >= interval
  }

  /** Only the holder of the lock is inside it, and what it compared stays true until it acts. */
  predicate Invariant(s: State) {
    && s.interval >= 0.0
    && (forall t :: t in s.places ==> (InCritical(s.places[t]) <==> s.holder == Some(t)))
    && (s.holder.Some? ==> s.holder.value in s.places && s.interval > 0.0)
    && (forall t :: t in s.places && s.places[t].Admitted? ==> s.places[t].now >= s.next)
    && (forall t :: t in s.places && !s.places[t].Idle? ==> s.interval > 0.0)
    && (forall t :: t in s.places && (s.places[t].HasRead? || s.places[t].Admitted?) ==> s.places[t].now <= s.clock)
    && (s.permits == [] ==> s.next == 0.0)
    && (s.permits != [] ==> s.next == s.permits[|s.permits| - 1] + s.interval && s.permits[|s.permits| - 1] <= s.clock)
    && Spaced(s.permits, s.interval)
  }

  lemma StepKeepsInvariant(s: State, step: Step)
    requires Invariant(s) && Enabled(s, step)
    ensures Invariant(Apply(s, step))
  {
    var s' := Apply(s, step);
    if step.Advance? {
      var now := s.places[step.t].now;
      assert s.holder == Some(step.t);
      forall i | 0 <= i < |s'.permits| - 1
        ensures s'.permits[i + 1] - s'.permits[i] >= s'.interval
      {
        if i < |s.permits| - 1 {
          assert s.permits[i + 1] - s.permits[i] >= s.interval;
        }
      }
    }
  }

  lemma {:induction false} RunKeepsInvariant(states: seq<State>, steps: seq<Step>, i: nat)
    requires IsRun(states, steps) && i < |states|
    ensures Invariant(states[i]) && states[i].interval == states[0].interval
  {
    if i > 0 {
      RunKeepsInvariant(states, steps, i - 1);
      assert Moves(states[i - 1], steps[i - 1], states[i]);
      StepKeepsInvariant(states[i - 1], steps[i - 1]);
    }
  }

  // ---- A pass through the lock is one attempt ----

  /** How far a thread is with what it decides on the schedule of `s0`, in which it got the lock. */
  ghost predicate Underway(s0: State, s: State, t: Thread) {
    && t in s.places && s.holder == Some(t) && s.interval == s0.interval && s0.clock <= s.clock
    && match s.places[t]
       case Locked => s.next == s0.next && s.permits == s0.permits
       case HasRead(now) => s.next == s0.next && s.permits == s0.permits && s0.clock <= now <= s.clock
       case Admitted(now) =>
         s.next == s0.next && s.permits == s0.permits && s0.clock <= now <= s.clock && now >= s.next
       case Granted =>
         exists now :: s0.clock <= now <= s.clock && s.permits == s0.permits + [now]
                       && Decides(Permit(s.next), s0.next, s0.interval, now)
       case Refused(sleepFor) =>
         s.next == s0.next && s.permits == s0.permits
         && exists now :: s0.clock <= now <= s.clock && Decides(Wait(sleepFor), s0.next, s0.interval, now)
       case _ => false
  }

  /** Whatever step comes, of this thread or another, as long as it is not the release of the lock. */
  lemma StepStaysUnderway(s0: State, s: State, step: Step, t: Thread)
    requires Invariant(s) && Enabled(s, step) && Underway(s0, s, t) && step != Release(t)
    ensures Underway(s0, Apply(s, step), t)
  {
    var s' := Apply(s, step);
    if step.Compare? && step.t == t {
      var now := s.places[t].now;
      if now < s.next {
        assert Decides(Wait(s.next - now), s0.next, s0.interval, now);
      }
    } else if step.Advance? && step.t == t {
      var now := s.places[t].now;
      assert Decides(Permit(s'.next), s0.next, s0.interval, now);
    } else if !step.Tick? {
      assert step.t == t || !InCritical(s.places[step.t]);
      assert s'.places[t] == s.places[t] || step.t == t;
    }
  }

  /** From where a thread has the lock in `states[i]` up to where it gives it back after `states[j]`. */
  predicate IsPass(states: seq<State>, steps: seq<Step>, t: Thread, i: nat, j: nat) {
    && IsRun(states, steps) && i < j < |steps|
    && At(states[i], t, Locked) && steps[j] == Release(t)
    && forall k :: i <= k < j ==> steps[k] != Release(t)
  }

  lemma {:induction false} PassStaysUnderway(states: seq<State>, steps: seq<Step>, t: Thread, i: nat, j: nat, k: nat)
    requires IsPass(states, steps, t, i, j) && i <= k <= j
    ensures Underway(states[i], states[k], t)
    decreases k
  {
    if k == i {
      RunKeepsInvariant(states, steps, i);
      StartsUnderway(states[i], t);
    } else {
      PassStaysUnderway(states, steps, t, i, j, k - 1);
      RunKeepsInvariant(states, steps, k - 1);
      assert steps[k - 1] != Release(t);
      assert Moves(states[k - 1], steps[k - 1], states[k]);
      StepStaysUnderway(states[i], states[k - 1], steps[k - 1], t);
    }
  }

  lemma StartsUnderway(s: State, t: Thread)
    requires Invariant(s) && At(s, t, Locked)
    ensures Underway(s, s, t)
  {
  }

  /**
   * A pass through the lock is atomic, whatever the other threads do meanwhile:
   * it changes the schedule, and permits or waits, as one attempt does at some
   * reading of the clock during the pass.
   */
  lemma PassIsAttempt(states: seq<State>, steps: seq<Step>, t: Thread, i: nat, j: nat)
    requires IsPass(states, steps, t, i, j)
    ensures var s, s' := states[i], states[j];
            exists now, d :: s.clock <= now <= s'.clock && Decides(d, s.next, s.interval, now)
              && (if d.Permit? then s'.next == d.next && s'.permits == s.permits + [now] && At(s', t, Granted)
                  else s'.next == s.next && s'.permits == s.permits && At(s', t, Refused(d.sleepFor)))
  {
    PassStaysUnderway(states, steps, t, i, j, j);
    var s, s' := states[i], states[j];
    assert Moves(s', steps[j], states[j + 1]);
    if s'.places[t].Granted? {
      var now :| s.clock <= now <= s'.clock && s'.permits == s.permits + [now]
                 && Decides(Permit(s'.next), s.next, s.interval, now);
    } else {
      var sleepFor := s'.places[t].sleepFor;
      var now :| s.clock <= now <= s'.clock && Decides(Wait(sleepFor), s.next, s.interval, now);
    }
  }

  // ---- The rate ----

  /** How many permits were given in a window of time. */
  function CountIn(permits: seq<real>, from_: real, to: real): nat {
    if permits == [] then 0
    else
      var n := |permits| - 1;
      (if from_ <= permits[n] <= to then 1 else 0) + CountIn(permits[..n], from_, to)
  }

  lemma {:induction false} EarlierPermits(permits: seq<real>, interval: real, i: nat)
    requires Spaced(permits, interval) && interval > 0.0 && i < |permits| - 1
    ensures permits[i] <= permits[|permits| - 1] - interval
    decreases |permits| - i
  {
    assert permits[i + 1] - permits[i] >= interval;
    if i + 1 < |permits| - 1 {
      EarlierPermits(permits, interval, i + 1);
    }
  }

  lemma {:induction false} CountUpTo(permits: seq<real>, from_: real, to: real, to': real)
    requires forall i :: 0 <= i < |permits| ==> permits[i] <= to && permits[i] <= to'
    ensures CountIn(permits, from_, to) == CountIn(permits, from_, to')
  {
    if permits != [] {
      CountUpTo(permits[..|permits| - 1], from_, to, to');
    }
  }

  lemma {:induction false} CountNone(permits: seq<real>, from_: real, to: real)
    requires forall i :: 0 <= i < |permits| ==> permits[i] < from_
    ensures CountIn(permits, from_, to) == 0
  {
    if permits != [] {
      CountNone(permits[..|permits| - 1], from_, to);
    }
  }

  /** The length of `n` intervals. */
  function Intervals(n: nat, interval: real): real {
    if n == 0 then 0.0 else Intervals(n - 1, interval) + interval
  }

  lemma {:induction false} IntervalsAreProduct(n: nat, interval: real)
    ensures Intervals(n, interval) == n as real * interval
  {
    if n > 0 {
      IntervalsAreProduct(n - 1, interval);
      var m := (n - 1) as real;
      assert (m + 1.0) * interval == m * interval + interval;
    }
  }

  lemma EarlierSpaced(permits: seq<real>, interval: real)
    requires Spaced(permits, interval) && interval > 0.0 && permits != []
    ensures var earlier := permits[..|permits| - 1];
            Spaced(earlier, interval)
            && forall i :: 0 <= i < |earlier| ==> earlier[i] <= permits[|permits| - 1] - interval
  {
    var k := |permits| - 1;
    forall i | 0 <= i < k
      ensures permits[i] <= permits[k] - interval
    {
      EarlierPermits(permits, interval, i);
    }
  }

  /** The permits in a window span as many intervals as there are steps between them. */
  lemma {:induction false} WindowBound(permits: seq<real>, interval: real, from_: real, to: real)
    requires Spaced(permits, interval) && interval > 0.0 && CountIn(permits, from_, to) >= 1
    ensures Intervals(CountIn(permits, from_, to) - 1, interval) <= to - from_
  {
    var k := |permits| - 1;
    var x, earlier := permits[k], permits[..k];
    EarlierSpaced(permits, interval);
    var n := CountIn(earlier, from_, to);
    if !(from_ <= x <= to) {
      WindowBound(earlier, interval, from_, to);
    } else if n >= 1 {
      CountUpTo(earlier, from_, to, x - interval);
      WindowBound(earlier, interval, from_, x - interval);
    }
  }

  lemma DivideLe(a: real, length: real, interval: real)
    requires interval > 0.0 && a * interval <= length
    ensures a <= length / interval
  {
    var q := length / interval;
    assert (q - a) * interval == q * interval - a * interval >= 0.0;
  }

  lemma FloorBound(n: nat, interval: real, length: real)
    requires interval > 0.0 && length >= 0.0
    requires n >= 1 ==> Intervals(n - 1, interval) <= length
    ensures n <= (length / interval).Floor + 1
  {
    if n >= 1 {
      IntervalsAreProduct(n - 1, interval);
      DivideLe((n - 1) as real, length, interval);
    } else {
      DivideLe(0.0, length, interval);
    }
  }

  /**
   * Over every interleaving, successive permits are at least the interval apart,
   * the next one is due an interval after the last, and no window of time sees
   * more permits than the rate allows.
   */
  lemma RateIsLimited(states: seq<State>, steps: seq<Step>, i: nat, from_: real, length: real)
    requires IsRun(states, steps) && i < |states|
    requires states[0].interval > 0.0 && length >= 0.0
    ensures var s := states[i];
            && Spaced(s.permits, s.interval)
            && s.next == (if s.permits == [] then 0.0 else s.permits[|s.permits| - 1] + s.interval)
            && CountIn(s.permits, from_, from_ + length) <= (length / states[0].interval).Floor + 1
  {
    RunKeepsInvariant(states, steps, i);
    var s := states[i];
    if CountIn(s.permits, from_, from_ + length) >= 1 {
      WindowBound(s.permits, s.interval, from_, from_ + length);
    }
    FloorBound(CountIn(s.permits, from_, from_ + length), s.interval, length);
  }

  // ---- Returns from `__enter__` ----

  /** A thread's own step after which it is outside: its call has returned. */
  predicate Returns(step: Step, s': State) {
    !step.Tick? && At(s', step.t, Idle)
  }

  /** The clock readings at which calls returned in the first `n` steps of a run. */
  function ReturnLog(states: seq<State>, steps: seq<Step>, n: nat): seq<real>
    requires |states| == |steps| + 1 && n <= |steps|
  {
    if n == 0 then []
    else
      ReturnLog(states, steps, n - 1)
      + if Returns(steps[n - 1], states[n]) then [states[n].clock] else []
  }

  /** With an interval a call never returns as it enters, and only a thread that was granted a permit returns. */
  lemma OnlyGrantedReturn(s: State, step: Step)
    requires Invariant(s) && Enabled(s, step) && s.interval > 0.0
    ensures Returns(step, Apply(s, step)) <==> step.Release? && s.places[step.t].Granted?
    ensures forall t :: t in s.places && !s.places[t].Idle? && At(Apply(s, step), t, Idle) ==> step == Release(t)
    ensures step.Enter? ==> At(Apply(s, step), step.t, AtLock)
  {
  }

  /** Without one it returns at once, and changes nothing. */
  lemma NoLimitReturns(s: State, t: Thread)
    requires Enabled(s, Enter(t)) && s.interval <= 0.0
    ensures Apply(s, Enter(t)) == s && Returns(Enter(t), Apply(s, Enter(t)))
  {
  }

  predicate IsGranted(s: State) {
    s.holder.Some? && At(s, s.holder.value, Granted)
  }

  /** Every return is preceded by a permit of its own, and followed by the next permit. */
  predicate Interleaved(permits: seq<real>, returns_: seq<real>) {
    && |returns_| <= |permits|
    && (forall k :: 0 <= k < |returns_| ==> permits[k] <= returns_[k])
    && (forall k :: 0 <= k < |returns_| && k + 1 < |permits| ==> returns_[k] <= permits[k + 1])
  }

  /** As many returns as permits, but for the thread that has one and did not return yet. */
  predicate Accounted(s: State, returns_: seq<real>) {
    && |s.permits| == |returns_| + (if IsGranted(s) then 1 else 0)
    && Interleaved(s.permits, returns_)
    && (forall k :: 0 <= k < |returns_| ==> returns_[k] <= s.clock)
    && (s.holder.Some? && s.holder.value in s.places ==>
          match s.places[s.holder.value]
          case HasRead(now) => forall k :: 0 <= k < |returns_| ==> returns_[k] <= now
          case Admitted(now) => forall k :: 0 <= k < |returns_| ==> returns_[k] <= now
          case _ => true)
  }

  lemma ReturnAppended(permits: seq<real>, returns_: seq<real>, clock: real)
    requires Interleaved(permits, returns_) && |permits| == |returns_| + 1 && permits[|returns_|] <= clock
    ensures Interleaved(permits, returns_ + [clock])
  {
  }

  lemma PermitAppended(permits: seq<real>, returns_: seq<real>, now: real)
    requires Interleaved(permits, returns_) && |permits| == |returns_|
    requires forall k :: 0 <= k < |returns_| ==> returns_[k] <= now
    ensures Interleaved(permits + [now], returns_)
  {
  }

  lemma ReleaseIsAccounted(s: State, t: Thread, returns_: seq<real>)
    requires Invariant(s) && At(s, t, Granted) && Accounted(s, returns_)
    ensures Accounted(Apply(s, Release(t)), returns_ + [s.clock])
  {
    assert s.holder == Some(t) && IsGranted(s);
    ReturnAppended(s.permits, returns_, s.clock);
  }

  lemma AdvanceIsAccounted(s: State, t: Thread, returns_: seq<real>)
    requires Invariant(s) && Enabled(s, Advance(t)) && Accounted(s, returns_)
    ensures Accounted(Apply(s, Advance(t)), returns_)
  {
    assert s.holder == Some(t) && !IsGranted(s) && IsGranted(Apply(s, Advance(t)));
    PermitAppended(s.permits, returns_, s.places[t].now);
  }

  lemma OtherIsAccounted(s: State, step: Step, returns_: seq<real>)
    requires Invariant(s) && Enabled(s, step) && s.interval > 0.0 && Accounted(s, returns_)
    requires !step.Advance? && !(step.Release? && s.places[step.t].Granted?)
    ensures Accounted(Apply(s, step), returns_)
  {
    var s' := Apply(s, step);
    assert s'.permits == s.permits;
    if !step.Tick? && s.holder.Some? && step.t != s.holder.value {
      assert s'.places[s.holder.value] == s.places[s.holder.value];
    }
  }

  lemma StepIsAccounted(s: State, step: Step, returns_: seq<real>)
    requires Invariant(s) && Enabled(s, step) && s.interval > 0.0 && Accounted(s, returns_)
    ensures Accounted(Apply(s, step), returns_ + if Returns(step, Apply(s, step)) then [Apply(s, step).clock] else [])
  {
    OnlyGrantedReturn(s, step);
    if step.Release? && s.places[step.t].Granted? {
      ReleaseIsAccounted(s, step.t, returns_);
    } else {
      assert returns_ + [] == returns_;
      if step.Advance? {
        AdvanceIsAccounted(s, step.t, returns_);
      } else {
        OtherIsAccounted(s, step, returns_);
      }
    }
  }

  lemma {:induction false} RunIsAccounted(states: seq<State>, steps: seq<Step>, n: nat)
    requires IsRun(states, steps) && n <= |steps| && states[0].interval > 0.0
    ensures Accounted(states[n], ReturnLog(states, steps, n))
  {
    if n > 0 {
      RunIsAccounted(states, steps, n - 1);
      RunKeepsInvariant(states, steps, n - 1);
      assert Moves(states[n - 1], steps[n - 1], states[n]);
      StepIsAccounted(states[n - 1], steps[n - 1], ReturnLog(states, steps, n - 1));
    }
  }

  lemma {:induction false} InterleavedCount(permits: seq<real>, returns_: seq<real>, n: nat, from_: real, to: real)
    requires Interleaved(permits, returns_) && n <= |returns_|
    requires forall k :: 0 <= k < |permits| - 1 ==> permits[k] <= permits[k + 1]
    ensures CountIn(returns_[..n], from_, to) <= CountIn(permits[..n], from_, to) + 1
  {
    if n > 0 {
      var r, m := returns_[..n], n - 1;
      assert r[..m] == returns_[..m] && permits[..n][..m] == permits[..m];
      InterleavedCount(permits, returns_, m, from_, to);
      if m > 0 && returns_[m - 1] < from_ {
        EarlierReturns(permits, returns_, m);
        CountNone(returns_[..m], from_, to);
      } else if m > 0 {
        assert returns_[m - 1] <= permits[m];
      }
    }
  }

  lemma {:induction false} EarlierReturns(permits: seq<real>, returns_: seq<real>, n: nat)
    requires Interleaved(permits, returns_) && 0 < n <= |returns_|
    ensures forall k :: 0 <= k < n ==> returns_[k] <= returns_[n - 1]
  {
    if n > 1 {
      EarlierReturns(permits, returns_, n - 1);
      assert returns_[n - 2] <= permits[n - 1] <= returns_[n - 1];
    }
  }

  lemma {:induction false} CountGrows(permits: seq<real>, n: nat, from_: real, to: real)
    requires n <= |permits|
    ensures CountIn(permits[..n], from_, to) <= CountIn(permits, from_, to)
    decreases |permits|
  {
    if n == |permits| {
      assert permits[..n] == permits;
    } else {
      var m := |permits| - 1;
      assert permits[..m][..n] == permits[..n];
      CountGrows(permits[..m], n, from_, to);
    }
  }

  lemma SpacedRises(permits: seq<real>, interval: real)
    requires Spaced(permits, interval) && interval > 0.0
    ensures forall k :: 0 <= k < |permits| - 1 ==> permits[k] <= permits[k + 1]
  {
    assert forall k :: 0 <= k < |permits| - 1 ==> permits[k + 1] - permits[k] >= interval;
  }

  /** A window sees at most one return more than permits. */
  lemma ReturnsInWindow(permits: seq<real>, returns_: seq<real>, interval: real, from_: real, to: real)
    requires Interleaved(permits, returns_) && Spaced(permits, interval) && interval > 0.0
    ensures CountIn(returns_, from_, to) <= CountIn(permits, from_, to) + 1
  {
    var n := |returns_|;
    SpacedRises(permits, interval);
    InterleavedCount(permits, returns_, n, from_, to);
    assert returns_[..n] == returns_;
    CountGrows(permits, n, from_, to);
  }

  /**
   * Over every interleaving, no call returns without a permit of its own, and in
   * a window of time at most one call more returns than the rate allows: the one
   * that was permitted before it.
   */
  lemma ReturnsAreLimited(states: seq<State>, steps: seq<Step>, n: nat, from_: real, length: real)
    requires IsRun(states, steps) && n <= |steps|
    requires states[0].interval > 0.0 && length >= 0.0
    ensures Interleaved(states[n].permits, ReturnLog(states, steps, n))
    ensures |states[n].permits| - 1 <= |ReturnLog(states, steps, n)| <= |states[n].permits|
    ensures CountIn(ReturnLog(states, steps, n), from_, from_ + length) <= (length / states[0].interval).Floor + 2
  {
    RunIsAccounted(states, steps, n);
    RunKeepsInvariant(states, steps, n);
    RateIsLimited(states, steps, n, from_, length);
    ReturnsInWindow(states[n].permits, ReturnLog(states, steps, n), states[n].interval, from_, from_ + length);
  }

  /** A limiter of `rps` operations a second lets at most floor(length * rps) + 1 of them start in any window. */
  lemma RpsIsRespected(states: seq<State>, steps: seq<Step>, i: nat, rps: real, from_: real, length: real)
    requires IsRun(states, steps) && i < |states|
    requires rps > 0.0 && states[0].interval > 0.0 && states[0].interval * rps == 1.0 && length >= 0.0
    ensures CountIn(states[i].permits, from_, from_ + length) <= (length * rps).Floor + 1
    ensures CountIn(ReturnLog(states, steps, i), from_, from_ + length) <= (length * rps).Floor + 2
  {
    RateIsLimited(states, steps, i, from_, length);
    ReturnsAreLimited(states, steps, i, from_, length);
    RateIsInverse(states[0].interval, rps, length);
  }

  lemma RateIsInverse(interval: real, rps: real, length: real)
    requires interval > 0.0 && interval * rps == 1.0
    ensures length / interval == length * rps
  {
    var q := length / interval;
    assert q * interval == length;
    Associate(q, interval, rps);
    assert q * 1.0 == q;
  }

  lemma Associate(a: real, b: real, c: real)
    ensures a * b * c == a * (b * c)
  {
  }

  // ---- Waiting ----

  /** No thread is stuck: it can move, or the holder of the lock can, or it sleeps until a time that comes. */
  lemma NothingBlocks(s: State, t: Thread)
    requires Invariant(s) && t in s.places
    ensures match s.places[t]
            case Idle => Enabled(s, Enter(t))
            case AtLock => Enabled(s, Acquire(t)) || (s.holder.Some? && InCritical(s.places[s.holder.value]))
            case Locked => Enabled(s, ReadClock(t))
            case HasRead(_) => Enabled(s, Compare(t))
            case Admitted(_) => Enabled(s, Advance(t))
            case Granted => Enabled(s, Release(t))
            case Refused(_) => Enabled(s, Release(t))
            case Asleep(until) => forall later: State :: later == s.(clock := later.clock) && later.clock >= until ==>
                                    Enabled(later, Wake(t))
  {
  }

  /** From where a thread gives the lock back without a permit up to where it takes it again. */
  predicate IsWait(states: seq<State>, steps: seq<Step>, t: Thread, i: nat, j: nat) {
    && IsRun(states, steps) && i < j < |steps|
    && t in states[i].places && states[i].places[t].Refused? && steps[i] == Release(t) && steps[j] == Acquire(t)
    && forall k :: i < k < j ==> steps[k] != Acquire(t)
  }

  lemma {:induction false} SleepsUntil(states: seq<State>, steps: seq<Step>, t: Thread, i: nat, j: nat, k: nat)
    requires IsWait(states, steps, t, i, j) && i < k <= j
    ensures var until := states[i].clock + states[i].places[t].sleepFor;
            At(states[k], t, Asleep(until)) || (At(states[k], t, AtLock) && states[k].clock >= until)
    decreases k
  {
    assert Moves(states[k - 1], steps[k - 1], states[k]);
    if k > i + 1 {
      SleepsUntil(states, steps, t, i, j, k - 1);
    }
  }

  /** A thread that was refused sleeps its time out before it takes the lock again. */
  lemma RefusedWaits(states: seq<State>, steps: seq<Step>, t: Thread, i: nat, j: nat)
    requires IsWait(states, steps, t, i, j)
    ensures states[j].clock >= states[i].clock + states[i].places[t].sleepFor
  {
    SleepsUntil(states, steps, t, i, j, j);
    assert Moves(states[j], steps[j], states[j + 1]);
  }
}
