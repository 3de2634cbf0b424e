/** The login throttle of apps/personal-auth/pkg/service/auth.go: a counter with a fixed window and a
    lock key, the same for identifiers and for IP addresses. */
module Throttle {
  import opened Options
  import opened Redis
  import Sessions = StateToken
  import R = Runs

  /** What happened to one key between two stores. */
  datatype Step = Quiet | Failure(at: int) | Success(at: int)

  predicate SameKey(s: Store, s': Store, key: string) {
    && (key in s'.counters <==> key in s.counters) && (key in s.counters ==> s'.counters[key] == s.counters[key])
    && (key in s'.locks <==> key in s.locks) && (key in s.locks ==> s'.locks[key] == s.locks[key])
  }

  /** The count a wrong password at time `at` brings the counter to. */
  function CountAt(s: Store, key: string, at: int): nat {
    if CounterAlive(s.(now := at), key) then s.counters[key].count + 1 else 1
  }

  /** A wrong password counted at time `at`: at the limit the key is locked and the counter removed;
      below it the counter goes up, and a first attempt starts the window. */
  ghost predicate Counted(s: Store, s': Store, key: string, at: int, max: int, window: int) {
    && s.now <= at <= s'.now
    && var n := CountAt(s, key, at);
       if n >= max then
         key !in s'.counters && key in s'.locks && at + window <= s'.locks[key] <= s'.now + window
       else
         && (key in s'.locks <==> key in s.locks) && (key in s.locks ==> s'.locks[key] == s.locks[key])
         && key in s'.counters && s'.counters[key].count == n && s'.counters[key].expires.Some?
         && (n == 1 ==> at + window <= s'.counters[key].expires.value <= s'.now + window)
         && (n > 1 ==> s'.counters[key].expires == s.counters[key].expires)
  }

  ghost predicate Stepped(s: Store, s': Store, key: string, step: Step, max: int, window: int) {
    match step
    case Quiet => s'.now >= s.now && SameKey(s, s', key)
    case Failure(at) => (key in s.locks ==> s.locks[key] <= at) && Counted(s, s', key, at, max, window)
    case Success(at) => s.now <= at <= s'.now && key !in s'.counters && key !in s'.locks
  }

  /** The stored counter is below the limit and has an expiry. */
  predicate CounterOk(s: Store, key: string, max: int) {
    key in s.counters ==> 1 <= s.counters[key].count < max && s.counters[key].expires.Some?
  }

  lemma SteppedKeeps(s: Store, s': Store, key: string, step: Step, max: int, window: int)
    requires CounterOk(s, key, max) && Stepped(s, s', key, step, max, window)
    ensures CounterOk(s', key, max)
  {
  }

  /** No counter and no lock changes while time passes. */
  predicate SameThrottle(s: Store, s': Store) {
    s'.now >= s.now && s'.counters == s.counters && s'.locks == s.locks
  }

  /** A step still describes the key when time passes before and after, and the key is not touched. */
  lemma SteppedWiden(s: Store, m: Store, m': Store, s': Store, key: string, step: Step, max: int, window: int)
    requires m.now >= s.now && SameKey(s, m, key) && Stepped(m, m', key, step, max, window)
    requires s'.now >= m'.now && SameKey(m', s', key)
    ensures Stepped(s, s', key, step, max, window)
  {
    if step.Failure? {
      assert CountAt(s, key, step.at) == CountAt(m, key, step.at);
    }
  }

  /** recordFailedAttempt and recordIPFailedAttempt, with the configured limit and duration. */
  method RecordFailedAttempt(r: Client, key: string, max: int, window: int) returns (at: int)
    requires CounterOk(r.Snapshot(), key, max) && window > 0
    modifies r`now, r`trace, r`counters, r`locks
    ensures Counted(old(r.Snapshot()), r.Snapshot(), key, at, max, window)
    ensures forall k :: k != key ==> SameKey(old(r.Snapshot()), r.Snapshot(), k)
    ensures Sessions.Still(old(r.Snapshot()), old(r.trace), r.trace)
  {
    ghost var s := r.Snapshot();
    var attempts := r.Incr(key);
    at := r.now;
    assert attempts == CountAt(s, key, at);
    if attempts == 1 {
      r.Expire(key, window);
    }
    if attempts >= max {
      r.SetLock(key, window);
      r.DelCounter(key);
    }
  }

  // ---------------------------------------------------------------- the bound over whole runs

  ghost function SteppedUnder(key: string, max: int, window: int): (Store, Step, Store) -> bool {
    (s, step, s') => Stepped(s, s', key, step, max, window)
  }

  ghost predicate IsRun(states: seq<Store>, steps: seq<Step>, key: string, max: int, window: int) {
    R.IsRun(states, steps, SteppedUnder(key, max, window))
  }

  predicate Within(at: int, from: int, window: int) {
    from <= at < from + window
  }

  /** Wrong passwords whose time lies in the interval. */
  function FailuresWithin(steps: seq<Step>, from: int, window: int): nat {
    if steps == [] then 0
    else
      var last := steps[|steps| - 1];
      FailuresWithin(steps[..|steps| - 1], from, window) +
      if last.Failure? && Within(last.at, from, window) then 1 else 0
  }

  predicate NoSuccessWithin(steps: seq<Step>, from: int, window: int) {
    forall i :: 0 <= i < |steps| && steps[i].Success? ==> !Within(steps[i].at, from, window)
  }

  function Bound(max: int): nat {
    if max >= 2 then 2 * max - 2 else 1
  }

  /** How the failures counted so far show in the store: nothing yet, or the interval is over, or the
      key is locked past it, or the counter of a window opened earlier, or later, bounds them. */
  ghost predicate Accounts(s: Store, key: string, from: int, window: int, failures: nat, max: int) {
    || failures == 0
    || (failures <= Bound(max) && s.now >= from + window)
    || (failures <= Bound(max) && s.now >= from && key in s.locks && s.locks[key] >= from + window)
    || (max >= 2 && s.now >= from && key in s.counters && failures <= s.counters[key].count - 1)
    || (max >= 2 && s.now >= from && key in s.counters && s.counters[key].expires.Some? &&
        s.counters[key].expires.value >= from + window && failures <= max - 2 + s.counters[key].count)
  }

  lemma AccountsStep(s: Store, s': Store, key: string, step: Step, from: int, failures: nat, max: int, window: int)
    requires CounterOk(s, key, max) && window > 0 && Stepped(s, s', key, step, max, window)
    requires Accounts(s, key, from, window, failures, max)
    requires step.Success? ==> !Within(step.at, from, window)
    ensures var more := if step.Failure? && Within(step.at, from, window) then 1 else 0;
            Accounts(s', key, from, window, failures + more, max) && failures + more <= Bound(max)
  {
    assert failures <= Bound(max);
    match step
    case Quiet =>
    case Success(at) =>
    case Failure(at) =>
      if at < from {
        assert failures == 0;
      }
  }

  lemma {:induction false} RunBound(states: seq<Store>, steps: seq<Step>, key: string, from: int, max: int, window: int,
                                    n: nat)
    requires window > 0 && IsRun(states, steps, key, max, window) && CounterOk(states[0], key, max)
    requires NoSuccessWithin(steps, from, window) && n <= |steps|
    ensures CounterOk(states[n], key, max)
    ensures Accounts(states[n], key, from, window, FailuresWithin(steps[..n], from, window), max)
    ensures FailuresWithin(steps[..n], from, window) <= Bound(max)
    decreases n
  {
    if n > 0 {
      RunBound(states, steps, key, from, max, window, n - 1);
      assert R.Linked(states, steps, SteppedUnder(key, max, window), n - 1);
      SteppedKeeps(states[n - 1], states[n], key, steps[n - 1], max, window);
      assert steps[..n][..n - 1] == steps[..n - 1];
      var failures := FailuresWithin(steps[..n - 1], from, window);
      AccountsStep(states[n - 1], states[n], key, steps[n - 1], from, failures, max, window);
    }
  }

  /** In any interval as long as the lock, without a successful login in it, at most 2·max − 2 wrong
      passwords are counted (one when the limit is below two), and after every step the stored counter is
      below the limit. */
  lemma SlidingBound(states: seq<Store>, steps: seq<Step>, key: string, max: int, window: int)
    requires window > 0 && IsRun(states, steps, key, max, window) && CounterOk(states[0], key, max)
    ensures forall from :: NoSuccessWithin(steps, from, window) ==> FailuresWithin(steps, from, window) <= Bound(max)
    ensures forall i :: 0 <= i <= |steps| ==> CounterOk(states[i], key, max)
  {
    assert steps[..|steps|] == steps;
    forall from | NoSuccessWithin(steps, from, window)
      ensures FailuresWithin(steps, from, window) <= Bound(max)
    {
      RunBound(states, steps, key, from, max, window, |steps|);
    }
    var ok := (s: Store) => CounterOk(s, key, max);
    var all := (c: Step) => true;
    forall s, c, s' | ok(s) && SteppedUnder(key, max, window)(s, c, s')
      ensures ok(s')
    {
      SteppedKeeps(s, s', key, c, max, window);
    }
    forall i | 0 <= i <= |steps|
      ensures CounterOk(states[i], key, max)
    {
      R.HoldsAt(states, steps, SteppedUnder(key, max, window), ok, all, 0, i);
    }
  }

  // ---------------------------------------------------------------- the bound is reached

  /** Store i of the worst run: one attempt opens a window, max − 2 more come just before it closes, and
      max attempts follow as soon as it has closed. */
  function WorstState(i: nat, key: string, max: int, window: int): Store {
    var empty := Store(0, map[], map[], {}, map[], map[]);
    if i == 0 then empty
    else if i < max then
      empty.(now := if i == 1 then 0 else window - 1, counters := map[key := Counter(i, Some(window))])
    else if i < 2 * max - 1 then
      empty.(now := window, counters := map[key := Counter(i - max + 1, Some(2 * window))])
    else empty.(now := window, locks := map[key := 2 * window])
  }

  function WorstStep(i: nat, max: int, window: int): Step {
    Failure(if i == 0 then 0 else if i < max - 1 then window - 1 else window)
  }

  lemma {:induction false} WorstCount(n: nat, max: int, window: int)
    requires max >= 2 && window >= 2 && 1 <= n <= 2 * max - 1
    ensures FailuresWithin(seq(n, i requires 0 <= i => WorstStep(i, max, window)), window - 1, window) == n - 1
  {
    var steps := seq(n, i requires 0 <= i => WorstStep(i, max, window));
    assert steps[..n - 1] == seq(n - 1, i requires 0 <= i => WorstStep(i, max, window));
    if n > 1 {
      WorstCount(n - 1, max, window);
    } else {
      assert FailuresWithin(steps[..0], window - 1, window) == 0;
    }
  }

  lemma WorstStepped(i: nat, key: string, max: int, window: int)
    requires max >= 2 && window >= 2 && i < 2 * max - 1
    ensures Stepped(WorstState(i, key, max, window), WorstState(i + 1, key, max, window), key,
                    WorstStep(i, max, window), max, window)
  {
  }

  /** For every limit of at least two there is a run, from an empty store, with exactly as many wrong
      passwords in one interval as the bound allows. */
  lemma BoundIsReached(key: string, max: int, window: int)
    returns (states: seq<Store>, steps: seq<Step>, from: int)
    requires max >= 2 && window >= 2
    ensures IsRun(states, steps, key, max, window) && CounterOk(states[0], key, max)
    ensures NoSuccessWithin(steps, from, window)
    ensures FailuresWithin(steps, from, window) == Bound(max)
  {
    var n := 2 * max - 1;
    states := seq(n + 1, i requires 0 <= i => WorstState(i, key, max, window));
    steps := seq(n, i requires 0 <= i => WorstStep(i, max, window));
    from := window - 1;
    WorstCount(n, max, window);
    forall i | 0 <= i < n
      ensures R.Linked(states, steps, SteppedUnder(key, max, window), i)
    {
      WorstStepped(i, key, max, window);
    }
  }
}
