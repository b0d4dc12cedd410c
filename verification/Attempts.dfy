/** Timed attempts (pkg/util/attempt.go). Every reading of the clock is a parameter; times and
    durations are whole numbers of one unit. */
module Attempts {

  datatype AttemptStrategy = AttemptStrategy(total: int, delay: int, min: int)

  datatype State = State(last: int, end: int, force: bool, count: nat)

  function Start(s: AttemptStrategy, now: int): State {
    State(now, now + s.total, true, 0)
  }

  function NextSleep(s: AttemptStrategy, a: State, now: int): (sleep: nat)
    ensures now + sleep >= a.last + s.delay
  {
    var sleep := s.delay - (now - a.last);
    if sleep < 0 then 0 else sleep
  }

  /** A call of Next, with its reading of the clock and the one after its sleep, or of HasNext. */
  datatype Call = Next(now: int, woke: int) | HasNext(now: int)

  /** The state after a call and what the call returned. */
  function Do(s: AttemptStrategy, a: State, c: Call): (State, bool) {
    match c
    case Next(now, woke) =>
      var sleep := NextSleep(s, a, now);
      if !a.force && now + sleep >= a.end && s.min <= a.count then (a, false)
      else (State(if sleep > 0 && a.count > 0 then woke else now, a.end, false, a.count + 1), true)
    case HasNext(now) =>
      if a.force || s.min > a.count then (a, true)
      else if now + NextSleep(s, a, now) < a.end then (a.(force := true), true)
      else (a, false)
  }

  class Attempt {
    const strategy: AttemptStrategy
    var last: int
    var end: int
    var force: bool
    var count: nat

    function Value(): State
      reads this
    {
      State(last, end, force, count)
    }

    constructor (s: AttemptStrategy, now: int)
      ensures strategy == s && Value() == Start(s, now)
    {
      strategy := s;
      last, end, force, count := now, now + s.total, true, 0;
    }

    method Next(now: int, woke: int) returns (again: bool)
      modifies this
      ensures (Value(), again) == Do(strategy, old(Value()), Call.Next(now, woke))
    {
      var now' := now;
      var sleep := NextSleep(strategy, Value(), now');
      if !force && !(now' + sleep < end) && strategy.min <= count {
        return false;
      }
      force := false;
      if sleep > 0 && count > 0 {
        now' := woke;
      }
      count := count + 1;
      last := now';
      return true;
    }

    method HasNext(now: int) returns (again: bool)
      modifies this
      ensures (Value(), again) == Do(strategy, old(Value()), Call.HasNext(now))
    {
      if force || strategy.min > count {
        return true;
      }
      if now + NextSleep(strategy, Value(), now) < end {
        force := true;
        return true;
      }
      return false;
    }
  }

  // ---------- Runs ----------

  function Run(s: AttemptStrategy, a: State, calls: seq<Call>): State {
    if calls == [] then a else Do(s, Run(s, a, calls[..|calls| - 1]), calls[|calls| - 1]).0
  }

  /** How many calls of Next have returned true. */
  function Successes(s: AttemptStrategy, a: State, calls: seq<Call>): nat {
    if calls == [] then 0
    else
      var init, last := calls[..|calls| - 1], calls[|calls| - 1];
      Successes(s, a, init) + if last.Next? && Do(s, Run(s, a, init), last).1 then 1 else 0
  }

  lemma {:induction false} CountIsSuccesses(s: AttemptStrategy, a: State, calls: seq<Call>)
    ensures Run(s, a, calls).count == a.count + Successes(s, a, calls)
  {
    if calls != [] {
      CountIsSuccesses(s, a, calls[..|calls| - 1]);
    }
  }

  /** The clock does not run backwards between Start and the first attempt, and a sleep lasts at least
      as long as asked. */
  ghost predicate ClockLaw(s: AttemptStrategy, a: State, c: Call) {
    c.Next? ==> c.woke >= c.now + NextSleep(s, a, c.now) && (a.count == 0 ==> c.now >= a.last)
  }

  ghost predicate ClockLaws(s: AttemptStrategy, a: State, calls: seq<Call>) {
    calls == [] ||
    var init := calls[..|calls| - 1];
    ClockLaws(s, a, init) && ClockLaw(s, Run(s, a, init), calls[|calls| - 1])
  }

  function CeilDiv(t: int, d: int): int
    requires d > 0
  {
    (t + d - 1) / d
  }

  function Max(x: int, y: int): int {
    if x < y then y else x
  }

  lemma CeilDivBound(n: int, t: int, d: int)
    requires d > 0 && (n - 1) * d < t
    ensures n <= CeilDiv(t, d)
  {
    if n > CeilDiv(t, d) {
      MulMonotone(CeilDiv(t, d) + 1, n, d);
      assert false;
    }
  }

  lemma MulMonotone(x: int, y: int, d: int)
    requires x <= y && d > 0
    ensures x * d <= y * d
  {
  }

  /** What every state of a run that started at t0 satisfies. */
  ghost predicate Paced(s: AttemptStrategy, t0: int, a: State) {
    && a.end == t0 + s.total
    && (a.count == 0 ==> a.force && a.last == t0)
    && (a.count > 0 ==>
          && a.last >= t0 + (a.count - 1) * s.delay
          && (a.count == 1 || a.count <= s.min || (a.count - 1) * s.delay < s.total)
          && (a.force ==> a.count * s.delay < s.total))
  }

  lemma StepKeepsPace(s: AttemptStrategy, t0: int, a: State, c: Call)
    requires s.delay > 0 && Paced(s, t0, a) && ClockLaw(s, a, c)
    ensures Paced(s, t0, Do(s, a, c).0)
  {
    assert a.count > 0 ==> (a.count - 1) * s.delay + s.delay == a.count * s.delay;
  }

  lemma {:induction false} RunKeepsPace(s: AttemptStrategy, t0: int, calls: seq<Call>)
    requires s.delay > 0 && ClockLaws(s, Start(s, t0), calls)
    ensures Paced(s, t0, Run(s, Start(s, t0), calls))
  {
    if calls != [] {
      var init := calls[..|calls| - 1];
      RunKeepsPace(s, t0, init);
      StepKeepsPace(s, t0, Run(s, Start(s, t0), init), calls[|calls| - 1]);
    }
  }

  /** Whatever calls are made and whatever the clock shows, Next returns true at most
      max(1, Min, ceil(Total / Delay)) times. */
  lemma AttemptBound(s: AttemptStrategy, t0: int, calls: seq<Call>)
    requires s.delay > 0 && ClockLaws(s, Start(s, t0), calls)
    ensures Successes(s, Start(s, t0), calls) <= Max(1, Max(s.min, CeilDiv(s.total, s.delay)))
  {
    RunKeepsPace(s, t0, calls);
    CountIsSuccesses(s, Start(s, t0), calls);
    var n := Run(s, Start(s, t0), calls).count;
    if n > 1 && n > s.min {
      CeilDivBound(n, s.total, s.delay);
    }
  }

  lemma {:induction false} LastStays(s: AttemptStrategy, a: State, calls: seq<Call>)
    requires Run(s, a, calls).count == a.count
    ensures Run(s, a, calls).last == a.last
  {
    if calls != [] {
      CountIsSuccesses(s, a, calls);
      CountIsSuccesses(s, a, calls[..|calls| - 1]);
      LastStays(s, a, calls[..|calls| - 1]);
    }
  }

  /** After a first success, the next one, however many calls in between fail, is at least Delay later. */
  lemma AttemptSpacing(s: AttemptStrategy, a: State, between: seq<Call>, c: Call)
    requires a.count > 0
    requires Run(s, a, between).count == a.count
    requires c.Next? && Do(s, Run(s, a, between), c).1 && ClockLaw(s, Run(s, a, between), c)
    ensures Do(s, Run(s, a, between), c).0.last >= a.last + s.delay
  {
    LastStays(s, a, between);
  }

  /** If HasNext returns true then, with any further calls of HasNext in between and whatever the clock
      shows, the following Next returns true. */
  lemma {:induction false} AttemptPromise(s: AttemptStrategy, a: State, now: int, more: seq<Call>, next: Call)
    requires Do(s, a, HasNext(now)).1
    requires forall c :: c in more ==> c.HasNext?
    requires next.Next?
    ensures Do(s, Run(s, Do(s, a, HasNext(now)).0, more), next).1
  {
    PromiseIsKept(s, Do(s, a, HasNext(now)).0, more);
  }

  lemma {:induction false} PromiseIsKept(s: AttemptStrategy, a: State, more: seq<Call>)
    requires a.force || s.min > a.count
    requires forall c :: c in more ==> c.HasNext?
    ensures var b := Run(s, a, more); b.force || s.min > b.count
  {
    if more != [] {
      assert more[|more| - 1] in more;
      assert forall c :: c in more[..|more| - 1] ==> c in more;
      PromiseIsKept(s, a, more[..|more| - 1]);
    }
  }

  /** The first max(1, Min) calls of Next return true, whatever other calls are made and whatever the
      clock shows. */
  lemma FirstAttempts(s: AttemptStrategy, t0: int, calls: seq<Call>, next: Call)
    requires Successes(s, Start(s, t0), calls) < Max(1, s.min)
    requires next.Next?
    ensures Do(s, Run(s, Start(s, t0), calls), next).1
  {
    CountIsSuccesses(s, Start(s, t0), calls);
    UntriedIsForced(s, t0, calls);
  }

  lemma {:induction false} UntriedIsForced(s: AttemptStrategy, t0: int, calls: seq<Call>)
    ensures var a := Run(s, Start(s, t0), calls); a.count == 0 ==> a.force
  {
    if calls != [] {
      UntriedIsForced(s, t0, calls[..|calls| - 1]);
    }
  }

  // ---------- Until Total has elapsed ----------

  /** Some call of HasNext since the last success, or since the start if there is none, has returned true, or
      no attempt has been made yet. */
  ghost predicate Owed(s: AttemptStrategy, t0: int, calls: seq<Call>) {
    if calls == [] then true
    else
      var init, last := calls[..|calls| - 1], calls[|calls| - 1];
      match last
      case Next(_, _) => Owed(s, t0, init) && !Do(s, Run(s, Start(s, t0), init), last).1
      case HasNext(now) =>
        || Owed(s, t0, init)
        || (Successes(s, Start(s, t0), init) >= s.min && Do(s, Run(s, Start(s, t0), init), last).1)
  }

  lemma {:induction false} ForceIsOwed(s: AttemptStrategy, t0: int, calls: seq<Call>)
    ensures Run(s, Start(s, t0), calls).force <==> Owed(s, t0, calls)
    ensures Run(s, Start(s, t0), calls).end == t0 + s.total
  {
    if calls != [] {
      CountIsSuccesses(s, Start(s, t0), calls[..|calls| - 1]);
      ForceIsOwed(s, t0, calls[..|calls| - 1]);
    }
  }

  /** Exactly when Next gives up: nothing is owed, Min attempts have been made, and the next attempt, which is
      due now but not before Delay has passed since the last one, would come only once Total has elapsed. */
  lemma WhenNextStops(s: AttemptStrategy, t0: int, calls: seq<Call>, now: int, woke: int)
    ensures var a := Run(s, Start(s, t0), calls);
            !Do(s, a, Call.Next(now, woke)).1 <==>
              && !Owed(s, t0, calls)
              && Successes(s, Start(s, t0), calls) >= s.min
              && Max(now, a.last + s.delay) >= t0 + s.total
  {
    hide Run, Owed, Successes;
    ForceIsOwed(s, t0, calls);
    CountIsSuccesses(s, Start(s, t0), calls);
  }

  /** As long as the next attempt is due before Total has elapsed, Next goes on returning true. */
  lemma NextGoesOn(s: AttemptStrategy, t0: int, calls: seq<Call>, now: int, woke: int)
    requires Max(now, Run(s, Start(s, t0), calls).last + s.delay) < t0 + s.total
    ensures Do(s, Run(s, Start(s, t0), calls), Call.Next(now, woke)).1
  {
    WhenNextStops(s, t0, calls, now, woke);
  }

  // ---------- Min counts attempts ----------

  /** What Min is documented as, a number of retries, would promise: until the first attempt and Min more
      have been made, Next returns true. */
  ghost predicate RetriesPromised(s: AttemptStrategy, t0: int) {
    forall calls: seq<Call>, next: Call ::
      next.Next? && ClockLaws(s, Start(s, t0), calls) && ClockLaw(s, Run(s, Start(s, t0), calls), next) &&
      Successes(s, Start(s, t0), calls) < 1 + s.min ==>
        Do(s, Run(s, Start(s, t0), calls), next).1
  }

  /** A call of Next made after the end, by a clock that has not run backwards. */
  function Late(s: AttemptStrategy, a: State): Call {
    var now := Max(a.last, a.end);
    Call.Next(now, now + NextSleep(s, a, now))
  }

  /** n late calls in a row. */
  function Burst(s: AttemptStrategy, t0: int, n: nat): seq<Call> {
    if n == 0 then []
    else
      var calls := Burst(s, t0, n - 1);
      calls + [Late(s, Run(s, Start(s, t0), calls))]
  }

  lemma OneMoreCall(s: AttemptStrategy, a: State, calls: seq<Call>, c: Call)
    requires ClockLaws(s, a, calls) && ClockLaw(s, Run(s, a, calls), c)
    ensures ClockLaws(s, a, calls + [c]) && Run(s, a, calls + [c]) == Do(s, Run(s, a, calls), c).0
  {
    hide Do, ClockLaw;
    assert (calls + [c])[..|calls|] == calls;
  }

  /** A late call while fewer than Min have succeeded. */
  lemma LateSucceeds(s: AttemptStrategy, a: State)
    requires a.count < s.min
    ensures ClockLaw(s, a, Late(s, a))
    ensures var b := Do(s, a, Late(s, a)).0; b.count == a.count + 1 && !b.force
  {
  }

  /** The first Min late calls all succeed. */
  lemma {:induction false} BurstSucceeds(s: AttemptStrategy, t0: int, n: nat)
    requires n <= s.min
    ensures var calls := Burst(s, t0, n);
            && ClockLaws(s, Start(s, t0), calls)
            && Successes(s, Start(s, t0), calls) == n
            && var a := Run(s, Start(s, t0), calls);
               a.count == n && (n > 0 ==> !a.force)
  {
    hide Do, ClockLaw, ClockLaws, Successes, Run, Late;
    CountIsSuccesses(s, Start(s, t0), Burst(s, t0, n));
    if n == 0 {
      NoCalls(s, Start(s, t0));
    } else {
      BurstSucceeds(s, t0, n - 1);
      var init := Burst(s, t0, n - 1);
      var a := Run(s, Start(s, t0), init);
      LateSucceeds(s, a);
      OneMoreCall(s, Start(s, t0), init, Late(s, a));
    }
  }

  lemma NoCalls(s: AttemptStrategy, a: State)
    ensures ClockLaws(s, a, []) && Run(s, a, []) == a
  {
  }

  /** Min retries are promised only if Min is zero or less: a larger Min counts the first attempt too. */
  lemma MinIsNotRetries(s: AttemptStrategy, t0: int)
    ensures RetriesPromised(s, t0) <==> s.min <= 0
  {
    hide Do, Run, Successes, ClockLaws, ClockLaw;
    if s.min > 0 {
      BurstSucceeds(s, t0, s.min);
      LateFails(s, t0);
    } else {
      forall calls: seq<Call>, next: Call | next.Next? && Successes(s, Start(s, t0), calls) < 1 + s.min
        ensures Do(s, Run(s, Start(s, t0), calls), next).1
      {
        FirstAttempts(s, t0, calls, next);
      }
    }
  }

  /** After Min late calls one more fails. */
  lemma LateFails(s: AttemptStrategy, t0: int)
    requires s.min > 0
    ensures var a := Run(s, Start(s, t0), Burst(s, t0, s.min));
            && ClockLaw(s, a, Late(s, a))
            && !Do(s, a, Late(s, a)).1
  {
    BurstSucceeds(s, t0, s.min);
  }
}
