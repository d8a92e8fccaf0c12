/**
 The circuit breaker of src/notification/retry.service.ts.

 `execute` is split into the two moments at which it touches the breaker: the start of a call
 (which may be refused) and its completion.  Calls may overlap, so a history is any sequence of
 starts and completions; nothing below assumes that they alternate.
 */
module CircuitBreakers {
  import opened Common

  const FAILURE_THRESHOLD := 5
  const SUCCESS_THRESHOLD := 2
  const TIMEOUT_MS := 30000

  datatype Mode = Closed | Open | HalfOpen

  datatype State = State(mode: Mode, failureCount: nat, successCount: nat, lastFailureTime: Option<int>)

  const INITIAL := State(Closed, 0, 0, None)

  datatype Event = Start(now: int) | Succeed | Fail(now: int)

  // ----- The transitions

  /** A missing failure time and the time 0 are both falsy in the source, and neither allows a reset. */
  predicate ShouldAttemptReset(s: State, now: int) {
    s.lastFailureTime.Some? && s.lastFailureTime.value != 0 && now - s.lastFailureTime.value >= TIMEOUT_MS
  }

  function AfterStart(s: State, now: int): State {
    if s.mode == Open && ShouldAttemptReset(s, now) then s.(mode := HalfOpen) else s
  }

  predicate Admits(s: State, now: int) {
    AfterStart(s, now).mode != Open
  }

  function AfterSuccess(s: State): State {
    if s.mode == HalfOpen then
      if s.successCount + 1 >= SUCCESS_THRESHOLD
      then State(Closed, 0, 0, s.lastFailureTime)
      else State(HalfOpen, 0, s.successCount + 1, s.lastFailureTime)
    else s.(failureCount := 0)
  }

  function AfterFailure(s: State, now: int): State {
    var counted := s.(failureCount := s.failureCount + 1, lastFailureTime := Some(now));
    if s.mode == HalfOpen then counted.(mode := Open, successCount := 0)
    else if counted.failureCount >= FAILURE_THRESHOLD then counted.(mode := Open)
    else counted
  }

  function Apply(s: State, e: Event): State {
    match e
    case Start(now) => AfterStart(s, now)
    case Succeed => AfterSuccess(s)
    case Fail(now) => AfterFailure(s, now)
  }

  /** The state after a whole history. */
  function Replay(history: seq<Event>): State {
    if history == [] then INITIAL
    else Apply(Replay(history[..|history| - 1]), history[|history| - 1])
  }

  // ----- What a history says, independently of the breaker

  /** The length of the run of failed completions that ends the history. */
  function TrailingFailures(history: seq<Event>): nat {
    if history == [] then 0
    else
      var before := history[..|history| - 1];
      match history[|history| - 1]
      case Start(_) => TrailingFailures(before)
      case Succeed => 0
      case Fail(_) => TrailingFailures(before) + 1
  }

  function LastFailure(history: seq<Event>): Option<int> {
    if history == [] then None
    else match history[|history| - 1]
      case Fail(now) => Some(now)
      case _ => LastFailure(history[..|history| - 1])
  }

  // ----- Invariants of every history

  ghost predicate Consistent(s: State) {
    && (s.mode == Closed ==> s.failureCount < FAILURE_THRESHOLD)
    && (s.successCount > 0 ==> s.mode == HalfOpen)
    && s.successCount < SUCCESS_THRESHOLD
    && (s.mode != Closed ==> s.lastFailureTime.Some?)
  }

  lemma {:induction false} HistoryInvariant(history: seq<Event>)
    ensures var s := Replay(history);
            && Consistent(s)
            && s.failureCount == TrailingFailures(history)
            && s.lastFailureTime == LastFailure(history)
  {
    if history != [] {
      HistoryInvariant(history[..|history| - 1]);
    }
  }

  lemma ReplayAppend(history: seq<Event>, e: Event)
    ensures Replay(history + [e]) == Apply(Replay(history), e)
    ensures TrailingFailures(history + [e]) ==
            match e
            case Start(_) => TrailingFailures(history)
            case Succeed => 0
            case Fail(_) => TrailingFailures(history) + 1
  {
    assert (history + [e])[..|history|] == history;
  }

  /** The successes since the breaker became half-open. */
  function RecoverySuccesses(history: seq<Event>): nat {
    if history == [] || Replay(history).mode != HalfOpen then 0
    else RecoverySuccesses(history[..|history| - 1]) + (if history[|history| - 1].Succeed? then 1 else 0)
  }

  lemma {:induction false} SuccessesCounted(history: seq<Event>)
    ensures Replay(history).successCount == RecoverySuccesses(history)
    decreases |history|
  {
    HistoryInvariant(history);
    if history != [] {
      SuccessesCounted(history[..|history| - 1]);
      HistoryInvariant(history[..|history| - 1]);
    }
  }

  /** Every change of mode, in terms of the history: closed until the fifth failure in a row; open until a call starts
      30 s after the last failure (not one at time 0); half-open until a failure or the second success. */
  lemma ModeChanges(history: seq<Event>, e: Event)
    ensures var before, after := Replay(history).mode, Replay(history + [e]).mode;
            && (before == Closed ==> after == if e.Fail? && TrailingFailures(history) == 4 then Open else Closed)
            && (before == Open ==> LastFailure(history).Some?)
            && (before == Open ==>
                  after == if e.Start? && LastFailure(history) != Some(0) &&
                              e.now >= LastFailure(history).value + 30000 then HalfOpen else Open)
            && (before == HalfOpen ==>
                  after == if e.Fail? then Open
                           else if e.Succeed? && RecoverySuccesses(history) == 1 then Closed else HalfOpen)
  {
    HistoryInvariant(history);
    SuccessesCounted(history);
    ReplayAppend(history, e);
  }

  /** A breaker has left CLOSED at some time exactly if at some time five failures in a row ended the history. */
  lemma {:induction false} OpenedIff(history: seq<Event>)
    ensures (exists n :: 0 <= n <= |history| && Replay(history[..n]).mode != Closed) <==>
            (exists n :: 0 <= n <= |history| && TrailingFailures(history[..n]) >= 5)
  {
    if exists n :: 0 <= n <= |history| && TrailingFailures(history[..n]) >= 5 {
      var n :| 0 <= n <= |history| && TrailingFailures(history[..n]) >= 5;
      HistoryInvariant(history[..n]);
      assert Replay(history[..n]).mode != Closed;
    } else {
      forall n | 0 <= n <= |history| ensures Replay(history[..n]).mode == Closed {
        ClosedBelowFive(history, n);
      }
    }
  }

  lemma {:induction false} ClosedBelowFive(history: seq<Event>, n: nat)
    requires n <= |history| && forall k :: 0 <= k <= n ==> TrailingFailures(history[..k]) < 5
    ensures Replay(history[..n]).mode == Closed
    decreases n
  {
    if n > 0 {
      ClosedBelowFive(history, n - 1);
      assert history[..n] == history[..n - 1] + [history[n - 1]];
      ModeChanges(history[..n - 1], history[n - 1]);
      ReplayAppend(history[..n - 1], history[n - 1]);
      assert TrailingFailures(history[..n]) < 5;
    } else {
      assert history[..0] == [];
    }
  }

  /** A closed breaker trips on the fifth failure in a row, not earlier and not later. */
  lemma TripsExactlyAtThreshold(history: seq<Event>, now: int)
    requires Replay(history).mode == Closed
    ensures var after := history + [Fail(now)];
            && (Replay(after).mode == Open <==> TrailingFailures(after) == FAILURE_THRESHOLD)
            && (Replay(after).mode == Closed <==> TrailingFailures(after) < FAILURE_THRESHOLD)
  {
    var after := history + [Fail(now)];
    assert after[..|after| - 1] == history;
    HistoryInvariant(history);
  }

  /** An open breaker admits a call exactly when the last failure of the history is 30 s old (and not at time 0). */
  lemma OpenAdmitsOnlyAfterTimeout(history: seq<Event>, now: int)
    requires Replay(history).mode == Open
    ensures LastFailure(history).Some?
    ensures Admits(Replay(history), now) <==>
            LastFailure(history).value != 0 && now >= LastFailure(history).value + TIMEOUT_MS
  {
    HistoryInvariant(history);
  }

  /** Whatever calls are started and completed meanwhile, an open breaker stays open and refuses
      every start that comes less than 30 s after the last failure so far. */
  lemma {:induction false} StaysOpen(history: seq<Event>, more: seq<Event>)
    requires Replay(history).mode == Open
    requires forall i :: 0 <= i < |more| && more[i].Start? ==>
               LastFailure(history + more[..i]).Some? &&
               more[i].now < LastFailure(history + more[..i]).value + TIMEOUT_MS
    ensures Replay(history + more).mode == Open
    ensures forall i :: 0 <= i < |more| && more[i].Start? ==> !Admits(Replay(history + more[..i]), more[i].now)
    decreases |more|
  {
    if more == [] {
      assert history + more == history;
    } else {
      var n := |more| - 1;
      var init := more[..n];
      forall i | 0 <= i <= n ensures init[..i] == more[..i] {}
      StaysOpen(history, init);
      OpenStep(history + init, more[n]);
      assert history + more == history + init + [more[n]];
      forall i | 0 <= i < |more| && more[i].Start? ensures !Admits(Replay(history + more[..i]), more[i].now) {
        assert i < n ==> init[i] == more[i] && init[..i] == more[..i];
      }
    }
  }

  lemma OpenStep(history: seq<Event>, e: Event)
    requires Replay(history).mode == Open
    requires e.Start? ==> LastFailure(history).Some? && e.now < LastFailure(history).value + TIMEOUT_MS
    ensures Replay(history + [e]).mode == Open
    ensures e.Start? ==> !Admits(Replay(history), e.now)
  {
    HistoryInvariant(history);
    assert (history + [e])[..|history|] == history;
  }

  /** From every reachable state whose last failure is 30 s old, two successful calls in a row leave the
      breaker closed.  A breaker that was open needs both of them.  The guard on the time 0 is the source's:
      a failure recorded at time 0 counts as "no failure time" and never allows a reset. */
  lemma RecoveryTakesTwoSuccesses(history: seq<Event>, t1: int, t2: int)
    requires LastFailure(history).Some? ==> t1 >= LastFailure(history).value + TIMEOUT_MS
    requires t1 <= t2
    ensures var s := Replay(history);
            var one := AfterSuccess(AfterStart(s, t1));
            var two := AfterSuccess(AfterStart(one, t2));
            && (two.mode == Closed <==> !(s.mode == Open && LastFailure(history) == Some(0)))
            && (s.mode == Open ==> one.mode != Closed)
            && (s.mode == Open && Admits(s, t1) ==> one.mode == HalfOpen && Admits(one, t2))
  {
    HistoryInvariant(history);
  }

  // ----- One call at a time, every call failing

  datatype Attempt = Attempt(start: int, end: int)

  /** Calls that do not overlap, all of them between the times from and to. */
  predicate Sequential(attempts: seq<Attempt>, from: int, to: int) {
    attempts == [] ||
    (from <= attempts[0].start <= attempts[0].end <= to && Sequential(attempts[1..], attempts[0].end, to))
  }

  /** How often the service is really invoked when every admitted attempt fails. */
  function Invocations(s: State, attempts: seq<Attempt>): nat
    decreases |attempts|
  {
    if attempts == [] then 0
    else
      var started := AfterStart(s, attempts[0].start);
      if started.mode == Open then Invocations(started, attempts[1..])
      else 1 + Invocations(AfterFailure(started, attempts[0].end), attempts[1..])
  }

  /** The invocations a breaker can still make between now and to. */
  function Budget(s: State, now: int, to: int): int
    requires now <= to
  {
    match s.mode
    case Closed => FAILURE_THRESHOLD - s.failureCount + (to - now) / TIMEOUT_MS
    case HalfOpen => 1 + (to - now) / TIMEOUT_MS
    case Open =>
      if s.lastFailureTime.None? || s.lastFailureTime.value > to then 0
      else (to - Max(s.lastFailureTime.value, now - TIMEOUT_MS)) / TIMEOUT_MS
  }

  lemma {:induction false} InvocationsWithinBudget(s: State, attempts: seq<Attempt>, now: int, to: int)
    requires Consistent(s) && now <= to && Sequential(attempts, now, to)
    ensures Invocations(s, attempts) <= Budget(s, now, to)
    decreases |attempts|
  {
    if attempts != [] {
      var a := attempts[0];
      var started := AfterStart(s, a.start);
      if started.mode == Open {
        InvocationsWithinBudget(started, attempts[1..], a.end, to);
      } else {
        InvocationsWithinBudget(AfterFailure(started, a.end), attempts[1..], a.end, to);
      }
    }
  }

  /** With one call at a time, a window of T ms in which every attempt fails reaches the service
      at most 5 + floor(T / 30000) times, whatever happened before the window. */
  lemma InvocationBound(history: seq<Event>, attempts: seq<Attempt>, from: int, window: nat)
    requires Sequential(attempts, from, from + window)
    ensures Invocations(Replay(history), attempts) <= FAILURE_THRESHOLD + window / TIMEOUT_MS
  {
    HistoryInvariant(history);
    InvocationsWithinBudget(Replay(history), attempts, from, from + window);
  }

  /** Attempts that finish at once: n of them, the first at time first, then one every gap ms. */
  function Spaced(first: int, gap: nat, n: nat): seq<Attempt>
    decreases n
  {
    if n == 0 then [] else [Attempt(first, first)] + Spaced(first + gap, gap, n - 1)
  }

  lemma {:induction false} ProbesAllReachService(s: State, first: int, n: nat)
    requires s.mode == Open && s.lastFailureTime.Some? && 0 < s.lastFailureTime.value
    requires first >= s.lastFailureTime.value + TIMEOUT_MS
    ensures Invocations(s, Spaced(first, TIMEOUT_MS, n)) == n
    ensures Sequential(Spaced(first, TIMEOUT_MS, n), first, first + n * TIMEOUT_MS)
    decreases n
  {
    if n > 0 {
      var rest := Spaced(first + TIMEOUT_MS, TIMEOUT_MS, n - 1);
      assert Spaced(first, TIMEOUT_MS, n)[1..] == rest;
      ProbesAllReachService(AfterFailure(AfterStart(s, first), first), first + TIMEOUT_MS, n - 1);
      SequentialEarlier(rest, first + TIMEOUT_MS, first, first + n * TIMEOUT_MS);
    }
  }

  lemma SequentialEarlier(attempts: seq<Attempt>, from: int, earlier: int, to: int)
    requires Sequential(attempts, from, to) && earlier <= from
    ensures Sequential(attempts, earlier, to)
  {
  }

  /** The bound is reached for every window length: five failures at time t trip the breaker, then each
      full 30 s admits one more probe. */
  lemma InvocationBoundIsReached(t: int, n: nat)
    requires t > 0
    ensures exists attempts :: Sequential(attempts, t, t + n * TIMEOUT_MS) &&
                               Invocations(INITIAL, attempts) == FAILURE_THRESHOLD + n
  {
    var probes := Spaced(t + TIMEOUT_MS, TIMEOUT_MS, n);
    var a := Attempt(t, t);
    var tail1 := [a] + probes;
    var tail2 := [a] + tail1;
    var tail3 := [a] + tail2;
    var tail4 := [a] + tail3;
    var all := [a] + tail4;
    var open := State(Open, 5, 0, Some(t));
    ProbesAllReachService(open, t + TIMEOUT_MS, n);
    if n > 0 {
      assert probes[1..] == Spaced(t + 2 * TIMEOUT_MS, TIMEOUT_MS, n - 1);
    }
    ProbesFit(t, n);
    assert tail1[1..] == probes && tail2[1..] == tail1 && tail3[1..] == tail2 && tail4[1..] == tail3 && all[1..] == tail4;
    assert Invocations(State(Closed, 4, 0, Some(t)), tail1) == 1 + n;
    assert Invocations(State(Closed, 3, 0, Some(t)), tail2) == 2 + n;
    assert Invocations(State(Closed, 2, 0, Some(t)), tail3) == 3 + n;
    assert Invocations(State(Closed, 1, 0, Some(t)), tail4) == 4 + n;
    assert Invocations(INITIAL, all) == 5 + n;
    var to := t + n * TIMEOUT_MS;
    assert Sequential(tail1, t, to) && Sequential(tail2, t, to) && Sequential(tail3, t, to) && Sequential(tail4, t, to);
    assert Sequential(all, t, to);
  }

  /** n probes, 30 s apart and starting 30 s after t, end by t + n * 30 s. */
  lemma {:induction false} ProbesFit(t: int, n: nat)
    ensures Sequential(Spaced(t + TIMEOUT_MS, TIMEOUT_MS, n), t, t + n * TIMEOUT_MS)
    decreases n
  {
    if n > 0 {
      var all := Spaced(t + TIMEOUT_MS, TIMEOUT_MS, n);
      assert all[1..] == Spaced(t + TIMEOUT_MS + TIMEOUT_MS, TIMEOUT_MS, n - 1);
      ProbesFit(t + TIMEOUT_MS, n - 1);
    }
  }

  // ----- The object that is updated in place

  class CircuitBreaker {
    var state: Mode
    var failureCount: nat
    var successCount: nat
    var lastFailureTime: Option<int>
    ghost var history: seq<Event>

    ghost function View(): State
      reads this
    {
      State(state, failureCount, successCount, lastFailureTime)
    }

    ghost predicate Valid()
      reads this
    {
      View() == Replay(history)
    }

    constructor ()
      ensures Valid() && history == []
    {
      state, failureCount, successCount, lastFailureTime := Closed, 0, 0, None;
      history := [];
    }

    /** The part of `execute` before the protected call: false means "fail fast". */
    method StartCall(now: int) returns (admitted: bool)
      requires Valid()
      modifies this
      ensures Valid() && history == old(history) + [Start(now)]
      ensures admitted <==> old(state) != Open || Admits(old(View()), now)
      ensures !admitted ==> View() == old(View())
    {
      if state == Open && lastFailureTime.Some? && lastFailureTime.value != 0 &&
         now - lastFailureTime.value >= TIMEOUT_MS {
        state := HalfOpen;
      }
      admitted := state != Open;
      history := history + [Start(now)];
      assert history[..|history| - 1] == old(history);
    }

    method OnSuccess()
      requires Valid()
      modifies this
      ensures Valid() && history == old(history) + [Succeed]
      ensures failureCount == 0 && lastFailureTime == old(lastFailureTime)
    {
      failureCount := 0;
      if state == HalfOpen {
        successCount := successCount + 1;
        if successCount >= SUCCESS_THRESHOLD {
          state := Closed;
          successCount := 0;
        }
      }
      history := history + [Succeed];
      assert history[..|history| - 1] == old(history);
    }

    method OnFailure(now: int)
      requires Valid()
      modifies this
      ensures Valid() && history == old(history) + [Fail(now)]
      ensures failureCount == old(failureCount) + 1 && lastFailureTime == Some(now)
    {
      failureCount := failureCount + 1;
      lastFailureTime := Some(now);
      if state == HalfOpen {
        state := Open;
        successCount := 0;
      } else if failureCount >= FAILURE_THRESHOLD {
        state := Open;
      }
      history := history + [Fail(now)];
      assert history[..|history| - 1] == old(history);
    }

    /** One call that nothing overlaps: the protected function succeeds or fails at time end. */
    method Execute(start: int, succeeds: bool, end: int) returns (invoked: bool)
      requires Valid()
      modifies this
      ensures Valid()
      ensures invoked <==> Admits(old(View()), start)
      ensures history == old(history) + [Start(start)] +
                         (if !invoked then [] else if succeeds then [Succeed] else [Fail(end)])
    {
      invoked := StartCall(start);
      if invoked {
        if succeeds {
          OnSuccess();
        } else {
          OnFailure(end);
        }
      }
    }
  }

  /** The per-service breakers of the retry service. */
  class BreakerRegistry {
    var breakers: map<string, CircuitBreaker>

    ghost predicate Valid()
      reads this, breakers.Values
    {
      && (forall name :: name in breakers ==> breakers[name].Valid())
      && (forall a, b :: a in breakers && b in breakers && a != b ==> breakers[a] != breakers[b])
    }

    constructor ()
      ensures Valid() && breakers == map[]
    {
      breakers := map[];
    }

    method GetCircuitBreaker(service: string) returns (b: CircuitBreaker)
      requires Valid()
      modifies this
      ensures Valid() && service in breakers && b == breakers[service]
      ensures service in old(breakers) ==> breakers == old(breakers)
      ensures service !in old(breakers) ==> fresh(b) && b.history == [] && breakers == old(breakers)[service := b]
    {
      if service !in breakers {
        var created := new CircuitBreaker();
        breakers := breakers[service := created];
      }
      b := breakers[service];
    }

    /** Calls for one service never move another service's breaker. */
    method ExecuteWithCircuitBreaker(service: string, start: int, succeeds: bool, end: int) returns (invoked: bool)
      requires Valid()
      modifies this, breakers.Values
      ensures Valid() && service in breakers
      ensures breakers.Keys == old(breakers.Keys) + {service}
      ensures forall name :: name in old(breakers) && name != service ==>
                breakers[name] == old(breakers)[name] && breakers[name].history == old(breakers[name].history)
      ensures breakers[service].history ==
              (if service in old(breakers) then old(breakers[service].history) else []) + [Start(start)] +
              (if !invoked then [] else if succeeds then [Succeed] else [Fail(end)])
    {
      var b := GetCircuitBreaker(service);
      assert forall name :: name in breakers && name != service ==> breakers[name] != b;
      invoked := b.Execute(start, succeeds, end);
    }
  }
}
