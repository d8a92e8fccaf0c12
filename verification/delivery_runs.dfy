/**
 Two properties of whole runs of the delivery protocol that its states alone do not show: when a notification is
 sent although it is already marked as sent, and how often its messages are attempted.
 */
module DeliveryRuns {
  import opened Common
  import opened Permutations
  import opened RetryRouting
  import opened DeliveryProtocol

  // ----- Sends with sentAt set

  /** The states of a run: number k is the one before event k. */
  function Trace(s: System, events: seq<Event>): seq<System> {
    seq(|events| + 1, k requires 0 <= k <= |events| => Run(s, events[..k]))
  }

  predicate Next(s: System, e: Event, s': System) {
    s' == Step(s, e)
  }

  ghost predicate IsTrace(states: seq<System>, events: seq<Event>) {
    && |states| == |events| + 1
    && forall k {:trigger Next(states[k], events[k], states[k + 1])} :: 0 <= k < |events| ==>
         Next(states[k], events[k], states[k + 1])
  }

  lemma TraceSteps(s: System, events: seq<Event>)
    ensures IsTrace(Trace(s, events), events) && Trace(s, events)[0] == s
  {
    var states := Trace(s, events);
    assert events[..0] == [];
    forall k | 0 <= k < |events| ensures Next(states[k], events[k], states[k + 1]) {
      assert events[..k + 1] == events[..k] + [events[k]];
      RunAppend(s, events[..k], events[k]);
    }
  }

  /** Before event n sentAt is set, and the event is a successful send. */
  predicate SendsWhenSet(states: seq<System>, events: seq<Event>, n: nat)
    requires n < |events| < |states|
  {
    SentAtSet(states[n]) && states[n].pc.Marked? && events[n] == ChannelSend(None)
  }

  /** Event w is a "sent" webhook that finds the row, and from then on until event n the same attempt stays between its
      check and its send. */
  ghost predicate WebhookBetween(states: seq<System>, events: seq<Event>, w: nat, n: nat)
    requires w < n <= |events| < |states|
  {
    && events[w].WebhookSent? && states[w].row.Some?
    && forall k :: w <= k <= n ==> SendPending(states[k])
  }

  /** How an attempt can be pending with sentAt set: it already was, or this event is the webhook. */
  lemma PendingAndSet(s: System, e: Event, s': System)
    requires Next(s, e, s') && SendPending(s') && SentAtSet(s')
    ensures SendPending(s) && (SentAtSet(s) || (e.WebhookSent? && s.row.Some?))
  {
  }

  /** An attempt is pending with sentAt set only because of such a webhook. */
  lemma {:induction false} WebhookFound(states: seq<System>, events: seq<Event>, n: nat) returns (w: nat)
    requires IsTrace(states, events) && 0 < n <= |events| && !SendPending(states[0])
    requires SendPending(states[n]) && SentAtSet(states[n])
    ensures w < n && WebhookBetween(states, events, w, n)
    decreases n
  {
    var k := n - 1;
    assert Next(states[k], events[k], states[k + 1]);
    PendingAndSet(states[k], events[k], states[k + 1]);
    w := k;
    if SentAtSet(states[k]) {
      w := WebhookFound(states, events, k);
    }
  }

  lemma StaysSet(s: System, e: Event, s': System)
    requires Next(s, e, s') && (GoneOrSet(s) || e.WebhookSent?)
    ensures GoneOrSet(s')
  {
  }

  lemma {:induction false} SetFromThenOn(states: seq<System>, events: seq<Event>, w: nat, n: nat)
    requires IsTrace(states, events) && w < n <= |events| && events[w].WebhookSent?
    ensures GoneOrSet(states[n])
    decreases n
  {
    var k := n - 1;
    if k > w {
      SetFromThenOn(states, events, w, k);
    }
    assert Next(states[k], events[k], states[k + 1]);
    StaysSet(states[k], events[k], states[k + 1]);
  }

  /** Over whole runs: event n is a send with sentAt set exactly when it is a successful send while the row exists, of
      an attempt that was already past its check, and not yet at its send, when a "sent" webhook arrived. */
  lemma SendsWhenSetIff(scheduled: bool, published: seq<Message>, events: seq<Event>, n: nat)
    requires n < |events|
    ensures var states := Trace(Created(scheduled, published), events);
            SendsWhenSet(states, events, n) <==>
            && events[n] == ChannelSend(None) && states[n].pc.Marked? && states[n].row.Some?
            && exists w :: 0 <= w < n && WebhookBetween(states, events, w, n)
  {
    var states := Trace(Created(scheduled, published), events);
    TraceSteps(Created(scheduled, published), events);
    if SendsWhenSet(states, events, n) {
      var w := WebhookFound(states, events, n);
    }
    if exists w :: 0 <= w < n && WebhookBetween(states, events, w, n) {
      var w :| 0 <= w < n && WebhookBetween(states, events, w, n);
      SetFromThenOn(states, events, w, n);
    }
  }

  // ----- How often messages are attempted

  /** The message whose attempt this event starts, if it does. */
  function TakenBy(s: System, e: Event): seq<Message> {
    if Step(s, e).counts.attempts == s.counts.attempts then []
    else match e
      case Deliver(m) => [m]
      case CheckFails(m, _) => [m]
      case _ => []
  }

  /** The messages of all attempts of a run. */
  function Taken(s: System, events: seq<Event>): seq<Message> {
    if events == [] then []
    else
      var init := events[..|events| - 1];
      Taken(s, init) + TakenBy(Run(s, init), events[|events| - 1])
  }

  function RetryMessages(rs: seq<RetryRecord>): seq<Message> {
    seq(|rs|, i requires 0 <= i < |rs| => rs[i].message)
  }

  /** What can be handed to the worker: every published message and every record of the retry topic, once each. */
  function Available(s: System): seq<Message> {
    s.published + RetryMessages(s.topics.retry)
  }

  function CountWith(ms: seq<Message>, c: nat): nat {
    if ms == [] then 0 else CountWith(ms[..|ms| - 1], c) + (if Count(ms[|ms| - 1]) == c then 1 else 0)
  }

  lemma CountAppend(ms: seq<Message>, m: Message, c: nat)
    ensures CountWith(ms + [m], c) == CountWith(ms, c) + (if Count(m) == c then 1 else 0)
  {
    assert (ms + [m])[..|ms|] == ms;
  }

  lemma {:induction false} CountConcat(a: seq<Message>, b: seq<Message>, c: nat)
    ensures CountWith(a + b, c) == CountWith(a, c) + CountWith(b, c)
    decreases |b|
  {
    if b == [] {
      assert a + b == a;
    } else {
      assert (a + b)[..|a + b| - 1] == a + b[..|b| - 1];
      CountConcat(a, b[..|b| - 1], c);
    }
  }

  lemma {:induction false} CountWithout(ms: seq<Message>, i: nat, c: nat)
    requires i < |ms|
    ensures CountWith(ms, c) == CountWith(Without(ms, i), c) + (if Count(ms[i]) == c then 1 else 0)
    decreases |ms|
  {
    WithoutLast(ms, i);
    if i < |ms| - 1 {
      CountWithout(ms[..|ms| - 1], i, c);
    }
  }

  lemma {:induction false} CountIncluded(a: seq<Message>, b: seq<Message>, c: nat)
    requires multiset(a) <= multiset(b)
    ensures CountWith(a, c) <= CountWith(b, c)
    decreases |a|
  {
    if a != [] {
      var i := LastFound(a, b);
      CountWithout(b, i, c);
      CountIncluded(a[..|a| - 1], Without(b, i), c);
    }
  }

  lemma {:induction false} CountNone(ms: seq<Message>, c: nat)
    requires forall i :: 0 <= i < |ms| ==> Count(ms[i]) != c
    ensures CountWith(ms, c) == 0
    decreases |ms|
  {
    if ms != [] {
      CountNone(ms[..|ms| - 1], c);
    }
  }

  lemma {:induction false} CountAtMost(ms: seq<Message>, c: nat)
    ensures CountWith(ms, c) <= |ms|
    decreases |ms|
  {
    if ms != [] {
      CountAtMost(ms[..|ms| - 1], c);
    }
  }

  /** How many have a count below bound. */
  function CountBelow(ms: seq<Message>, bound: nat): nat {
    if bound == 0 then 0 else CountBelow(ms, bound - 1) + CountWith(ms, bound - 1)
  }

  lemma {:induction false} BelowAppend(ms: seq<Message>, m: Message, bound: nat)
    ensures CountBelow(ms + [m], bound) == CountBelow(ms, bound) + (if Count(m) < bound then 1 else 0)
    decreases bound
  {
    if bound > 0 {
      BelowAppend(ms, m, bound - 1);
      CountAppend(ms, m, bound - 1);
    }
  }

  lemma {:induction false} BelowNone(bound: nat)
    ensures CountBelow([], bound) == 0
    decreases bound
  {
    if bound > 0 {
      BelowNone(bound - 1);
    }
  }

  lemma {:induction false} AllBelow(ms: seq<Message>, bound: nat)
    requires forall i :: 0 <= i < |ms| ==> Count(ms[i]) < bound
    ensures CountBelow(ms, bound) == |ms|
    decreases |ms|
  {
    if ms == [] {
      BelowNone(bound);
    } else {
      var init := ms[..|ms| - 1];
      AllBelow(init, bound);
      BelowAppend(init, ms[|ms| - 1], bound);
      assert ms == init + [ms[|ms| - 1]];
    }
  }

  /** Is an attempt of a message with this count under way? */
  function UnderWay(s: System, c: nat): nat {
    if s.pc.Idle? || s.pc.Routed? || Count(s.pc.m) != c then 0 else 1
  }

  /** Whatever is queued with count c + 1 comes from an attempt of a message with count c, each from its own. */
  ghost predicate QueuedFromAttempts(s: System, taken: seq<Message>) {
    && s.counts.attempts == |taken|
    && forall c: nat :: CountWith(RetryMessages(s.topics.retry), c + 1) + UnderWay(s, c) <= CountWith(taken, c)
  }

  lemma QueuedAppend(rs: seq<RetryRecord>, r: RetryRecord, c: nat)
    ensures CountWith(RetryMessages(rs + [r]), c) ==
            CountWith(RetryMessages(rs), c) + (if Count(r.message) == c then 1 else 0)
  {
    assert RetryMessages(rs + [r]) == RetryMessages(rs) + [r.message];
    CountAppend(RetryMessages(rs), r.message, c);
  }

  /** The start of an attempt. */
  lemma TakesOne(s: System, e: Event)
    ensures TakenBy(s, e) == [] ==>
              Step(s, e).counts.attempts == s.counts.attempts &&
              (e.RouteFailure? || (forall c: nat :: UnderWay(Step(s, e), c) <= UnderWay(s, c)))
    ensures TakenBy(s, e) != [] ==>
              !e.RouteFailure? && |TakenBy(s, e)| == 1 && Step(s, e).counts.attempts == s.counts.attempts + 1 &&
              s.pc.Idle? && !Step(s, e).pc.Idle? && !Step(s, e).pc.Routed? && Step(s, e).pc.m == TakenBy(s, e)[0]
  {
  }

  lemma RouteQueuesFromAttempt(s: System, sends: Sends, c: nat)
    ensures var s' := Step(s, RouteFailure(sends));
            CountWith(RetryMessages(s'.topics.retry), c + 1) + UnderWay(s', c) <=
            CountWith(RetryMessages(s.topics.retry), c + 1) + UnderWay(s, c)
  {
    if s.pc.Catching? {
      QueuedAppend(s.topics.retry, Queued(s.pc.m, s.pc.error), c + 1);
    }
  }

  lemma StepQueues(s: System, e: Event, taken: seq<Message>)
    requires QueuedFromAttempts(s, taken)
    ensures QueuedFromAttempts(Step(s, e), taken + TakenBy(s, e))
  {
    var s', more := Step(s, e), TakenBy(s, e);
    TakesOne(s, e);
    forall c: nat
      ensures CountWith(RetryMessages(s'.topics.retry), c + 1) + UnderWay(s', c) <= CountWith(taken + more, c)
    {
      assert CountWith(RetryMessages(s.topics.retry), c + 1) + UnderWay(s, c) <= CountWith(taken, c);
      if e.RouteFailure? {
        RouteQueuesFromAttempt(s, e.sends, c);
        assert taken + more == taken;
      } else {
        OtherStepKeepsTopics(s, e);
        if more == [] {
          assert taken + more == taken;
        } else {
          assert more == [more[0]];
          CountAppend(taken, more[0], c);
        }
      }
    }
  }

  lemma {:induction false} RunQueues(scheduled: bool, published: seq<Message>, events: seq<Event>)
    ensures var s := Created(scheduled, published);
            QueuedFromAttempts(Run(s, events), Taken(s, events)) && Run(s, events).published == published
    decreases |events|
  {
    var s := Created(scheduled, published);
    if events == [] {
      forall c: nat ensures CountWith(RetryMessages(s.topics.retry), c + 1) + UnderWay(s, c) <= CountWith([], c) {
        assert RetryMessages([]) == [];
      }
    } else {
      var init, last := events[..|events| - 1], events[|events| - 1];
      RunQueues(scheduled, published, init);
      StepQueues(Run(s, init), last, Taken(s, init));
      KeepsPublished(Run(s, init), last);
    }
  }

  lemma KeepsPublished(s: System, e: Event)
    ensures Step(s, e).published == s.published
  {
  }

  /** What is available has counts 0 (published) or 1 to 4 (queued). */
  lemma AvailableCounts(s: System)
    requires AttemptInvariant(s) && forall i :: 0 <= i < |s.published| ==> Count(s.published[i]) == 0
    ensures forall m :: m in Available(s) ==> Count(m) < MAX_RETRIES
    ensures CountWith(RetryMessages(s.topics.retry), 0) == 0
    ensures forall c: nat :: c > 0 ==> CountWith(s.published, c) == 0
  {
    var rs := s.topics.retry;
    forall i | 0 <= i < |rs| ensures 1 <= Count(RetryMessages(rs)[i]) < MAX_RETRIES {
      assert WellQueued(rs[i]);
    }
    CountNone(RetryMessages(rs), 0);
    forall c: nat | c > 0 ensures CountWith(s.published, c) == 0 {
      CountNone(s.published, c);
    }
  }

  /** Of each count, no more attempts than messages were published. */
  lemma {:induction false} AttemptsPerCount(s: System, taken: seq<Message>, c: nat)
    requires AttemptInvariant(s) && QueuedFromAttempts(s, taken) && multiset(taken) <= multiset(Available(s))
    requires forall i :: 0 <= i < |s.published| ==> Count(s.published[i]) == 0
    ensures CountWith(taken, c) <= |s.published|
    decreases c
  {
    AvailableCounts(s);
    CountIncluded(taken, Available(s), c);
    CountConcat(s.published, RetryMessages(s.topics.retry), c);
    if c == 0 {
      CountAtMost(s.published, 0);
    } else {
      AttemptsPerCount(s, taken, c - 1);
      assert CountWith(RetryMessages(s.topics.retry), c - 1 + 1) + UnderWay(s, c - 1) <= CountWith(taken, c - 1);
    }
  }

  lemma {:induction false} AttemptsBelow(s: System, taken: seq<Message>, bound: nat)
    requires AttemptInvariant(s) && QueuedFromAttempts(s, taken) && multiset(taken) <= multiset(Available(s))
    requires forall i :: 0 <= i < |s.published| ==> Count(s.published[i]) == 0
    ensures CountBelow(taken, bound) <= bound * |s.published|
    decreases bound
  {
    if bound > 0 {
      AttemptsBelow(s, taken, bound - 1);
      AttemptsPerCount(s, taken, bound - 1);
      assert bound * |s.published| == (bound - 1) * |s.published| + |s.published|;
    }
  }

  /** In every run in which each published message and each retry record is handed over at most once, however sends,
      writes, crashes and the other writers go, there are at most 5 attempts for each published message; of every retry
      count there are at most as many as messages were published. */
  lemma AttemptsBounded(scheduled: bool, published: seq<Message>, events: seq<Event>)
    requires forall i :: 0 <= i < |published| ==> Count(published[i]) == 0
    requires var s := Created(scheduled, published);
             multiset(Taken(s, events)) <= multiset(Available(Run(s, events)))
    ensures var s := Created(scheduled, published);
            && Run(s, events).counts.attempts <= MAX_RETRIES * |published|
            && forall c :: CountWith(Taken(s, events), c) <= |published|
  {
    var s, taken := Run(Created(scheduled, published), events), Taken(Created(scheduled, published), events);
    RunQueues(scheduled, published, events);
    AttemptsAccounted(Created(scheduled, published), events);
    AvailableCounts(s);
    forall i | 0 <= i < |taken| ensures Count(taken[i]) < MAX_RETRIES {
      assert taken[i] in multiset(taken);
      assert taken[i] in multiset(Available(s));
    }
    AllBelow(taken, MAX_RETRIES);
    AttemptsBelow(s, taken, MAX_RETRIES);
    forall c: nat ensures CountWith(taken, c) <= |published| {
      AttemptsPerCount(s, taken, c);
    }
  }
}
