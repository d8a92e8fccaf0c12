/**
 Routing of failed messages: `RetryService.sendToRetryQueue` and `sendToDLQ` of
 src/notification/retry.service.ts.  Whether a Kafka send succeeds is a parameter.
 */
module RetryRouting {
  import opened Common

  const MAX_RETRIES := 5
  const BACKOFF_BASE := 1000

  datatype Message = Message(id: string, userId: string, kind: string, channel: string,
                             hasPayload: bool, retryCount: Option<nat>)

  datatype Reason = MaxRetriesExceeded | RetryQueueFailure

  datatype RetryRecord = RetryRecord(key: string, message: Message, retryCountHeader: nat, backoffDelay: nat, error: string)

  datatype DlqRecord = DlqRecord(key: string, message: Message, error: string, reason: Reason, retryCount: nat)

  /** The two topics, and the messages whose last-resort DLQ send failed. */
  datatype Topics = Topics(retry: seq<RetryRecord>, dlq: seq<DlqRecord>, lost: seq<Message>)

  /** Does the send to the retry topic, and the send to the DLQ, succeed when it is tried? */
  datatype Sends = Sends(retryOk: bool, dlqOk: bool)

  function Count(m: Message): nat {
    if m.retryCount.Some? then m.retryCount.value else 0
  }

  function Pow2(n: nat): nat {
    if n == 0 then 1 else 2 * Pow2(n - 1)
  }

  function BackoffDelay(retryCount: nat): nat {
    BACKOFF_BASE * Pow2(retryCount)
  }

  predicate ShouldRetry(retryCount: nat) {
    retryCount < MAX_RETRIES
  }

  function ToDlq(t: Topics, m: Message, error: string, reason: Reason, dlqOk: bool): Topics {
    if dlqOk then t.(dlq := t.dlq + [DlqRecord(m.userId, m, error, reason, Count(m))])
    else t.(lost := t.lost + [m])
  }

  function Queued(m: Message, error: string): RetryRecord {
    RetryRecord(m.userId, m.(retryCount := Some(Count(m) + 1)), Count(m) + 1, BackoffDelay(Count(m)), error)
  }

  function Route(t: Topics, m: Message, error: string, sends: Sends): Topics {
    if !ShouldRetry(Count(m) + 1) then ToDlq(t, m, error, MaxRetriesExceeded, sends.dlqOk)
    else if sends.retryOk then t.(retry := t.retry + [Queued(m, error)])
    else ToDlq(t, m, error, RetryQueueFailure, sends.dlqOk)
  }

  /** The service with its producer: the topics are appended to in place. */
  class RetryService {
    var retryTopic: seq<RetryRecord>
    var dlqTopic: seq<DlqRecord>
    var lost: seq<Message>

    ghost function View(): Topics
      reads this
    {
      Topics(retryTopic, dlqTopic, lost)
    }

    constructor ()
      ensures View() == Topics([], [], [])
    {
      retryTopic, dlqTopic, lost := [], [], [];
    }

    method SendToDLQ(m: Message, error: string, reason: Reason, dlqOk: bool)
      modifies this
      ensures View() == ToDlq(old(View()), m, error, reason, dlqOk)
    {
      if dlqOk {
        dlqTopic := dlqTopic + [DlqRecord(m.userId, m, error, reason, Count(m))];
      } else {
        lost := lost + [m];
      }
    }

    method SendToRetryQueue(m: Message, error: string, sends: Sends)
      modifies this
      ensures View() == Route(old(View()), m, error, sends)
    {
      var newRetryCount := Count(m) + 1;
      var backoffDelay := BackoffDelay(Count(m));
      if !ShouldRetry(newRetryCount) {
        SendToDLQ(m, error, MaxRetriesExceeded, sends.dlqOk);
        return;
      }
      if sends.retryOk {
        var retryMessage := m.(retryCount := Some(newRetryCount));
        retryTopic := retryTopic + [RetryRecord(m.userId, retryMessage, newRetryCount, backoffDelay, error)];
      } else {
        SendToDLQ(m, error, RetryQueueFailure, sends.dlqOk);
      }
    }
  }

  // ----- One routing

  /** Exactly one of the three destinations grows, by exactly this message; it is lost exactly when the DLQ
      was needed and its send failed. */
  lemma RoutedExactlyOnce(t: Topics, m: Message, error: string, sends: Sends)
    ensures var t' := Route(t, m, error, sends);
            && t.retry <= t'.retry && t.dlq <= t'.dlq && t.lost <= t'.lost
            && |t'.retry| + |t'.dlq| + |t'.lost| == |t.retry| + |t.dlq| + |t.lost| + 1
            && (|t'.retry| > |t.retry| <==> sends.retryOk && Count(m) < MAX_RETRIES - 1)
            && (|t'.lost| > |t.lost| <==> !sends.dlqOk && (Count(m) >= MAX_RETRIES - 1 || !sends.retryOk))
            && (|t'.dlq| > |t.dlq| ==> t'.dlq[|t.dlq|].message == m && t'.dlq[|t.dlq|].key == m.userId)
            && (|t'.dlq| > |t.dlq| ==> (t'.dlq[|t.dlq|].reason == RetryQueueFailure <==> Count(m) < MAX_RETRIES - 1))
            && (|t'.lost| > |t.lost| ==> t'.lost[|t.lost|] == m)
            && (|t'.retry| > |t.retry| ==> t'.retry[|t.retry|].message.(retryCount := m.retryCount) == m)
  {
  }

  lemma {:induction false} Pow2Monotone(a: nat, b: nat)
    requires a <= b
    ensures Pow2(a) <= Pow2(b)
    decreases b
  {
    if a < b {
      Pow2Monotone(a, b - 1);
    }
  }

  /** A record in the retry topic as the service writes it. */
  ghost predicate WellQueued(r: RetryRecord) {
    && r.message.retryCount == Some(r.retryCountHeader)
    && 1 <= r.retryCountHeader < MAX_RETRIES
    && r.backoffDelay == BackoffDelay(r.retryCountHeader - 1)
    && r.key == r.message.userId
  }

  /** Whatever one routing queues is well queued and waits at most 8 s: the 16 s of the doc comment is never queued. */
  lemma QueuedWaitsAtMostEightSeconds(t: Topics, m: Message, error: string, sends: Sends)
    ensures forall r :: r in Route(t, m, error, sends).retry && r !in t.retry ==>
              WellQueued(r) && r.retryCountHeader == Count(m) + 1 && BACKOFF_BASE <= r.backoffDelay <= 8 * BACKOFF_BASE
  {
    var t' := Route(t, m, error, sends);
    forall r | r in t'.retry && r !in t.retry
      ensures WellQueued(r) && r.retryCountHeader == Count(m) + 1 && BACKOFF_BASE <= r.backoffDelay <= 8 * BACKOFF_BASE
    {
      assert r == Queued(m, error);
      Pow2Monotone(Count(m), 3);
      Pow2Monotone(0, Count(m));
      assert Pow2(3) == 8 by { assert Pow2(2) == 4; }
    }
  }

  // ----- A chain: a message whose every attempt fails

  /** Every attempt fails and is routed; a queued message is attempted again.  sends has one entry per
      attempt the environment makes.  Returns the final topics and the number of attempts. */
  function Chain(t: Topics, m: Message, error: string, sends: seq<Sends>): (Topics, nat)
    decreases |sends|
  {
    if sends == [] then (t, 0)
    else
      var t1 := Route(t, m, error, sends[0]);
      if |t1.retry| == |t.retry| then (t1, 1)
      else
        var rest := Chain(t1, t1.retry[|t1.retry| - 1].message, error, sends[1..]);
        (rest.0, rest.1 + 1)
  }

  /** The first n records that a message with retry count c queues: counts c+1 .. c+n, in order. */
  function QueuedRun(m: Message, error: string, n: nat): seq<RetryRecord>
    decreases n
  {
    if n == 0 then []
    else [Queued(m, error)] + QueuedRun(Queued(m, error).message, error, n - 1)
  }

  function TotalBackoff(rs: seq<RetryRecord>): nat {
    if rs == [] then 0 else rs[0].backoffDelay + TotalBackoff(rs[1..])
  }

  lemma {:induction false} QueuedRunInOrder(m: Message, error: string, n: nat)
    ensures var run := QueuedRun(m, error, n);
            && |run| == n
            && forall i :: 0 <= i < n ==>
                 run[i] == RetryRecord(m.userId, m.(retryCount := Some(Count(m) + 1 + i)), Count(m) + 1 + i,
                                       BackoffDelay(Count(m) + i), error)
    decreases n
  {
    if n > 0 {
      QueuedRunInOrder(Queued(m, error).message, error, n - 1);
    }
  }

  /** Doubling delays: base * (p + 2p + 4p + ...) telescopes. */
  lemma {:induction false} QueuedRunBackoff(m: Message, error: string, n: nat)
    ensures TotalBackoff(QueuedRun(m, error, n)) == BACKOFF_BASE * (Pow2(Count(m) + n) - Pow2(Count(m)))
    decreases n
  {
    if n > 0 {
      var q := Queued(m, error);
      assert QueuedRun(m, error, n)[1..] == QueuedRun(q.message, error, n - 1);
      QueuedRunBackoff(q.message, error, n - 1);
    }
  }

  /** For every outcome of every Kafka send: at most 5 attempts from count 0 (fewer from a higher count, always
      one), what is queued is the run of consecutive counts, and at most one message reaches the DLQ or is lost.
      A chain that the environment does not cut short ends in exactly one of those two. */
  lemma {:induction false} ChainShape(t: Topics, m: Message, error: string, sends: seq<Sends>)
    requires sends != []
    ensures var (t', attempts) := Chain(t, m, error, sends);
            var ended := |t'.dlq| + |t'.lost| - |t.dlq| - |t.lost|;
            && 1 <= attempts <= Max(1, MAX_RETRIES - Count(m))
            && attempts <= |sends|
            && 0 <= ended <= 1
            && t'.retry == t.retry + QueuedRun(m, error, attempts - ended)
            && (attempts < |sends| ==> ended == 1)
            && (attempts == Max(1, MAX_RETRIES - Count(m)) ==> ended == 1)
    decreases |sends|
  {
    var t1 := Route(t, m, error, sends[0]);
    var q := Queued(m, error);
    if |t1.retry| == |t.retry| {
      assert t.retry + QueuedRun(m, error, 0) == t.retry;
    } else {
      assert t1 == t.(retry := t.retry + [q]);
      var more := Chain(t1, q.message, error, sends[1..]);
      assert Chain(t, m, error, sends) == (more.0, more.1 + 1);
      if |sends| == 1 {
        QueuedRunStep(t.retry, m, error, 0);
      } else {
        ChainShape(t1, q.message, error, sends[1..]);
        QueuedRunStep(t.retry, m, error, more.1 - (|more.0.dlq| + |more.0.lost| - |t.dlq| - |t.lost|));
      }
    }
  }

  lemma QueuedRunStep(before: seq<RetryRecord>, m: Message, error: string, n: nat)
    ensures var q := Queued(m, error);
            before + [q] + QueuedRun(q.message, error, n) == before + QueuedRun(m, error, n + 1)
  {
  }

  /** When Kafka accepts every send, a new message is attempted 5 times, queued with counts 1 to 4 and waits of
      1000 * (2^4 - 1) ms in all, and then reaches the DLQ once, with count 4. */
  lemma FullChain(t: Topics, m: Message, error: string, sends: seq<Sends>)
    requires Count(m) == 0 && |sends| >= MAX_RETRIES
    requires forall i :: 0 <= i < |sends| ==> sends[i] == Sends(true, true)
    ensures var (t', attempts) := Chain(t, m, error, sends);
            && attempts == MAX_RETRIES
            && t'.retry == t.retry + QueuedRun(m, error, 4)
            && TotalBackoff(QueuedRun(m, error, 4)) == 1000 * (Pow2(4) - 1) == 15000
            && t'.dlq == t.dlq + [DlqRecord(m.userId, m.(retryCount := Some(4)), error, MaxRetriesExceeded, 4)]
            && t'.lost == t.lost
  {
    assert TotalBackoff(QueuedRun(m, error, 4)) == 1000 * (Pow2(4) - 1) == 15000 by {
      QueuedRunBackoff(m, error, 4);
      assert Pow2(4) == 16 by { assert Pow2(2) == 4; }
    }
    ChainShape(t, m, error, sends);
    LastOfFullChain(t, m, error, sends);
  }

  /** The end of a chain in which Kafka accepts every send. */
  lemma {:induction false} LastOfFullChain(t: Topics, m: Message, error: string, sends: seq<Sends>)
    requires Count(m) < MAX_RETRIES && |sends| >= MAX_RETRIES - Count(m)
    requires forall i :: 0 <= i < |sends| ==> sends[i] == Sends(true, true)
    ensures Chain(t, m, error, sends).1 == MAX_RETRIES - Count(m)
    ensures Chain(t, m, error, sends).0.lost == t.lost
    ensures Count(m) < MAX_RETRIES - 1 ==>
              Chain(t, m, error, sends).0.dlq ==
              t.dlq + [DlqRecord(m.userId, m.(retryCount := Some(4)), error, MaxRetriesExceeded, 4)]
    ensures Count(m) == MAX_RETRIES - 1 ==>
              Chain(t, m, error, sends).0.dlq == t.dlq + [DlqRecord(m.userId, m, error, MaxRetriesExceeded, 4)]
    decreases MAX_RETRIES - Count(m)
  {
    if Count(m) < MAX_RETRIES - 1 {
      var q := Queued(m, error);
      var t1 := Route(t, m, error, sends[0]);
      assert t1.retry[|t1.retry| - 1].message == q.message;
      LastOfFullChain(t1, q.message, error, sends[1..]);
      assert q.message.(retryCount := Some(4)) == m.(retryCount := Some(4));
    }
  }
}
