/**
 The delivery protocol of one notification: the worker of
 src/notification/notification-worker.service.ts, its retry routing, and the other writers of the row
 (src/admin/admin.controller.ts, src/integrations/webhooks.controller.ts, the clean-up jobs).

 Every database write, Kafka send and channel send is a step of its own, so crashes, redeliveries and the
 other writers can come between any two of them.  One worker at a time handles a notification, because
 messages are keyed by user.
 */
module DeliveryProtocol {
  import opened Common
  import opened RetryRouting

  datatype Status = PENDING | SCHEDULED | PROCESSING | SENT | FAILED | DELIVERED

  datatype Row = Row(status: Status, sentAt: Option<int>, deliveredAt: Option<int>, failedAt: Option<int>,
                     retryCount: nat, errorMessage: Option<string>)

  /** Where the handler is.  Catching and Routed are the two halves of its catch block. */
  datatype Pc =
    | Idle
    | Checked(m: Message)
    | Marked(m: Message)
    | Delivered(m: Message)
    | Catching(m: Message, error: string)
    | Routed(m: Message, error: string)

  /** What happened so far: handler attempts not skipped by the idempotency check, successful channel sends, SENT updates
      that went through, sends whose SENT update failed or never came, failures routed, crashes before routing. */
  datatype Counts = Counts(attempts: nat, sends: nat, recorded: nat, unrecorded: nat, routed: nat, crashed: nat)

  /** published are the messages that creation put into either topic, with retry count 0; the retry topic here is what
      the worker itself wrote. */
  datatype System = System(row: Option<Row>, pc: Pc, topics: Topics, published: seq<Message>,
                           adminChecked: bool, counts: Counts)

  /** A database update goes through, is refused, or is applied although the caller sees an error. */
  datatype Write = Done | Refused(error: string) | ReplyLost(error: string)

  datatype Event =
    | Deliver(m: Message)
    | CheckFails(m: Message, error: string)
    | MarkProcessing(w: Write)
    | ChannelSend(failure: Option<string>)
    | RecordSent(w: Write, now: int)
    | RouteFailure(sends: Sends)
    | RecordFailed(w: Write, now: int)
    | Crash
    | AdminCheck
    | AdminReset
    | WebhookDelivered(now: int)
    | WebhookSent(now: int)
    | WebhookFailed(now: int, reason: string)
    | CleanUp

  const NO_ROW := "Record to update not found."

  predicate ValidMessage(m: Message) {
    m.id != "" && m.userId != "" && m.kind != "" && m.channel != "" && m.hasPayload
  }

  /** Messages the worker may be handed: anything published, and (the environment's doing) anything in the retry topic. */
  predicate Deliverable(s: System, m: Message) {
    m in s.published || exists i :: 0 <= i < |s.topics.retry| && s.topics.retry[i].message == m
  }

  predicate AlreadyProcessed(row: Option<Row>) {
    row.Some? && (row.value.status == SENT || row.value.sentAt.Some?)
  }

  function AsProcessing(r: Row): Row { r.(status := PROCESSING) }

  function AsSent(r: Row, now: int): Row { r.(status := SENT, sentAt := Some(now)) }

  function AsFailed(r: Row, now: int, error: string): Row {
    r.(status := FAILED, failedAt := Some(now), errorMessage := Some(error), retryCount := r.retryCount + 1)
  }

  /** The row after an attempt to replace it by updated; a missing row makes the update throw. */
  function Written(row: Option<Row>, updated: Row, w: Write): Option<Row> {
    if row.None? || w.Refused? then row else Some(updated)
  }

  function WriteError(row: Option<Row>, w: Write): Option<string> {
    if !w.Done? then Some(w.error) else if row.None? then Some(NO_ROW) else None
  }

  // ----- One step; an event that is not enabled changes nothing

  function Step(s: System, e: Event): System {
    match e
    case Deliver(m) =>
      if s.pc.Idle? && ValidMessage(m) && Deliverable(s, m) && !AlreadyProcessed(s.row)
      then s.(pc := Checked(m), counts := s.counts.(attempts := s.counts.attempts + 1))
      else s
    case CheckFails(m, error) =>
      if s.pc.Idle? && ValidMessage(m) && Deliverable(s, m)
      then s.(pc := Catching(m, error), counts := s.counts.(attempts := s.counts.attempts + 1))
      else s
    case MarkProcessing(w) =>
      if !s.pc.Checked? then s else
      var row' := if s.row.None? then None else Written(s.row, AsProcessing(s.row.value), w);
      var error := WriteError(s.row, w);
      s.(row := row', pc := if error.None? then Marked(s.pc.m) else Catching(s.pc.m, error.value))
    case ChannelSend(failure) =>
      if !s.pc.Marked? then s
      else if failure.Some? then s.(pc := Catching(s.pc.m, failure.value))
      else s.(pc := Delivered(s.pc.m), counts := s.counts.(sends := s.counts.sends + 1))
    case RecordSent(w, now) =>
      if !s.pc.Delivered? then s else
      var row' := if s.row.None? then None else Written(s.row, AsSent(s.row.value, now), w);
      var error := WriteError(s.row, w);
      if error.None?
      then s.(row := row', pc := Idle, counts := s.counts.(recorded := s.counts.recorded + 1))
      else s.(row := row', pc := Catching(s.pc.m, error.value),
              counts := s.counts.(unrecorded := s.counts.unrecorded + 1))
    case RouteFailure(sends) =>
      if !s.pc.Catching? then s
      else s.(topics := Route(s.topics, s.pc.m, s.pc.error, sends), pc := Routed(s.pc.m, s.pc.error),
              counts := s.counts.(routed := s.counts.routed + 1))
    case RecordFailed(w, now) =>
      if !s.pc.Routed? then s else
      var row' := if s.row.None? then None else Written(s.row, AsFailed(s.row.value, now, s.pc.error), w);
      s.(row := row', pc := Idle)
    case Crash =>
      s.(pc := Idle,
         counts := s.counts.(unrecorded := s.counts.unrecorded + (if s.pc.Delivered? then 1 else 0),
                             crashed := s.counts.crashed + (if s.pc.Idle? || s.pc.Routed? then 0 else 1)))
    case AdminCheck => s.(adminChecked := s.row.Some? && s.row.value.status == FAILED)
    case AdminReset =>
      if !s.adminChecked then s
      else if s.row.None? then s.(adminChecked := false)
      else s.(adminChecked := false,
              row := Some(s.row.value.(status := PENDING, retryCount := 0, errorMessage := None, failedAt := None)))
    case WebhookDelivered(now) =>
      if s.row.None? then s else s.(row := Some(s.row.value.(status := SENT, deliveredAt := Some(now))))
    case WebhookSent(now) =>
      if s.row.None? then s else s.(row := Some(s.row.value.(status := SENT, sentAt := Some(now))))
    case WebhookFailed(now, reason) =>
      if s.row.None? then s
      else s.(row := Some(s.row.value.(status := FAILED, failedAt := Some(now), errorMessage := Some(reason))))
    case CleanUp =>
      if s.row.Some? && s.row.value.status in {SENT, FAILED, DELIVERED} then s.(row := None) else s
  }

  function Run(s: System, events: seq<Event>): System {
    if events == [] then s
    else Step(Run(s, events[..|events| - 1]), events[|events| - 1])
  }

  /** What the worker's own writes put into the row: column by column, from the values before. */
  lemma WorkerWrites(s: System, w: Write, now: int, r: Row)
    requires s.row == Some(r)
    ensures s.pc.Checked? ==>
              Step(s, MarkProcessing(w)).row ==
              Some(if w.Refused? then r
                   else Row(PROCESSING, r.sentAt, r.deliveredAt, r.failedAt, r.retryCount, r.errorMessage))
    ensures s.pc.Delivered? ==>
              Step(s, RecordSent(w, now)).row ==
              Some(if w.Refused? then r else Row(SENT, Some(now), r.deliveredAt, r.failedAt, r.retryCount, r.errorMessage))
    ensures s.pc.Routed? ==>
              Step(s, RecordFailed(w, now)).row ==
              Some(if w.Refused? then r
                   else Row(FAILED, r.sentAt, r.deliveredAt, Some(now), r.retryCount + 1, Some(s.pc.error)))
  {
  }

  /** What the other writers put into it. */
  lemma OtherWrites(s: System, now: int, reason: string, r: Row)
    requires s.row == Some(r)
    ensures Step(s, WebhookDelivered(now)).row ==
            Some(Row(SENT, r.sentAt, Some(now), r.failedAt, r.retryCount, r.errorMessage))
    ensures Step(s, WebhookSent(now)).row ==
            Some(Row(SENT, Some(now), r.deliveredAt, r.failedAt, r.retryCount, r.errorMessage))
    ensures Step(s, WebhookFailed(now, reason)).row ==
            Some(Row(FAILED, r.sentAt, r.deliveredAt, Some(now), r.retryCount, Some(reason)))
    ensures Step(Step(s, AdminCheck), AdminReset).row ==
            Some(if r.status == FAILED then Row(PENDING, r.sentAt, r.deliveredAt, None, 0, None) else r)
    ensures Step(s, CleanUp).row == if r.status in {SENT, FAILED, DELIVERED} then None else Some(r)
  {
  }

  /** A message is taken for an attempt exactly when it is complete, and no look at the row says SENT or a time of
      sending. */
  lemma TakenIff(s: System, m: Message)
    requires s.pc.Idle? && Deliverable(s, m)
    ensures Step(s, Deliver(m)).counts.attempts == s.counts.attempts + 1 <==>
            && m.id != "" && m.userId != "" && m.kind != "" && m.channel != "" && m.hasPayload
            && (s.row.Some? ==> s.row.value.status != SENT && s.row.value.sentAt == None)
    ensures Step(s, Deliver(m)).counts.attempts == s.counts.attempts ==> Step(s, Deliver(m)) == s
  {
  }

  /** A notification just created: its row is PENDING or SCHEDULED and some messages for it are published. */
  function Created(scheduled: bool, published: seq<Message>): System {
    System(Some(Row(if scheduled then SCHEDULED else PENDING, None, None, None, 0, None)), Idle,
           Topics([], [], []), published, false, Counts(0, 0, 0, 0, 0, 0))
  }

  lemma RunAppend(s: System, events: seq<Event>, e: Event)
    ensures Run(s, events + [e]) == Step(Run(s, events), e)
  {
    var all := events + [e];
    assert all[..|all| - 1] == events;
  }

  lemma {:induction false} RunConcat(s: System, a: seq<Event>, b: seq<Event>)
    ensures Run(s, a + b) == Run(Run(s, a), b)
    decreases |b|
  {
    if b == [] {
      assert a + b == a;
    } else {
      var n := |b| - 1;
      assert a + b == (a + b[..n]) + [b[n]];
      RunAppend(s, a + b[..n], b[n]);
      RunConcat(s, a, b[..n]);
    }
  }

  // ----- How often a notification is sent

  function InFlight(s: System): nat {
    if s.pc.Delivered? then 1 else 0
  }

  /** Once a send is recorded no attempt can come near a second one: either sentAt is set and no attempt is past
      the check, or the row is gone and the PROCESSING update of any attempt will throw. */
  ghost predicate SendInvariant(s: System) {
    && s.counts.sends == s.counts.recorded + s.counts.unrecorded + InFlight(s)
    && s.counts.recorded + InFlight(s) <= 1
    && (s.counts.recorded == 1 ==>
          !s.pc.Marked? && !s.pc.Delivered? &&
          (s.row.None? || (s.row.value.sentAt.Some? && !s.pc.Checked?)))
  }

  lemma SendInvariantStep(s: System, e: Event)
    requires SendInvariant(s)
    ensures SendInvariant(Step(s, e))
  {
  }

  lemma {:induction false} SendInvariantHolds(s: System, events: seq<Event>)
    requires SendInvariant(s)
    ensures SendInvariant(Run(s, events))
    decreases |events|
  {
    if events != [] {
      SendInvariantHolds(s, events[..|events| - 1]);
      SendInvariantStep(Run(s, events[..|events| - 1]), events[|events| - 1]);
    }
  }

  /** In every run, each successful channel send is recorded, in flight, or was followed by a crash or a failed
      SENT update; so there is at most one send more than those. */
  lemma SendsBounded(scheduled: bool, published: seq<Message>, events: seq<Event>)
    ensures var c := Run(Created(scheduled, published), events).counts;
            && c.sends <= 1 + c.unrecorded
            && c.recorded <= 1
            && c.recorded + c.unrecorded <= c.sends
  {
    SendInvariantHolds(Created(scheduled, published), events);
  }

  /** The bound is reached: for every n some run has n sends that a crash kept from being recorded, and one more. */
  lemma SendsBoundIsReached(m: Message, n: nat)
    requires ValidMessage(m)
    ensures exists events :: var c := Run(Created(false, [m]), events).counts; c.unrecorded == n && c.sends == n + 1
  {
    var s0 := Created(false, [m]);
    var crashes := CrashedSends(s0, m, n);
    var s := Run(s0, crashes);
    var last := FirstThree(s, m);
    var all := crashes + [Deliver(m), MarkProcessing(Done), ChannelSend(None)];
    RunConcat(s0, crashes, [Deliver(m), MarkProcessing(Done), ChannelSend(None)]);
    assert Run(s0, all) == last;
  }

  lemma {:induction false} CrashedSends(s: System, m: Message, n: nat) returns (events: seq<Event>)
    requires s.pc.Idle? && ValidMessage(m) && m in s.published && s.row.Some? && !AlreadyProcessed(s.row)
    ensures var s' := Run(s, events);
            && s'.pc.Idle? && m in s'.published && s'.row.Some? && !AlreadyProcessed(s'.row)
            && s'.counts.sends == s.counts.sends + n && s'.counts.unrecorded == s.counts.unrecorded + n
  {
    if n == 0 {
      events := [];
    } else {
      var before := CrashedSends(s, m, n - 1);
      var once := [Deliver(m), MarkProcessing(Done), ChannelSend(None)];
      var sent := FirstThree(Run(s, before), m);
      RunAppend(Run(s, before), once, Crash);
      RunConcat(s, before, once + [Crash]);
      events := before + (once + [Crash]);
    }
  }

  predicate SentAtSet(s: System) {
    s.row.Some? && s.row.value.sentAt.Some?
  }

  predicate GoneOrSet(s: System) {
    s.row.None? || SentAtSet(s)
  }

  lemma SentAtKept(s: System, e: Event)
    requires GoneOrSet(s)
    ensures GoneOrSet(Step(s, e))
    ensures s.row.None? ==> Step(s, e).row.None?
  {
  }

  /** No writer clears sentAt: from the moment it is set, it is set in every later state that has the row,
      and a row that is gone never comes back. */
  lemma {:induction false} SentAtNeverCleared(s: System, events: seq<Event>)
    requires GoneOrSet(s)
    ensures GoneOrSet(Run(s, events))
    ensures s.row.None? ==> Run(s, events).row.None?
    decreases |events|
  {
    if events != [] {
      SentAtNeverCleared(s, events[..|events| - 1]);
      SentAtKept(Run(s, events[..|events| - 1]), events[|events| - 1]);
    }
  }

  /** Is an attempt past the idempotency check and not yet at its send? */
  predicate SendPending(s: System) {
    s.pc.Checked? || s.pc.Marked?
  }

  /** sentAt is set, or the row gone, and no attempt is between check and send. */
  predicate Settled(s: System) {
    GoneOrSet(s) && !s.pc.Marked? && !(s.pc.Checked? && s.row.Some?)
  }

  lemma StaysSettled(s: System, e: Event)
    requires Settled(s)
    ensures Settled(Step(s, e)) && Step(s, e).counts.sends == s.counts.sends
  {
  }

  /** Once sentAt is set and no attempt is between check and send, nothing that happens later sends again. */
  lemma {:induction false} NoSendOnceSet(s: System, events: seq<Event>)
    requires Settled(s)
    ensures Settled(Run(s, events)) && Run(s, events).counts.sends == s.counts.sends
    decreases |events|
  {
    if events != [] {
      NoSendOnceSet(s, events[..|events| - 1]);
      StaysSettled(Run(s, events[..|events| - 1]), events[|events| - 1]);
    }
  }

  /** "No send once sentAt is set" holds of a state exactly when no attempt is between its check and its send:
      such an attempt read the row before a webhook set sentAt, and nothing stops it. */
  lemma NoSendOnceSetIff(s: System)
    requires SentAtSet(s)
    ensures (forall events :: Run(s, events).counts.sends == s.counts.sends) <==> !SendPending(s)
  {
    if SendPending(s) {
      var mark, send := MarkProcessing(Done), ChannelSend(None);
      RunAppend(s, [], mark);
      RunAppend(s, [], send);
      RunAppend(s, [mark], send);
      assert [] + [mark] == [mark] && [] + [send] == [send];
      if s.pc.Checked? {
        assert Run(s, [mark] + [send]).counts.sends == s.counts.sends + 1;
      } else {
        assert Run(s, [send]).counts.sends == s.counts.sends + 1;
      }
    } else {
      forall events ensures Run(s, events).counts.sends == s.counts.sends {
        NoSendOnceSet(s, events);
      }
    }
  }

  /** The failing family is reachable: the reply to the first SENT update is lost by a crash, the message comes
      again, and the provider's "sent" webhook arrives after the second attempt's check. */
  lemma SendAfterSentAt(m: Message)
    requires ValidMessage(m)
    ensures var before := [Deliver(m), MarkProcessing(Done), ChannelSend(None), Crash,
                           Deliver(m), MarkProcessing(Done), WebhookSent(7)];
            var s := Run(Created(false, [m]), before);
            && SentAtSet(s) && s.counts.sends == 1
            && Run(Created(false, [m]), before + [ChannelSend(None)]).counts.sends == 2
  {
    var s0 := Created(false, [m]);
    var es := [Deliver(m), MarkProcessing(Done), ChannelSend(None), Crash,
               Deliver(m), MarkProcessing(Done), WebhookSent(7)];
    var first := [Deliver(m), MarkProcessing(Done), ChannelSend(None)];
    var second := [Deliver(m), MarkProcessing(Done), WebhookSent(7)];
    var s3 := FirstThree(s0, m);
    var s4 := Step(s3, Crash);
    RunAppend(s0, first, Crash);
    var s7 := Again(s4, m);
    RunConcat(s0, first + [Crash], second);
    assert es == first + [Crash] + second;
    RunAppend(s0, es, ChannelSend(None));
  }

  lemma Again(s: System, m: Message) returns (s': System)
    requires s.pc.Idle? && ValidMessage(m) && Deliverable(s, m) && s.row.Some? && !AlreadyProcessed(s.row)
    ensures s' == Run(s, [Deliver(m), MarkProcessing(Done), WebhookSent(7)])
    ensures s'.pc.Marked? && SentAtSet(s') && s'.counts.sends == s.counts.sends
  {
    var es := [Deliver(m), MarkProcessing(Done)];
    var _ := RunTwo(s, Deliver(m), MarkProcessing(Done));
    RunAppend(s, es, WebhookSent(7));
    assert es + [WebhookSent(7)] == [Deliver(m), MarkProcessing(Done), WebhookSent(7)];
    s' := Run(s, [Deliver(m), MarkProcessing(Done), WebhookSent(7)]);
  }

  lemma FirstThree(s: System, m: Message) returns (s3: System)
    requires s.pc.Idle? && ValidMessage(m) && Deliverable(s, m) && s.row.Some? && !AlreadyProcessed(s.row)
    ensures s3 == Run(s, [Deliver(m), MarkProcessing(Done), ChannelSend(None)])
    ensures s3 == s.(row := Some(AsProcessing(s.row.value)), pc := Delivered(m),
                     counts := s.counts.(attempts := s.counts.attempts + 1, sends := s.counts.sends + 1))
  {
    var es := [Deliver(m), MarkProcessing(Done), ChannelSend(None)];
    RunAppend(s, [], es[0]);
    RunAppend(s, es[..1], es[1]);
    RunAppend(s, es[..2], es[2]);
    assert [] + [es[0]] == es[..1] && es[..1] + [es[1]] == es[..2] && es[..2] + [es[2]] == es;
    s3 := Run(s, es);
  }

  // ----- What becomes of the attempts

  function Busy(s: System): nat {
    if s.pc.Idle? || s.pc.Routed? then 0 else 1
  }

  /** Every attempt past the check is recorded as sent, routed, cut short by a crash (and redelivered) or still
      under way; every routed failure is in exactly one of the retry topic, the DLQ and the lost messages. */
  ghost predicate AttemptInvariant(s: System) {
    && s.counts.attempts == s.counts.recorded + s.counts.routed + s.counts.crashed + Busy(s)
    && |s.topics.retry| + |s.topics.dlq| + |s.topics.lost| == s.counts.routed
    && (forall i :: 0 <= i < |s.topics.retry| ==> WellQueued(s.topics.retry[i]))
  }

  lemma RouteKeepsQueue(t: Topics, m: Message, error: string, sends: Sends)
    requires forall i :: 0 <= i < |t.retry| ==> WellQueued(t.retry[i])
    ensures forall i :: 0 <= i < |Route(t, m, error, sends).retry| ==> WellQueued(Route(t, m, error, sends).retry[i])
  {
  }

  lemma RouteAccounts(s: System, sends: Sends)
    requires AttemptInvariant(s)
    ensures AttemptInvariant(Step(s, RouteFailure(sends)))
  {
    if s.pc.Catching? {
      RoutedExactlyOnce(s.topics, s.pc.m, s.pc.error, sends);
      RouteKeepsQueue(s.topics, s.pc.m, s.pc.error, sends);
    }
  }

  lemma OtherStepKeepsTopics(s: System, e: Event)
    requires !e.RouteFailure?
    ensures Step(s, e).topics == s.topics
  {
  }

  lemma OtherStepAccounts(s: System, e: Event)
    requires AttemptInvariant(s) && !e.RouteFailure?
    ensures AttemptInvariant(Step(s, e))
  {
    OtherStepKeepsTopics(s, e);
  }

  lemma {:induction false} AttemptsAccounted(s: System, events: seq<Event>)
    requires AttemptInvariant(s)
    ensures AttemptInvariant(Run(s, events))
    decreases |events|
  {
    if events != [] {
      var before := Run(s, events[..|events| - 1]);
      AttemptsAccounted(s, events[..|events| - 1]);
      if events[|events| - 1].RouteFailure? {
        RouteAccounts(before, events[|events| - 1].sends);
      } else {
        OtherStepAccounts(before, events[|events| - 1]);
      }
    }
  }

  /** So in every run, an attempt that failed is in the retry topic, the DLQ or the lost messages exactly once, and an
      attempt without trace was cut short by a crash or is still under way.  What the worker queues has counts 1 to 4;
      a message that creation put into the retry topic itself has count 0 and is among the published ones. */
  lemma {:induction false} EveryAttemptAccounted(scheduled: bool, published: seq<Message>, events: seq<Event>)
    ensures var s := Run(Created(scheduled, published), events);
            && s.counts.attempts == s.counts.recorded + s.counts.routed + s.counts.crashed + Busy(s)
            && s.counts.routed == |s.topics.retry| + |s.topics.dlq| + |s.topics.lost|
            && (forall i :: 0 <= i < |s.topics.retry| ==> 1 <= s.topics.retry[i].retryCountHeader < MAX_RETRIES)
  {
    AttemptsAccounted(Created(scheduled, published), events);
  }

  /** A message is lost only by a failed DLQ send: if none fails, nothing is ever lost. */
  lemma RouteLosesNothing(s: System, e: Event)
    requires e.RouteFailure? ==> e.sends.dlqOk
    ensures Step(s, e).topics.lost == s.topics.lost
  {
    if !e.RouteFailure? {
      OtherStepKeepsTopics(s, e);
    }
  }

  lemma {:induction false} LostOnlyByDlq(s: System, events: seq<Event>)
    requires forall i :: 0 <= i < |events| && events[i].RouteFailure? ==> events[i].sends.dlqOk
    ensures Run(s, events).topics.lost == s.topics.lost
    decreases |events|
  {
    if events != [] {
      LostOnlyByDlq(s, events[..|events| - 1]);
      RouteLosesNothing(Run(s, events[..|events| - 1]), events[|events| - 1]);
    }
  }

  // ----- The handler itself

  /** The raw value of a Kafka message: absent or empty, not JSON, or a parsed message. */
  datatype Payload = Empty | Malformed | Parsed(m: Message)

  /** What the environment answers during one call of the handler. */
  datatype Replies = Replies(find: Option<string>, mark: Write, send: Option<string>, record: Write, recordedAt: int,
                             sends: Sends, fail: Write, failedAt: int)

  /** The error that ends an attempt on this row: what the first of its writes and its send to fail reports. */
  function AttemptError(row: Option<Row>, r: Replies): Option<string> {
    if WriteError(row, r.mark).Some? then WriteError(row, r.mark)
    else if r.send.Some? then r.send
    else WriteError(row, r.record)
  }

  class NotificationWorker {
    var row: Option<Row>             // the notification's row in the database
    const retryService: RetryService
    var isProcessing: bool
    var processedCount: nat
    var errorCount: nat
    ghost var pc: Pc
    ghost var published: seq<Message>
    ghost var adminChecked: bool
    ghost var counts: Counts

    ghost function View(): System
      reads this, retryService
    {
      System(row, pc, retryService.View(), published, adminChecked, counts)
    }

    ghost predicate Ready()
      reads this
    {
      pc.Idle? && !isProcessing
    }

    constructor (initial: Row, messages: seq<Message>)
      ensures Ready() && fresh(retryService)
      ensures View() == System(Some(initial), Idle, Topics([], [], []), messages, false, Counts(0, 0, 0, 0, 0, 0))
      ensures processedCount == errorCount == 0
    {
      row := Some(initial);
      retryService := new RetryService();
      isProcessing, processedCount, errorCount := false, 0, 0;
      pc, published, adminChecked, counts := Idle, messages, false, Counts(0, 0, 0, 0, 0, 0);
    }

    method UpdateToProcessing(w: Write) returns (error: Option<string>)
      requires pc.Checked?
      modifies this`row, this`pc
      ensures View() == Step(old(View()), MarkProcessing(w)) && error == WriteError(old(row), w)
      ensures old(row).Some? && !w.Refused? ==>
                var o := old(row).value;
                row == Some(Row(PROCESSING, o.sentAt, o.deliveredAt, o.failedAt, o.retryCount, o.errorMessage))
      ensures pc == if error.None? then Marked(old(pc).m) else Catching(old(pc).m, error.value)
    {
      error := WriteError(row, w);
      if row.Some? && !w.Refused? {
        row := Some(row.value.(status := PROCESSING));
      }
      pc := if error.None? then Marked(pc.m) else Catching(pc.m, error.value);
    }

    method ProcessNotification(failure: Option<string>) returns (error: Option<string>)
      requires pc.Marked?
      modifies this`pc, this`counts
      ensures View() == Step(old(View()), ChannelSend(failure)) && error == failure
      ensures pc == if error.None? then Delivered(old(pc).m) else Catching(old(pc).m, error.value)
    {
      error := failure;
      counts := if error.None? then counts.(sends := counts.sends + 1) else counts;
      pc := if error.None? then Delivered(pc.m) else Catching(pc.m, error.value);
    }

    method UpdateToSent(w: Write, now: int) returns (error: Option<string>)
      requires pc.Delivered?
      modifies this`row, this`pc, this`counts
      ensures View() == Step(old(View()), RecordSent(w, now)) && error == WriteError(old(row), w)
      ensures old(row).Some? && !w.Refused? ==>
                var o := old(row).value;
                row == Some(Row(SENT, Some(now), o.deliveredAt, o.failedAt, o.retryCount, o.errorMessage))
      ensures pc == if error.None? then Idle else Catching(old(pc).m, error.value)
    {
      error := WriteError(row, w);
      if row.Some? && !w.Refused? {
        row := Some(row.value.(status := SENT, sentAt := Some(now)));
      }
      counts := if error.None? then counts.(recorded := counts.recorded + 1)
                else counts.(unrecorded := counts.unrecorded + 1);
      pc := if error.None? then Idle else Catching(pc.m, error.value);
    }

    method SendAndRecord(m: Message, r: Replies) returns (error: Option<string>, ghost trace: seq<Event>)
      requires pc == Marked(m)
      modifies this`row, this`pc, this`counts
      ensures View() == Run(old(View()), trace) && HandlerSteps(trace)
      ensures error == if r.send.Some? then r.send else WriteError(old(row), r.record)
      ensures error.None? ==> pc.Idle? && old(row).Some?
      ensures error.None? ==>
                var o := old(row).value;
                row == Some(Row(SENT, Some(r.recordedAt), o.deliveredAt, o.failedAt, o.retryCount, o.errorMessage))
      ensures error.Some? ==> pc == Catching(m, error.value) && row.Some? == old(row).Some?
      ensures error.Some? && row.Some? ==>
                var o := old(row).value;
                var sentAt := if r.send.None? && r.record.ReplyLost? then Some(r.recordedAt) else o.sentAt;
                row == Some(Row(row.value.status, sentAt, o.deliveredAt, o.failedAt, o.retryCount, o.errorMessage))
      ensures error.None? ==> counts.sends == old(counts).sends + 1
      ensures counts.routed == old(counts).routed
      ensures counts.recorded == old(counts).recorded + (if error.None? then 1 else 0)
    {
      ghost var s0 := View();
      error := ProcessNotification(r.send);
      trace := [ChannelSend(r.send)];
      RunAppend(s0, [], ChannelSend(r.send));
      assert [] + [ChannelSend(r.send)] == trace;
      if error.None? {
        error := UpdateToSent(r.record, r.recordedAt);
        trace := RunTwo(s0, ChannelSend(r.send), RecordSent(r.record, r.recordedAt));
      }
    }

    /** The attempt starts, and its PROCESSING update. */
    method StartAttempt(m: Message, w: Write) returns (error: Option<string>, ghost trace: seq<Event>)
      requires pc.Idle? && ValidMessage(m) && Deliverable(View(), m) && !AlreadyProcessed(row)
      modifies this`row, this`pc, this`counts
      ensures View() == Run(old(View()), trace) && HandlerSteps(trace)
      ensures error == WriteError(old(row), w)
      ensures pc == if error.None? then Marked(m) else Catching(m, error.value)
      ensures error.None? ==> old(row).Some? && row.Some? && row.value.status == PROCESSING
      ensures row.Some? == old(row).Some?
      ensures row.Some? ==>
                var o := old(row).value;
                row == Some(Row(row.value.status, o.sentAt, o.deliveredAt, o.failedAt, o.retryCount, o.errorMessage))
      ensures counts == old(counts).(attempts := old(counts).attempts + 1)
    {
      ghost var s0 := View();
      pc, counts := Checked(m), counts.(attempts := counts.attempts + 1);
      assert View() == Step(s0, Deliver(m));
      error := UpdateToProcessing(w);
      trace := RunTwo(s0, Deliver(m), MarkProcessing(w));
    }

    /** The try block past the idempotency check: mark, send, record. */
    method Attempt(m: Message, r: Replies) returns (error: Option<string>, ghost trace: seq<Event>)
      requires pc.Idle? && ValidMessage(m) && Deliverable(View(), m) && !AlreadyProcessed(row)
      modifies this`row, this`pc, this`counts, this`processedCount
      ensures View() == Run(old(View()), trace) && HandlerSteps(trace)
      ensures error == AttemptError(old(row), r)
      ensures error.None? ==> pc.Idle? && old(row).Some?
      ensures error.None? ==>
                var o := old(row).value;
                row == Some(Row(SENT, Some(r.recordedAt), o.deliveredAt, o.failedAt, o.retryCount, o.errorMessage))
      ensures error.Some? ==> pc == Catching(m, error.value) && row.Some? == old(row).Some?
      ensures error.Some? && row.Some? ==>
                var o := old(row).value;
                row == Some(Row(row.value.status, if RecordLost(r) then Some(r.recordedAt) else o.sentAt, o.deliveredAt,
                                o.failedAt, o.retryCount, o.errorMessage))
      ensures error.None? ==> counts.sends == old(counts).sends + 1
      ensures counts.routed == old(counts).routed
      ensures counts.recorded == old(counts).recorded + (if error.None? then 1 else 0)
      ensures processedCount == old(processedCount) + (if error.None? then 1 else 0)
    {
      ghost var s0 := View();
      error, trace := StartAttempt(m, r.mark);
      if error.None? {
        ghost var more;
        error, more := SendAndRecord(m, r);
        RunConcat(s0, trace, more);
        trace := trace + more;
      }
      if error.None? {
        processedCount := processedCount + 1;
      }
    }

    /** The lookup of the idempotency check throws. */
    method FailCheck(m: Message, failure: string) returns (error: Option<string>, ghost trace: seq<Event>)
      requires pc.Idle? && ValidMessage(m) && Deliverable(View(), m)
      modifies this`pc, this`counts
      ensures View() == Run(old(View()), trace) && HandlerSteps(trace)
      ensures error == Some(failure) && pc == Catching(m, failure)
      ensures counts == old(counts).(attempts := old(counts).attempts + 1)
    {
      RunAppend(View(), [], CheckFails(m, failure));
      trace := [CheckFails(m, failure)];
      assert [] + trace == trace;
      error := Some(failure);
      pc, counts := Catching(m, failure), counts.(attempts := counts.attempts + 1);
    }

    method RouteError(m: Message, error: string, sends: Sends)
      requires pc == Catching(m, error)
      modifies this`pc, this`counts, retryService
      ensures View() == Step(old(View()), RouteFailure(sends)) && pc == Routed(m, error)
      ensures retryService.View() == Route(old(retryService.View()), m, error, sends)
      ensures counts == old(counts).(routed := old(counts).routed + 1)
    {
      retryService.SendToRetryQueue(m, error, sends);
      pc, counts := Routed(m, error), counts.(routed := counts.routed + 1);
    }

    method UpdateToFailed(error: string, w: Write, now: int)
      requires pc.Routed? && pc.error == error
      modifies this`row, this`pc
      ensures View() == Step(old(View()), RecordFailed(w, now)) && pc.Idle?
      ensures old(row).Some? && !w.Refused? ==>
                var o := old(row).value;
                row == Some(Row(FAILED, o.sentAt, o.deliveredAt, Some(now), o.retryCount + 1, Some(error)))
      ensures old(row).None? || w.Refused? ==> row == old(row)
    {
      if row.Some? && !w.Refused? {
        row := Some(row.value.(status := FAILED, failedAt := Some(now), errorMessage := Some(error),
                               retryCount := row.value.retryCount + 1));
      }
      pc := Idle;
    }

    /** The catch block: count, route, mark FAILED. */
    method HandleError(m: Message, error: string, r: Replies) returns (ghost trace: seq<Event>)
      requires pc == Catching(m, error)
      modifies this, retryService
      ensures View() == Run(old(View()), trace) && HandlerSteps(trace) && pc.Idle?
      ensures isProcessing == old(isProcessing) && processedCount == old(processedCount)
      ensures errorCount == old(errorCount) + 1
      ensures counts == old(counts).(routed := old(counts).routed + 1)
      ensures retryService.View() == Route(old(retryService.View()), m, error, r.sends)
      ensures old(row).Some? && !r.fail.Refused? ==>
                var o := old(row).value;
                row == Some(Row(FAILED, o.sentAt, o.deliveredAt, Some(r.failedAt), o.retryCount + 1, Some(error)))
      ensures old(row).None? || r.fail.Refused? ==> row == old(row)
    {
      ghost var s0 := View();
      errorCount := errorCount + 1;
      RouteError(m, error, r.sends);
      UpdateToFailed(error, r.fail, r.failedAt);
      trace := RunTwo(s0, RouteFailure(r.sends), RecordFailed(r.fail, r.failedAt));
    }

    /** A message that is not skipped: the rest of the try block and, if something throws, the catch block. */
    method AttemptOrRoute(m: Message, r: Replies) returns (ghost trace: seq<Event>)
      requires pc.Idle? && ValidMessage(m) && Deliverable(View(), m) && (r.find.Some? || !AlreadyProcessed(row))
      modifies this, retryService
      ensures View() == Run(old(View()), trace) && HandlerSteps(trace) && pc.Idle?
      ensures isProcessing == old(isProcessing)
      ensures processedCount == old(processedCount) + counts.recorded - old(counts.recorded)
      ensures errorCount == old(errorCount) + counts.routed - old(counts.routed)
      ensures CallError(old(row), r).None? ==>
                old(row).Some? && retryService.View() == old(retryService.View()) &&
                counts.sends == old(counts).sends + 1 && counts.recorded == old(counts).recorded + 1 &&
                var o := old(row).value;
                row == Some(Row(SENT, Some(r.recordedAt), o.deliveredAt, o.failedAt, o.retryCount, o.errorMessage))
      ensures CallError(old(row), r).Some? ==>
                FailureHandled(old(row), row, old(retryService.View()), retryService.View(), m,
                               CallError(old(row), r).value, r)
    {
      var error: Option<string>;
      ghost var s0, row0, topics0 := View(), row, retryService.View();
      if r.find.Some? {
        error, trace := FailCheck(m, r.find.value);
      } else {
        error, trace := Attempt(m, r);
      }
      if error.Some? {
        ghost var first := trace;
        trace := HandleError(m, error.value, r);
        RunConcat(s0, first, trace);
        trace := first + trace;
        assert FailureHandled(row0, row, topics0, retryService.View(), m, error.value, r);
      }
    }

    /** One call without interference is a run of the protocol: the handler performs exactly the steps in trace. */
    method HandleNotification(payload: Payload, r: Replies) returns (ghost trace: seq<Event>)
      requires Ready()
      requires payload.Parsed? ==> Deliverable(View(), payload.m)
      modifies this, retryService
      ensures Ready()
      ensures View() == Run(old(View()), trace) && HandlerSteps(trace)
      ensures processedCount == old(processedCount) + counts.recorded - old(counts.recorded)
      ensures errorCount == old(errorCount) + counts.routed - old(counts.routed) +
                            (if payload == Malformed || (payload.Parsed? && !ValidMessage(payload.m)) then 1 else 0)
      // nothing to do: empty, unparsable, invalid or already processed
      ensures Skipped(payload, old(row), r) ==> View() == old(View())
      // sent and recorded
      ensures !Skipped(payload, old(row), r) && CallError(old(row), r).None? ==>
                old(row).Some? && retryService.View() == old(retryService.View()) &&
                counts.sends == old(counts).sends + 1 && counts.recorded == old(counts).recorded + 1 &&
                var o := old(row).value;
                row == Some(Row(SENT, Some(r.recordedAt), o.deliveredAt, o.failedAt, o.retryCount, o.errorMessage))
      // failed: routed once and, if the row can be written, marked FAILED
      ensures !Skipped(payload, old(row), r) && CallError(old(row), r).Some? ==>
                FailureHandled(old(row), row, old(retryService.View()), retryService.View(), payload.m,
                               CallError(old(row), r).value, r)
    {
      trace := [];
      isProcessing := true;
      if payload.Malformed? {
        // the parse error is counted; parsing again in the catch block throws, so nothing is routed
        errorCount := errorCount + 1;
      } else if payload.Parsed? && !ValidMessage(payload.m) {
        errorCount := errorCount + 1;
      } else if payload.Parsed? && (r.find.Some? || !(row.Some? && (row.value.status == SENT || row.value.sentAt.Some?))) {
        trace := AttemptOrRoute(payload.m, r);
      }
      isProcessing := false;
    }
  }

  predicate HandlerSteps(trace: seq<Event>) {
    forall e :: e in trace ==> e.Deliver? || e.CheckFails? || e.MarkProcessing? || e.ChannelSend? || e.RecordSent? ||
                               e.RouteFailure? || e.RecordFailed?
  }

  /** Nothing to do: no valid message, or a look at the row says that it is already processed. */
  predicate Skipped(payload: Payload, row: Option<Row>, r: Replies) {
    !payload.Parsed? || !ValidMessage(payload.m) || (r.find.None? && AlreadyProcessed(row))
  }

  function CallError(row: Option<Row>, r: Replies): Option<string> {
    if r.find.Some? then r.find else AttemptError(row, r)
  }

  /** The failed message was routed once with this error, and the row, if it can be written, says so. */
  ghost predicate FailureHandled(before: Option<Row>, after: Option<Row>, t: Topics, t': Topics,
                                 m: Message, error: string, r: Replies)
  {
    && t' == Route(t, m, error, r.sends)
    && (before.None? ==> after.None?)
    && (before.Some? ==>
          var o, sentAt := before.value, if r.find.None? && RecordLost(r) then Some(r.recordedAt) else before.value.sentAt;
          && after.Some?
          && (!r.fail.Refused? ==>
                after == Some(Row(FAILED, sentAt, o.deliveredAt, Some(r.failedAt), o.retryCount + 1, Some(error))))
          && (r.fail.Refused? ==>
                after == Some(Row(after.value.status, sentAt, o.deliveredAt, o.failedAt, o.retryCount, o.errorMessage))))
  }

  /** The SENT update was applied although the worker saw an error. */
  predicate RecordLost(r: Replies) {
    r.mark.Done? && r.send.None? && r.record.ReplyLost?
  }

  /** What is skipped, spelled out: messages that are absent, broken or incomplete, and rows seen to be SENT or to have a
      time of sending. */
  lemma SkippedIff(payload: Payload, row: Option<Row>, r: Replies)
    ensures Skipped(payload, row, r) <==>
            payload != Empty && payload != Malformed ==>
              var m := payload.m;
              || m.id == "" || m.userId == "" || m.kind == "" || m.channel == "" || !m.hasPayload
              || (r.find == None && row.Some? && (row.value.status == SENT || row.value.sentAt != None))
  {
  }

  /** A call succeeds exactly when the row is there and nothing fails; otherwise its error is what the first failing
      operation reports, in the order lookup, PROCESSING update, channel send, SENT update. */
  lemma CallErrorIsFirst(row: Option<Row>, r: Replies)
    ensures CallError(row, r) == None <==>
            r.find == None && row.Some? && r.mark.Done? && r.send == None && r.record.Done?
    ensures r.find.Some? ==> CallError(row, r) == r.find
    ensures r.find == None && !r.mark.Done? ==> CallError(row, r) == Some(r.mark.error)
    ensures r.find == None && r.mark.Done? && row == None ==> CallError(row, r) == Some("Record to update not found.")
    ensures r.find == None && r.mark.Done? && row.Some? && r.send.Some? ==> CallError(row, r) == r.send
    ensures r.find == None && r.mark.Done? && row.Some? && r.send == None && !r.record.Done? ==>
              CallError(row, r) == Some(r.record.error)
  {
  }

  lemma RunTwo(s: System, a: Event, b: Event) returns (trace: seq<Event>)
    ensures trace == [a, b] && Run(s, trace) == Step(Step(s, a), b)
  {
    trace := [a, b];
    RunAppend(s, [], a);
    RunAppend(s, [a], b);
    assert [] + [a] == [a] && [a] + [b] == trace;
  }
}
