/**
 Idempotent creation of notifications: src/notification/notification.service.ts over the Redis key store, the
 notifications table (whose idempotencyKey column is unique, prisma/schema.prisma) and the Kafka topics.

 A create is one step; time passes, old rows are removed and users are anonymised between creates.
 Every await of `create` may fail, as the Faults of the step say; a process that dies between two awaits leaves
 what the failure of the next one leaves.
 */
module NotificationCreate {
  import opened Common

  const IDEMPOTENCY_TTL_MS := 86400 * 1000
  const RETENTION_MS := 90 * 86400 * 1000

  datatype Entry = Entry(id: string, expiresAt: int)

  datatype Row = Row(idempotencyKey: Option<string>, createdAt: int, scheduled: bool)

  /** The write of the key goes through, is refused, or is applied although the create stops there. */
  datatype Write = Done | Refused | ReplyLost

  datatype Topic = Notifications | Retry

  /** A row that was inserted at some time: nth in the order of all inserts, by a create that met these faults. */
  datatype Creation = Creation(key: string, at: int, faults: Faults, nth: nat) {
    /** Its key reached Redis. */
    predicate Stored() {
      !faults.store.Refused?
    }

    /** The create got as far as publishing, and the send to this topic went through: the retry topic is only tried
        after the notifications topic failed. */
    predicate SentTo(t: Topic) {
      faults.store.Done? && match t
        case Notifications => faults.sendOk
        case Retry => !faults.sendOk && faults.fallbackOk
    }
  }

  /** created remembers every row ever inserted, by id. */
  datatype State = State(
    clock: int,
    redis: map<string, Entry>,
    rows: map<string, Row>,
    notificationsTopic: seq<string>,
    retryTopic: seq<string>,
    created: map<string, Creation>,
    anonymised: set<string>)

  /** Which awaits of one create go through. */
  datatype Faults = Faults(getOk: bool, findOk: bool, insertOk: bool, store: Write, sendOk: bool, fallbackOk: bool)

  datatype Outcome = Returned(id: string) | DuplicateNotFound | Failed

  datatype Event =
    | Create(key: string, id: string, scheduled: bool, faults: Faults)
    | Remove(id: string)
    | Anonymise(ids: set<string>)
    | Tick(ms: nat)

  predicate Live(s: State, key: string) {
    key in s.redis && s.clock < s.redis[key].expiresAt
  }

  predicate KeyTaken(rows: map<string, Row>, key: string) {
    exists id :: id in rows && rows[id].idempotencyKey == Some(key)
  }

  function Publish(s: State, id: string, faults: Faults): State {
    if faults.sendOk then s.(notificationsTopic := s.notificationsTopic + [id])
    else if faults.fallbackOk then s.(retryTopic := s.retryTopic + [id])
    else s
  }

  function NewCreation(s: State, key: string, faults: Faults): Creation {
    Creation(key, s.clock, faults, |s.created|)
  }

  function CreateStep(s: State, key: string, id: string, scheduled: bool, faults: Faults): (State, Outcome) {
    if !faults.getOk then (s, Failed)
    else if Live(s, key) then
      if !faults.findOk then (s, Failed)
      else if s.redis[key].id in s.rows then (s, Returned(s.redis[key].id))
      else (s, DuplicateNotFound)
    else if !faults.insertOk || KeyTaken(s.rows, key) then (s, Failed)
    else
      var inserted := s.(rows := s.rows[id := Row(Some(key), s.clock, scheduled)],
                         created := s.created[id := NewCreation(s, key, faults)]);
      var stored := if faults.store.Refused? then inserted
                    else inserted.(redis := s.redis[key := Entry(id, s.clock + IDEMPOTENCY_TTL_MS)]);
      if !faults.store.Done? then (stored, Failed) else (Publish(stored, id, faults), Returned(id))
  }

  function Step(s: State, e: Event): State {
    match e
    case Create(key, id, scheduled, faults) =>
      // identifiers are generated afresh by the database
      if id !in s.created then CreateStep(s, key, id, scheduled, faults).0 else s
    case Remove(id) =>
      if id in s.rows && s.rows[id].createdAt < s.clock - RETENTION_MS then s.(rows := s.rows - {id}) else s
    case Anonymise(ids) =>
      s.(rows := map id | id in s.rows :: if id in ids then s.rows[id].(idempotencyKey := None) else s.rows[id],
         anonymised := s.anonymised + (ids * s.rows.Keys))
    case Tick(ms) => s.(clock := s.clock + ms)
  }

  function Run(s: State, events: seq<Event>): State {
    if events == [] then s
    else Step(Run(s, events[..|events| - 1]), events[|events| - 1])
  }

  function Empty(clock: int): State {
    State(clock, map[], map[], [], [], map[], {})
  }

  // ----- What every reachable state satisfies

  /** The rows are rows that were created, with their own key exactly unless anonymised, and no row is gone that may
      not be removed yet. */
  ghost predicate RowsAreCreated(clock: int, rows: map<string, Row>, created: map<string, Creation>,
                                 anonymised: set<string>) {
    && (forall id :: id in rows ==>
          && id in created
          && rows[id].createdAt == created[id].at
          && rows[id].idempotencyKey == (if id in anonymised then None else Some(created[id].key)))
    && anonymised <= created.Keys
    && (forall id :: id in created && clock <= created[id].at + RETENTION_MS ==> id in rows)
  }

  ghost predicate Ordered(clock: int, created: map<string, Creation>) {
    && (forall id :: id in created ==> created[id].at <= clock && created[id].nth < |created|)
    && (forall a, b {:trigger created[a].nth, created[b].nth} ::
          a in created && b in created && a != b ==> created[a].nth != created[b].nth)
  }

  /** A key stored in the last 24 hours is in Redis. */
  predicate KeyHeld(clock: int, redis: map<string, Entry>, created: map<string, Creation>, id: string)
    requires id in created
  {
    created[id].Stored() && clock < created[id].at + IDEMPOTENCY_TTL_MS ==>
      created[id].key in redis && redis[created[id].key] == Entry(id, created[id].at + IDEMPOTENCY_TTL_MS)
  }

  /** An entry of Redis was stored by a create. */
  predicate EntryExplained(redis: map<string, Entry>, created: map<string, Creation>, key: string)
    requires key in redis
  {
    var id := redis[key].id;
    id in created && created[id].key == key && created[id].Stored() &&
    redis[key].expiresAt == created[id].at + IDEMPOTENCY_TTL_MS
  }

  ghost predicate RedisIsCreated(clock: int, redis: map<string, Entry>, created: map<string, Creation>) {
    && (forall id {:trigger KeyHeld(clock, redis, created, id)} :: id in created ==> KeyHeld(clock, redis, created, id))
    && (forall key {:trigger EntryExplained(redis, created, key)} :: key in redis ==> EntryExplained(redis, created, key))
  }

  /** Far enough apart for two rows with the same key, first before second: at least 24 h if the key of the first
      was stored, and more than 90 days unless the first was anonymised. */
  predicate FarEnough(first: Creation, firstAnonymised: bool, at: int) {
    && (first.Stored() ==> at >= first.at + IDEMPOTENCY_TTL_MS)
    && (!firstAnonymised ==> at > first.at + RETENTION_MS)
  }

  /** Two rows with the same key, in the order of their inserts. */
  predicate Before(created: map<string, Creation>, first: string, second: string)
    requires first in created && second in created
  {
    created[first].key == created[second].key && created[first].nth < created[second].nth
  }

  ghost predicate Spaced(created: map<string, Creation>, anonymised: set<string>) {
    forall first, second {:trigger Before(created, first, second)} |
      first in created && second in created && Before(created, first, second) ::
      FarEnough(created[first], first in anonymised, created[second].at)
  }

  /** No row holds its key any more once a later row was created with it. */
  ghost predicate Superseded(rows: map<string, Row>, created: map<string, Creation>) {
    forall first, second {:trigger Before(created, first, second)} |
      first in created && second in created && Before(created, first, second) && first in rows ::
      rows[first].idempotencyKey == None
  }

  function SentIds(created: map<string, Creation>, t: Topic): set<string> {
    set id | id in created && created[id].SentTo(t)
  }

  function Messages(s: State, t: Topic): seq<string> {
    match t
    case Notifications => s.notificationsTopic
    case Retry => s.retryTopic
  }

  /** A topic holds each row sent to it once, and nothing else. */
  ghost predicate TopicHolds(s: State, t: Topic) {
    multiset(Messages(s, t)) == multiset(SentIds(s.created, t))
  }

  ghost predicate Invariant(s: State) {
    && RowsAreCreated(s.clock, s.rows, s.created, s.anonymised)
    && Ordered(s.clock, s.created)
    && RedisIsCreated(s.clock, s.redis, s.created)
    && Spaced(s.created, s.anonymised)
    && Superseded(s.rows, s.created)
    && TopicHolds(s, Notifications) && TopicHolds(s, Retry)
  }

  /** The spacing comes from here: a stored first key has expired, and an unanonymised first row is gone. */
  lemma EarlierSameKey(s: State, key: string, first: string)
    requires RowsAreCreated(s.clock, s.rows, s.created, s.anonymised) && RedisIsCreated(s.clock, s.redis, s.created)
    requires !Live(s, key) && !KeyTaken(s.rows, key)
    requires first in s.created && s.created[first].key == key
    ensures FarEnough(s.created[first], first in s.anonymised, s.clock)
  {
    assert KeyHeld(s.clock, s.redis, s.created, first);
  }

  /** A new row is the second of a pair only. */
  lemma PairsAfterInsert(created: map<string, Creation>, id: string, c: Creation, first: string, second: string)
    requires id !in created && forall a :: a in created ==> created[a].nth < c.nth
    requires first in created[id := c] && second in created[id := c] && Before(created[id := c], first, second)
    ensures first in created && (if second == id then created[first].key == c.key
                                 else second in created && Before(created, first, second))
  {
  }

  lemma InsertKeepsSpacing(created: map<string, Creation>, anonymised: set<string>, id: string, c: Creation)
    requires Spaced(created, anonymised) && id !in created
    requires forall a :: a in created ==> created[a].nth < c.nth
    requires forall first :: first in created && created[first].key == c.key ==>
               FarEnough(created[first], first in anonymised, c.at)
    ensures Spaced(created[id := c], anonymised)
  {
    var more := created[id := c];
    forall first, second | first in more && second in more && Before(more, first, second)
      ensures FarEnough(more[first], first in anonymised, more[second].at)
    {
      PairsAfterInsert(created, id, c, first, second);
    }
  }

  lemma InsertSupersedes(s: State, id: string, scheduled: bool, c: Creation)
    requires RowsAreCreated(s.clock, s.rows, s.created, s.anonymised) && Ordered(s.clock, s.created)
    requires Superseded(s.rows, s.created) && id !in s.created && !KeyTaken(s.rows, c.key) && c.nth == |s.created|
    ensures Superseded(s.rows[id := Row(Some(c.key), s.clock, scheduled)], s.created[id := c])
  {
    var created, rows := s.created[id := c], s.rows[id := Row(Some(c.key), s.clock, scheduled)];
    forall first, second | first in created && second in created && Before(created, first, second) && first in rows
      ensures rows[first].idempotencyKey == None
    {
      PairsAfterInsert(s.created, id, c, first, second);
    }
  }

  lemma InsertKeepsOrder(clock: int, created: map<string, Creation>, id: string, c: Creation)
    requires Ordered(clock, created) && id !in created && c.at == clock && c.nth == |created|
    ensures Ordered(clock, created[id := c])
  {
    assert |created[id := c]| == |created| + 1;
  }

  lemma InsertSends(created: map<string, Creation>, id: string, c: Creation, t: Topic)
    requires id !in created
    ensures multiset(SentIds(created[id := c], t)) ==
            multiset(SentIds(created, t)) + (if c.SentTo(t) then multiset{id} else multiset{})
  {
    if c.SentTo(t) {
      assert SentIds(created[id := c], t) == SentIds(created, t) + {id};
    } else {
      assert SentIds(created[id := c], t) == SentIds(created, t);
    }
  }

  lemma InsertKeepsRows(s: State, key: string, id: string, scheduled: bool, c: Creation)
    requires RowsAreCreated(s.clock, s.rows, s.created, s.anonymised) && id !in s.created
    requires c.key == key && c.at == s.clock
    ensures RowsAreCreated(s.clock, s.rows[id := Row(Some(key), s.clock, scheduled)], s.created[id := c], s.anonymised)
  {
  }

  lemma InsertKeepsRedis(s: State, id: string, c: Creation)
    requires RedisIsCreated(s.clock, s.redis, s.created) && id !in s.created && !Live(s, c.key) && c.at == s.clock
    ensures var redis := if c.Stored() then s.redis[c.key := Entry(id, s.clock + IDEMPOTENCY_TTL_MS)] else s.redis;
            RedisIsCreated(s.clock, redis, s.created[id := c])
  {
    var redis := if c.Stored() then s.redis[c.key := Entry(id, s.clock + IDEMPOTENCY_TTL_MS)] else s.redis;
    var created := s.created[id := c];
    forall a | a in created ensures KeyHeld(s.clock, redis, created, a) {
      if a != id {
        assert KeyHeld(s.clock, s.redis, s.created, a);
      }
    }
    forall key | key in redis ensures EntryExplained(redis, created, key) {
      if !(c.Stored() && key == c.key) {
        assert EntryExplained(s.redis, s.created, key);
      }
    }
  }

  lemma InsertKeepsCreated(s: State, id: string, c: Creation)
    requires Invariant(s) && id !in s.created && !Live(s, c.key) && !KeyTaken(s.rows, c.key)
    requires c.at == s.clock && c.nth == |s.created|
    ensures Ordered(s.clock, s.created[id := c]) && Spaced(s.created[id := c], s.anonymised)
  {
    forall first | first in s.created && s.created[first].key == c.key
      ensures FarEnough(s.created[first], first in s.anonymised, s.clock)
    {
      EarlierSameKey(s, c.key, first);
    }
    InsertKeepsSpacing(s.created, s.anonymised, id, c);
    InsertKeepsOrder(s.clock, s.created, id, c);
  }

  lemma CountAppended(topic: seq<string>, id: string)
    ensures multiset(topic + [id]) == multiset(topic) + multiset{id}
  {
  }

  lemma PublishCounts(s: State, id: string, faults: Faults, t: Topic)
    requires faults.store.Done?
    ensures multiset(Messages(Publish(s, id, faults), t)) ==
            multiset(Messages(s, t)) + (if Creation("", 0, faults, 0).SentTo(t) then multiset{id} else multiset{})
  {
    CountAppended(s.notificationsTopic, id);
    CountAppended(s.retryTopic, id);
  }

  /** The state after the insert and the write of the key. */
  function Inserted(s: State, key: string, id: string, scheduled: bool, faults: Faults): State {
    s.(rows := s.rows[id := Row(Some(key), s.clock, scheduled)],
       created := s.created[id := NewCreation(s, key, faults)],
       redis := if faults.store.Refused? then s.redis else s.redis[key := Entry(id, s.clock + IDEMPOTENCY_TTL_MS)])
  }

  lemma InsertBranch(s: State, key: string, id: string, scheduled: bool, faults: Faults)
    requires faults.getOk && !Live(s, key) && faults.insertOk && !KeyTaken(s.rows, key)
    ensures var inserted := Inserted(s, key, id, scheduled, faults);
            CreateStep(s, key, id, scheduled, faults).0 ==
            if faults.store.Done? then Publish(inserted, id, faults) else inserted
  {
  }

  /** What the insert branch of a create writes. */
  lemma InsertWrites(s: State, key: string, id: string, scheduled: bool, faults: Faults)
    requires faults.getOk && !Live(s, key) && faults.insertOk && !KeyTaken(s.rows, key)
    ensures var s' := CreateStep(s, key, id, scheduled, faults).0;
            && s'.clock == s.clock && s'.anonymised == s.anonymised
            && s'.rows == s.rows[id := Row(Some(key), s.clock, scheduled)]
            && s'.created == s.created[id := NewCreation(s, key, faults)]
            && s'.redis == (if faults.store.Refused? then s.redis
                            else s.redis[key := Entry(id, s.clock + IDEMPOTENCY_TTL_MS)])
  {
    InsertBranch(s, key, id, scheduled, faults);
  }

  /** What the insert branch of a create sends. */
  lemma InsertPublishes(s: State, key: string, id: string, scheduled: bool, faults: Faults, t: Topic)
    requires faults.getOk && !Live(s, key) && faults.insertOk && !KeyTaken(s.rows, key)
    ensures multiset(Messages(CreateStep(s, key, id, scheduled, faults).0, t)) ==
            multiset(Messages(s, t)) + (if NewCreation(s, key, faults).SentTo(t) then multiset{id} else multiset{})
  {
    InsertBranch(s, key, id, scheduled, faults);
    if faults.store.Done? {
      PublishCounts(Inserted(s, key, id, scheduled, faults), id, faults, t);
    }
  }

  lemma InsertKeepsTopic(s: State, key: string, id: string, scheduled: bool, faults: Faults, t: Topic)
    requires faults.getOk && !Live(s, key) && faults.insertOk && !KeyTaken(s.rows, key)
    requires id !in s.created && TopicHolds(s, t)
    ensures TopicHolds(CreateStep(s, key, id, scheduled, faults).0, t)
  {
    InsertWrites(s, key, id, scheduled, faults);
    InsertPublishes(s, key, id, scheduled, faults, t);
    InsertSends(s.created, id, NewCreation(s, key, faults), t);
  }

  lemma CreateKeepsInvariant(s: State, key: string, id: string, scheduled: bool, faults: Faults)
    requires Invariant(s) && id !in s.created
    ensures Invariant(CreateStep(s, key, id, scheduled, faults).0)
  {
    if faults.getOk && !Live(s, key) && faults.insertOk && !KeyTaken(s.rows, key) {
      var c := NewCreation(s, key, faults);
      InsertKeepsCreated(s, id, c);
      InsertKeepsRows(s, key, id, scheduled, c);
      InsertSupersedes(s, id, scheduled, c);
      InsertKeepsRedis(s, id, c);
      InsertWrites(s, key, id, scheduled, faults);
      InsertKeepsTopic(s, key, id, scheduled, faults, Notifications);
      InsertKeepsTopic(s, key, id, scheduled, faults, Retry);
      ghost var s' := CreateStep(s, key, id, scheduled, faults).0;
      InvariantOfParts(s', s'.clock, s'.rows, s'.created, s'.anonymised, s'.redis);
    }
  }

  /** Puts the parts of the invariant together. */
  lemma InvariantOfParts(s: State, clock: int, rows: map<string, Row>, created: map<string, Creation>,
                         anonymised: set<string>, redis: map<string, Entry>)
    requires s.clock == clock && s.rows == rows && s.created == created && s.anonymised == anonymised && s.redis == redis
    requires RowsAreCreated(clock, rows, created, anonymised)
    requires Ordered(clock, created)
    requires RedisIsCreated(clock, redis, created)
    requires Spaced(created, anonymised) && Superseded(rows, created)
    requires TopicHolds(s, Notifications) && TopicHolds(s, Retry)
    ensures Invariant(s)
  {
  }

  lemma RemoveKeepsRows(s: State, id: string)
    requires RowsAreCreated(s.clock, s.rows, s.created, s.anonymised)
    ensures RowsAreCreated(s.clock, Step(s, Remove(id)).rows, s.created, s.anonymised)
  {
  }

  lemma FewerRowsSuperseded(rows: map<string, Row>, fewer: map<string, Row>, created: map<string, Creation>)
    requires Superseded(rows, created) && forall id :: id in fewer ==> id in rows && fewer[id] == rows[id]
    ensures Superseded(fewer, created)
  {
  }

  lemma RemoveWrites(s: State, id: string)
    ensures var s' := Step(s, Remove(id));
            && s' == s.(rows := s'.rows)
            && forall other :: other in s'.rows ==> other in s.rows && s'.rows[other] == s.rows[other]
  {
  }

  /** A row is removed exactly when it is more than 90 days old. */
  lemma RemovedIff(s: State, id: string)
    requires id in s.rows
    ensures id !in Step(s, Remove(id)).rows <==> s.clock - s.rows[id].createdAt > 90 * 24 * 60 * 60 * 1000
  {
  }

  lemma RemoveKeepsInvariant(s: State, id: string)
    requires Invariant(s)
    ensures Invariant(Step(s, Remove(id)))
  {
    RemoveWrites(s, id);
    RemoveKeepsRows(s, id);
    var fewer := Step(s, Remove(id)).rows;
    FewerRowsSuperseded(s.rows, fewer, s.created);
    InvariantOfParts(s.(rows := fewer), s.clock, fewer, s.created, s.anonymised, s.redis);
  }

  lemma AnonymiseKeepsRows(s: State, ids: set<string>)
    requires RowsAreCreated(s.clock, s.rows, s.created, s.anonymised)
    ensures RowsAreCreated(s.clock, Step(s, Anonymise(ids)).rows, s.created, Step(s, Anonymise(ids)).anonymised)
  {
  }

  lemma AnonymiseKeepsInvariant(s: State, ids: set<string>)
    requires Invariant(s)
    ensures Invariant(Step(s, Anonymise(ids)))
  {
    AnonymiseKeepsRows(s, ids);
  }

  lemma TopicUnmoved(s: State, s': State, t: Topic)
    requires TopicHolds(s, t) && s'.created == s.created
    requires s'.notificationsTopic == s.notificationsTopic && s'.retryTopic == s.retryTopic
    ensures TopicHolds(s', t)
  {
  }

  lemma TickKeepsRows(s: State, later: int)
    requires RowsAreCreated(s.clock, s.rows, s.created, s.anonymised) && Ordered(s.clock, s.created) && s.clock <= later
    ensures RowsAreCreated(later, s.rows, s.created, s.anonymised) && Ordered(later, s.created)
  {
  }

  lemma TickKeepsRedis(s: State, later: int)
    requires RedisIsCreated(s.clock, s.redis, s.created) && s.clock <= later
    ensures RedisIsCreated(later, s.redis, s.created)
  {
    forall id | id in s.created ensures KeyHeld(later, s.redis, s.created, id) {
      assert KeyHeld(s.clock, s.redis, s.created, id);
    }
  }

  lemma TickKeepsInvariant(s: State, later: int)
    requires Invariant(s) && s.clock <= later
    ensures Invariant(s.(clock := later))
  {
    TickKeepsRows(s, later);
    TickKeepsRedis(s, later);
    TopicUnmoved(s, s.(clock := later), Notifications);
    TopicUnmoved(s, s.(clock := later), Retry);
    InvariantOfParts(s.(clock := later), later, s.rows, s.created, s.anonymised, s.redis);
  }

  lemma {:induction false} InvariantHolds(clock: int, events: seq<Event>)
    ensures Invariant(Run(Empty(clock), events))
    decreases |events|
  {
    if events != [] {
      var before := Run(Empty(clock), events[..|events| - 1]);
      InvariantHolds(clock, events[..|events| - 1]);
      StepKeepsInvariant(before, events[|events| - 1]);
    }
  }

  lemma StepKeepsInvariant(s: State, e: Event)
    requires Invariant(s)
    ensures Invariant(Step(s, e))
  {
    match e
    case Create(key, id, scheduled, faults) =>
      if id !in s.created {
        CreateKeepsInvariant(s, key, id, scheduled, faults);
      }
    case Remove(id) => RemoveKeepsInvariant(s, id);
    case Anonymise(ids) => AnonymiseKeepsInvariant(s, ids);
    case Tick(ms) => TickKeepsInvariant(s, s.clock + ms);
  }

  // ----- Main results

  /** Over every run, with time passing, rows removed and users anonymised in between. */
  lemma SameKeyCreationsSpaced(clock: int, events: seq<Event>, first: string, second: string)
    requires var created := Run(Empty(clock), events).created;
             first in created && second in created &&
             created[first].key == created[second].key && created[first].nth < created[second].nth
    ensures var s := Run(Empty(clock), events);
            && (s.created[first].Stored() ==> s.created[second].at - s.created[first].at >= 24 * 60 * 60 * 1000)
            && (first !in s.anonymised ==> s.created[second].at - s.created[first].at > 90 * 24 * 60 * 60 * 1000)
  {
    InvariantHolds(clock, events);
    assert Before(Run(Empty(clock), events).created, first, second);
  }

  /** In every run a row is in the notifications topic once if its create stored the key, came back from that and sent
      it there, and is not in it otherwise; and likewise in the retry topic if that first send failed and the fallback
      went through. */
  lemma EachRowPublishedOnce(clock: int, events: seq<Event>, id: string)
    ensures var s := Run(Empty(clock), events);
            && multiset(s.notificationsTopic)[id] ==
               (if id in s.created && s.created[id].faults.store.Done? && s.created[id].faults.sendOk then 1 else 0)
            && multiset(s.retryTopic)[id] ==
               (if id in s.created && s.created[id].faults.store.Done? && !s.created[id].faults.sendOk &&
                   s.created[id].faults.fallbackOk then 1 else 0)
  {
    InvariantHolds(clock, events);
    var s := Run(Empty(clock), events);
    assert multiset(Messages(s, Notifications))[id] == multiset(SentIds(s.created, Notifications))[id];
    assert multiset(Messages(s, Retry))[id] == multiset(SentIds(s.created, Retry))[id];
  }

  /** The check finds a row exactly when one was created with the key within the last 24 h and the key was stored; and
      then it finds that row, of which there is only one. */
  lemma CheckFindsRecentRow(clock: int, events: seq<Event>, key: string)
    ensures var s := Run(Empty(clock), events);
            && (Live(s, key) <==>
                exists id :: id in s.created && Recent(s, id, key))
            && (forall id :: id in s.created && Recent(s, id, key) ==> key in s.redis && s.redis[key].id == id)
  {
    var s := Run(Empty(clock), events);
    InvariantHolds(clock, events);
    forall id | id in s.created && Recent(s, id, key) ensures Live(s, key) && s.redis[key].id == id {
      assert KeyHeld(s.clock, s.redis, s.created, id);
    }
    if Live(s, key) {
      assert EntryExplained(s.redis, s.created, key);
      assert Recent(s, s.redis[key].id, key);
    }
  }

  predicate Recent(s: State, id: string, key: string)
    requires id in s.created
  {
    s.created[id].key == key && s.created[id].Stored() && s.clock < s.created[id].at + 24 * 60 * 60 * 1000
  }

  /** Row id no longer stands in the way of another row with its key: its key has expired or was never stored, and it
      is removed or anonymised. */
  predicate Cleared(s: State, id: string)
    requires id in s.created
  {
    && (s.created[id].Stored() ==> s.clock >= s.created[id].at + 24 * 60 * 60 * 1000)
    && (id in s.rows ==> id in s.anonymised)
  }

  /** In every reachable state a create inserts a row exactly when Redis and the database let it and no earlier row
      with its key stands in the way. */
  lemma CreatesIff(clock: int, events: seq<Event>, key: string, id: string, scheduled: bool, faults: Faults)
    requires id !in Run(Empty(clock), events).created
    ensures var s := Run(Empty(clock), events);
            id in CreateStep(s, key, id, scheduled, faults).0.created <==>
            && faults.getOk && faults.insertOk
            && forall c :: c in s.created && s.created[c].key == key ==> Cleared(s, c)
  {
    var s := Run(Empty(clock), events);
    InvariantHolds(clock, events);
    CheckFindsRecentRow(clock, events, key);
    NotInTheWay(s, key);
    CreateIdle(s, key, id, scheduled, faults);
  }

  lemma NotInTheWay(s: State, key: string)
    requires RowsAreCreated(s.clock, s.rows, s.created, s.anonymised)
    requires Live(s, key) <==> exists id :: id in s.created && Recent(s, id, key)
    ensures !Live(s, key) && !KeyTaken(s.rows, key) <==>
            forall c :: c in s.created && s.created[c].key == key ==> Cleared(s, c)
  {
    if forall c :: c in s.created && s.created[c].key == key ==> Cleared(s, c) {
      forall id | id in s.created ensures !Recent(s, id, key) {
        assert s.created[id].key == key ==> Cleared(s, id);
      }
      forall id | id in s.rows ensures s.rows[id].idempotencyKey != Some(key) {
        assert s.created[id].key == key ==> Cleared(s, id);
      }
    } else {
      var c :| c in s.created && s.created[c].key == key && !Cleared(s, c);
      if c in s.rows && c !in s.anonymised {
        assert s.rows[c].idempotencyKey == Some(key);
      } else {
        assert Recent(s, c, key);
      }
    }
  }

  /** What a create that inserts a row writes and answers: the row as requested, the key for 24 h unless Redis refuses
      it, one message in the notifications topic, or else in the retry topic, and the id, unless it stopped at Redis. */
  lemma CreateWrites(s: State, key: string, id: string, scheduled: bool, faults: Faults)
    requires id !in s.created && id in CreateStep(s, key, id, scheduled, faults).0.created
    ensures var (s', outcome) := CreateStep(s, key, id, scheduled, faults);
            && s'.clock == s.clock && s'.anonymised == s.anonymised
            && s'.rows == s.rows[id := Row(Some(key), s.clock, scheduled)]
            && s'.redis == (if faults.store.Refused? then s.redis
                            else s.redis[key := Entry(id, s.clock + 24 * 60 * 60 * 1000)])
            && s'.notificationsTopic == s.notificationsTopic + (if faults.store.Done? && faults.sendOk then [id] else [])
            && s'.retryTopic == s.retryTopic +
                 (if faults.store.Done? && !faults.sendOk && faults.fallbackOk then [id] else [])
            && outcome == (if faults.store.Done? then Returned(id) else Failed)
  {
    CreateIdle(s, key, id, scheduled, faults);
    InsertBranch(s, key, id, scheduled, faults);
  }

  /** A create that inserts nothing changes nothing. */
  lemma CreateIdle(s: State, key: string, id: string, scheduled: bool, faults: Faults)
    requires id !in s.created
    ensures id !in CreateStep(s, key, id, scheduled, faults).0.created ==>
              CreateStep(s, key, id, scheduled, faults).0 == s
    ensures id in CreateStep(s, key, id, scheduled, faults).0.created <==>
            faults.getOk && !Live(s, key) && faults.insertOk && !KeyTaken(s.rows, key)
  {
  }

  /** It is the latest row with the key that decides: those before it have been out of the way since it was created. */
  lemma LatestDecides(clock: int, events: seq<Event>, latest: string, id: string, scheduled: bool, faults: Faults)
    requires var s := Run(Empty(clock), events);
             id !in s.created && latest in s.created && IsLatest(s, latest)
    ensures var s := Run(Empty(clock), events);
            id in CreateStep(s, s.created[latest].key, id, scheduled, faults).0.created <==>
            faults.getOk && faults.insertOk && Cleared(s, latest)
  {
    var s := Run(Empty(clock), events);
    InvariantHolds(clock, events);
    var key := s.created[latest].key;
    CreatesIff(clock, events, key, id, scheduled, faults);
    forall c | c in s.created && s.created[c].key == key && c != latest ensures Cleared(s, c) {
      assert Before(s.created, c, latest);
      assert FarEnough(s.created[c], c in s.anonymised, s.created[latest].at);
    }
  }

  ghost predicate IsLatest(s: State, latest: string)
    requires latest in s.created
  {
    forall c :: c in s.created && c != latest && s.created[c].key == s.created[latest].key ==>
      s.created[c].nth < s.created[latest].nth
  }

  /** So within 24 h of a row a second one with its key can follow exactly when the key of the first was not stored
      and its user has been anonymised since. */
  lemma SecondWithinDayIff(clock: int, events: seq<Event>, latest: string, id: string, scheduled: bool, faults: Faults)
    requires var s := Run(Empty(clock), events);
             id !in s.created && latest in s.created && IsLatest(s, latest) &&
             s.clock < s.created[latest].at + 24 * 60 * 60 * 1000
    requires faults.getOk && faults.insertOk
    ensures var s := Run(Empty(clock), events);
            id in CreateStep(s, s.created[latest].key, id, scheduled, faults).0.created <==>
            !s.created[latest].Stored() && latest in s.anonymised
  {
    InvariantHolds(clock, events);
    LatestDecides(clock, events, latest, id, scheduled, faults);
  }

  const KEY_NOT_STORED := Faults(true, true, true, Refused, true, true)
  const NO_FAULTS := Faults(true, true, true, Done, true, true)

  /** A row whose key was not stored, after its user was anonymised. */
  function Unprotected(key: string): State {
    State(0, map[], map["a" := Row(None, 0, false)], [], [],
          map["a" := Creation(key, 0, KEY_NOT_STORED, 0)], {"a"})
  }

  lemma UnprotectedIsReached(key: string)
    ensures Run(Empty(0), [Create(key, "a", false, KEY_NOT_STORED), Anonymise({"a"})]) == Unprotected(key)
  {
    var create, anonymise := Create(key, "a", false, KEY_NOT_STORED), Anonymise({"a"});
    OneEvent(Empty(0), create);
    RunAppend(Empty(0), [create], anonymise);
    assert [create] + [anonymise] == [create, anonymise];
    var s1 := Step(Empty(0), create);
    assert s1.rows == map["a" := Row(Some(key), 0, false)];
    assert Step(s1, anonymise).rows == map["a" := Row(None, 0, false)];
  }

  /** Such a second row does occur: the key is not stored, and the user is then anonymised. */
  lemma SpacingNeedsStoredKey(key: string)
    ensures var s := Run(Empty(0), [Create(key, "a", false, KEY_NOT_STORED), Anonymise({"a"}),
                                    Create(key, "b", false, NO_FAULTS)]);
            && "a" in s.created && "b" in s.created
            && s.created["a"].key == s.created["b"].key == key
            && s.created["a"].at == s.created["b"].at
  {
    var before := [Create(key, "a", false, KEY_NOT_STORED), Anonymise({"a"})];
    var again := Create(key, "b", false, NO_FAULTS);
    UnprotectedIsReached(key);
    RunAppend(Empty(0), before, again);
    assert before + [again] == [Create(key, "a", false, KEY_NOT_STORED), Anonymise({"a"}), again];
    SecondOnUnprotected(key);
  }

  lemma SecondOnUnprotected(key: string)
    ensures Step(Unprotected(key), Create(key, "b", false, NO_FAULTS)).created ==
            map["a" := Creation(key, 0, KEY_NOT_STORED, 0), "b" := Creation(key, 0, NO_FAULTS, 1)]
  {
    assert "a" != "b" by { assert "a"[0] != "b"[0]; }
    assert !KeyTaken(Unprotected(key).rows, key);
  }

  lemma RunAppend(s: State, events: seq<Event>, e: Event)
    ensures Run(s, events + [e]) == Step(Run(s, events), e)
  {
    assert (events + [e])[..|events|] == events;
  }

  lemma OneEvent(s: State, e: Event)
    ensures Run(s, [e]) == Step(s, e)
  {
    RunAppend(s, [], e);
    assert [] + [e] == [e];
  }

  /** While the 24 h of a stored key last, every repeat returns the first row, or fails because Redis or the
      database did; either way nothing changes and nothing is published.  The row returned is in the notifications
      topic exactly if its create came back from storing the key and sent it there, and in the retry topic exactly if
      only the fallback went through. */
  lemma RepeatReturnsFirst(clock: int, events: seq<Event>, first: string, id: string, scheduled: bool, faults: Faults)
    requires var s := Run(Empty(clock), events);
             first in s.created && s.created[first].Stored() && s.clock < s.created[first].at + 24 * 60 * 60 * 1000
    ensures var s := Run(Empty(clock), events);
            && CreateStep(s, s.created[first].key, id, scheduled, faults) ==
               (s, if faults.getOk && faults.findOk then Returned(first) else Failed)
            && first in s.rows
            && (first in s.notificationsTopic <==>
                s.created[first].faults.store.Done? && s.created[first].faults.sendOk)
            && (first in s.retryTopic <==>
                s.created[first].faults.store.Done? && !s.created[first].faults.sendOk &&
                s.created[first].faults.fallbackOk)
  {
    var s := Run(Empty(clock), events);
    InvariantHolds(clock, events);
    assert KeyHeld(s.clock, s.redis, s.created, first);
    EachRowPublishedOnce(clock, events, first);
    assert first in s.notificationsTopic <==> multiset(s.notificationsTopic)[first] > 0;
    assert first in s.retryTopic <==> multiset(s.retryTopic)[first] > 0;
  }

  /** Both ways to miss the topics occur, and every repeat is then answered with a row that nobody will ever send. */
  lemma RepeatOfUnpublished(key: string, store: Write, id: string, scheduled: bool)
    requires !store.Refused?
    ensures var s := Run(Empty(0), [Create(key, "a", false, Faults(true, true, true, store, false, false))]);
            && s.notificationsTopic == s.retryTopic == []
            && CreateStep(s, key, id, scheduled, Faults(true, true, true, Done, true, true)) == (s, Returned("a"))
  {
    OneEvent(Empty(0), Create(key, "a", false, Faults(true, true, true, store, false, false)));
  }

  /** "Duplicate request detected but notification not found" is never answered, in any run. */
  lemma DuplicateAlwaysFound(clock: int, events: seq<Event>, key: string, id: string, scheduled: bool, faults: Faults)
    ensures CreateStep(Run(Empty(clock), events), key, id, scheduled, faults).1 != DuplicateNotFound
  {
    var s := Run(Empty(clock), events);
    InvariantHolds(clock, events);
    assert key in s.redis ==> EntryExplained(s.redis, s.created, key);
  }

  /** Any stored key equal to that of an unstored, unanonymised row of the last 90 days has expired. */
  lemma StoredTwinExpired(s: State, first: string, other: string)
    requires Ordered(s.clock, s.created) && Spaced(s.created, s.anonymised)
    requires first in s.created && !s.created[first].Stored() && first !in s.anonymised
    requires s.clock <= s.created[first].at + RETENTION_MS
    requires other in s.created && s.created[other].Stored() && s.created[other].key == s.created[first].key
    ensures s.clock >= s.created[other].at + IDEMPOTENCY_TTL_MS
  {
    assert s.created[other].nth != s.created[first].nth;
    assert Before(s.created, first, other) ==> FarEnough(s.created[first], first in s.anonymised, s.created[other].at);
    assert Before(s.created, other, first) ==> FarEnough(s.created[other], other in s.anonymised, s.created[first].at);
  }

  /** A row whose key could not be stored blocks its own repeats: until it is 90 days old or anonymised every
      repeat fails, changes nothing and so never publishes it. */
  lemma UnstoredKeyBlocksRepeats(clock: int, events: seq<Event>, first: string, id: string, scheduled: bool,
                                 faults: Faults)
    requires var s := Run(Empty(clock), events);
             first in s.created && !s.created[first].Stored() &&
             s.clock <= s.created[first].at + 90 * 24 * 60 * 60 * 1000 && first !in s.anonymised
    ensures var s := Run(Empty(clock), events);
            CreateStep(s, s.created[first].key, id, scheduled, faults) == (s, Failed)
  {
    var s := Run(Empty(clock), events);
    InvariantHolds(clock, events);
    var key := s.created[first].key;
    if key in s.redis {
      assert EntryExplained(s.redis, s.created, key);
      StoredTwinExpired(s, first, s.redis[key].id);
    }
    assert s.rows[first].idempotencyKey == Some(s.created[first].key);
  }

  // ----- The service

  class NotificationService {
    var clock: int
    var redis: map<string, Entry>
    var rows: map<string, Row>
    var notificationsTopic: seq<string>
    var retryTopic: seq<string>
    ghost var created: map<string, Creation>
    ghost var anonymised: set<string>

    ghost function View(): State
      reads this
    {
      State(clock, redis, rows, notificationsTopic, retryTopic, created, anonymised)
    }

    constructor (now: int)
      ensures View() == Empty(now)
    {
      clock, redis, rows := now, map[], map[];
      notificationsTopic, retryTopic := [], [];
      created, anonymised := map[], {};
    }

    method CheckIdempotency(key: string) returns (found: Option<string>)
      ensures found == if Live(View(), key) then Some(redis[key].id) else None
    {
      found := if key in redis && clock < redis[key].expiresAt then Some(redis[key].id) else None;
    }

    method PublishToKafka(id: string, faults: Faults)
      modifies this
      ensures View() == Publish(old(View()), id, faults)
      ensures notificationsTopic == old(notificationsTopic) + (if faults.sendOk then [id] else [])
      ensures retryTopic == old(retryTopic) + (if !faults.sendOk && faults.fallbackOk then [id] else [])
      ensures redis == old(redis) && rows == old(rows)
    {
      if faults.sendOk {
        notificationsTopic := notificationsTopic + [id];
      } else if faults.fallbackOk {
        retryTopic := retryTopic + [id];
      }
    }

    method Create(key: string, id: string, scheduled: bool, faults: Faults) returns (outcome: Outcome)
      modifies this
      ensures (View(), outcome) == CreateStep(old(View()), key, id, scheduled, faults)
    {
      if !faults.getOk {
        return Failed;
      }
      var existing := CheckIdempotency(key);
      if existing.Some? {
        if !faults.findOk {
          return Failed;
        }
        return if existing.value in rows then Returned(existing.value) else DuplicateNotFound;
      }
      if !faults.insertOk || KeyTaken(rows, key) {
        return Failed;
      }
      rows := rows[id := Row(Some(key), clock, scheduled)];
      created := created[id := NewCreation(old(View()), key, faults)];
      if !faults.store.Refused? {
        redis := redis[key := Entry(id, clock + IDEMPOTENCY_TTL_MS)];
      }
      if !faults.store.Done? {
        return Failed;
      }
      PublishToKafka(id, faults);
      outcome := Returned(id);
    }
  }
}
