/**
 The archival loops of src/data-pipeline/archival.service.ts: `archiveOldNotifications` and `archiveOldEvents`
 are one loop with different tables, statuses and cutoffs.

 Any number of archivers run on the same pair of tables.  Finding a batch and the archive-and-delete transaction
 are one step each, and any of them may fail; nobody else writes the tables.  The archive table is keyed by
 originalId, which its schema declares unique.
 */
module Archival {
  import opened Common

  const BATCH_SIZE := 1000

  datatype Row = Row(createdAt: int, status: string, data: string)

  datatype Policy = Policy(cutoff: int, statuses: set<string>)

  const NOTIFICATION_STATUSES := {"SENT", "FAILED", "DELIVERED"}
  const EVENT_STATUSES := {"completed", "failed"}

  const DAY_MS := 24 * 60 * 60 * 1000
  const NOTIFICATION_RETENTION_MS := 90 * DAY_MS
  const EVENT_RETENTION_MS := 365 * DAY_MS

  type Rows = map<string, Row>

  /** An archiver looks for a batch, holds the rows it found, or has found nothing and is done. */
  datatype Pc = Searching | Found(batch: Rows) | Finished

  datatype Archiver = Archiver(policy: Policy, pc: Pc, archived: nat, deleted: nat)

  datatype System = System(hot: Rows, archive: Rows, archivers: seq<Archiver>)

  datatype Event =
    | Find(i: nat, ids: set<string>)
    | FindFails(i: nat)
    | Commit(i: nat)
    | CommitFails(i: nat)

  function EligibleIds(hot: Rows, p: Policy): set<string> {
    set id | id in hot && hot[id].createdAt < p.cutoff && hot[id].status in p.statuses
  }

  /** An answer to `findMany` with `take: BATCH_SIZE`: any eligible rows, as many as there are up to the limit. */
  predicate IsBatch(ids: set<string>, eligible: set<string>) {
    ids <= eligible && |ids| == Min(BATCH_SIZE, |eligible|)
  }

  function Restrict(rows: Rows, ids: set<string>): Rows {
    map id | id in rows && id in ids :: rows[id]
  }

  /** `createMany` with skipDuplicates: rows already archived stay as they are. */
  function CreateMany(archive: Rows, batch: Rows): Rows {
    batch + archive
  }

  /** The `count` results of `createMany` and `deleteMany`. */
  function CreatedCount(archive: Rows, batch: Rows): nat {
    |batch.Keys - archive.Keys|
  }

  function DeletedCount(hot: Rows, batch: Rows): nat {
    |batch.Keys * hot.Keys|
  }

  /** The archiver after its transaction. */
  function Credited(a: Archiver, hot: Rows, archive: Rows, batch: Rows): Archiver {
    Archiver(a.policy, Searching, a.archived + CreatedCount(archive, batch), a.deleted + DeletedCount(hot, batch))
  }

  function Step(s: System, e: Event): System {
    if e.i >= |s.archivers| then s
    else
      var a := s.archivers[e.i];
      match e
      case Find(i, ids) =>
        if !a.pc.Searching? || !IsBatch(ids, EligibleIds(s.hot, a.policy)) then s
        else s.(archivers := s.archivers[i := a.(pc := if ids == {} then Finished else Found(Restrict(s.hot, ids)))])
      case FindFails(_) => s
      case Commit(i) =>
        if !a.pc.Found? then s
        else
          System(s.hot - a.pc.batch.Keys, CreateMany(s.archive, a.pc.batch),
                 s.archivers[i := Credited(a, s.hot, s.archive, a.pc.batch)])
      case CommitFails(i) =>
        if !a.pc.Found? then s else s.(archivers := s.archivers[i := a.(pc := Searching)])
  }

  function Run(s: System, events: seq<Event>): System {
    if events == [] then s
    else Step(Run(s, events[..|events| - 1]), events[|events| - 1])
  }

  predicate Fresh(s: System) {
    && s.hot.Keys !! s.archive.Keys
    && (forall i :: 0 <= i < |s.archivers| ==>
          s.archivers[i].pc.Searching? && s.archivers[i].archived == s.archivers[i].deleted == 0)
  }

  // ----- Conservation

  function TotalArchived(archivers: seq<Archiver>): nat {
    if archivers == [] then 0 else archivers[0].archived + TotalArchived(archivers[1..])
  }

  function TotalDeleted(archivers: seq<Archiver>): nat {
    if archivers == [] then 0 else archivers[0].deleted + TotalDeleted(archivers[1..])
  }

  lemma {:induction false} TotalsUpdate(archivers: seq<Archiver>, i: nat, a: Archiver)
    requires i < |archivers|
    ensures TotalArchived(archivers[i := a]) == TotalArchived(archivers) - archivers[i].archived + a.archived
    ensures TotalDeleted(archivers[i := a]) == TotalDeleted(archivers) - archivers[i].deleted + a.deleted
    decreases i
  {
    if i > 0 {
      assert archivers[i := a][1..] == archivers[1..][i - 1 := a];
      TotalsUpdate(archivers[1..], i - 1, a);
    } else {
      assert archivers[i := a][1..] == archivers[1..];
    }
  }

  lemma {:induction false} TotalsFresh(archivers: seq<Archiver>)
    requires forall i :: 0 <= i < |archivers| ==> archivers[i].archived == archivers[i].deleted == 0
    ensures TotalArchived(archivers) == TotalDeleted(archivers) == 0
    decreases |archivers|
  {
    if archivers != [] {
      TotalsFresh(archivers[1..]);
    }
  }

  /** The rows of both tables together; all is what they were at the start. */
  ghost predicate Conserved(s: System, all: Rows) {
    && s.hot.Keys !! s.archive.Keys
    && s.hot + s.archive == all
    && (forall i :: 0 <= i < |s.archivers| && s.archivers[i].pc.Found? ==>
          s.archivers[i].pc.batch.Keys <= all.Keys &&
          forall id :: id in s.archivers[i].pc.batch ==> s.archivers[i].pc.batch[id] == all[id])
  }

  /** Counters tell how many rows moved, and whoever is finished left nothing eligible behind. */
  ghost predicate Counted(s: System, archivedAtStart: nat) {
    && TotalArchived(s.archivers) == TotalDeleted(s.archivers) == |s.archive| - archivedAtStart
    && NothingLeft(s)
  }

  lemma SizeOfUnion(a: set<string>, b: set<string>)
    ensures |a + b| == |a| + |b - a|
  {
    assert a + b == a + (b - a);
  }

  lemma CommitMoves(hot: Rows, archive: Rows, batch: Rows, all: Rows)
    requires hot.Keys !! archive.Keys && hot + archive == all
    requires batch.Keys <= all.Keys && forall id :: id in batch ==> batch[id] == all[id]
    ensures (hot - batch.Keys).Keys !! CreateMany(archive, batch).Keys
    ensures (hot - batch.Keys) + CreateMany(archive, batch) == all
  {
    var hot', archive' := hot - batch.Keys, CreateMany(archive, batch);
    assert all.Keys == hot.Keys + archive.Keys;
    assert (hot' + archive').Keys == all.Keys;
  }

  lemma IdsElsewhere(hot: set<string>, archive: set<string>, batch: set<string>)
    requires hot !! archive && batch <= hot + archive
    ensures batch - archive == batch * hot
  {
  }

  /** The rows archived by a commit are the rows it deletes, and the archive grows by as many. */
  lemma CommitCounts(hot: Rows, archive: Rows, batch: Rows, all: Rows)
    requires hot.Keys !! archive.Keys && hot + archive == all && batch.Keys <= all.Keys
    requires all.Keys == hot.Keys + archive.Keys
    ensures CreatedCount(archive, batch) == DeletedCount(hot, batch)
    ensures |CreateMany(archive, batch)| == |archive| + CreatedCount(archive, batch)
  {
    IdsElsewhere(hot.Keys, archive.Keys, batch.Keys);
    CreateManyKeys(archive, batch);
    SizeOfUnion(archive.Keys, batch.Keys);
    MapSize(archive);
    MapSize(CreateMany(archive, batch));
  }

  lemma MapSize(rows: Rows)
    ensures |rows| == |rows.Keys|
  {
  }

  lemma CreateManyKeys(archive: Rows, batch: Rows)
    ensures CreateMany(archive, batch).Keys == archive.Keys + batch.Keys
  {
  }

  lemma FindConserves(s: System, i: nat, ids: set<string>, all: Rows)
    requires Conserved(s, all)
    ensures Conserved(Step(s, Find(i, ids)), all)
  {
    assert all.Keys == s.hot.Keys + s.archive.Keys;
  }

  lemma CommitConserves(s: System, i: nat, all: Rows)
    requires Conserved(s, all)
    ensures Conserved(Step(s, Commit(i)), all)
  {
    if i < |s.archivers| && s.archivers[i].pc.Found? {
      CommitMoves(s.hot, s.archive, s.archivers[i].pc.batch, all);
    }
  }

  /** Every step replaces at most one archiver; all but a commit leave its counters and the archive. */
  lemma OtherTotals(s: System, e: Event)
    requires !e.Commit?
    ensures Step(s, e).archive == s.archive
    ensures TotalArchived(Step(s, e).archivers) == TotalArchived(s.archivers)
    ensures TotalDeleted(Step(s, e).archivers) == TotalDeleted(s.archivers)
  {
    if e.i < |s.archivers| {
      var archivers := Step(s, e).archivers;
      TotalsUpdate(s.archivers, e.i, archivers[e.i]);
      assert archivers == s.archivers[e.i := archivers[e.i]];
    }
  }

  lemma CommitTotals(s: System, i: nat, all: Rows)
    requires Conserved(s, all) && i < |s.archivers| && s.archivers[i].pc.Found?
    ensures var moved := |Step(s, Commit(i)).archive| - |s.archive|;
            && TotalArchived(Step(s, Commit(i)).archivers) == TotalArchived(s.archivers) + moved
            && TotalDeleted(Step(s, Commit(i)).archivers) == TotalDeleted(s.archivers) + moved
  {
    var a := s.archivers[i];
    assert all.Keys == s.hot.Keys + s.archive.Keys;
    CommitCounts(s.hot, s.archive, a.pc.batch, all);
    TotalsUpdate(s.archivers, i, Credited(a, s.hot, s.archive, a.pc.batch));
  }

  /** The counters change only by a commit, by what it moved. */
  lemma StepTotals(s: System, e: Event, all: Rows)
    requires Conserved(s, all)
    ensures TotalArchived(Step(s, e).archivers) - TotalArchived(s.archivers) == |Step(s, e).archive| - |s.archive|
    ensures TotalDeleted(Step(s, e).archivers) - TotalDeleted(s.archivers) == |Step(s, e).archive| - |s.archive|
  {
    if !e.Commit? {
      OtherTotals(s, e);
    } else if e.i < |s.archivers| && s.archivers[e.i].pc.Found? {
      CommitTotals(s, e.i, all);
    }
  }

  ghost predicate NothingLeft(s: System) {
    forall i :: 0 <= i < |s.archivers| && s.archivers[i].pc.Finished? ==>
      EligibleIds(s.hot, s.archivers[i].policy) == {}
  }

  lemma StepLeavesNothing(s: System, e: Event)
    requires NothingLeft(s)
    ensures NothingLeft(Step(s, e))
  {
    HotShrinks(s, Step(s, e));
  }

  lemma StepCounts(s: System, e: Event, all: Rows, archivedAtStart: nat)
    requires Conserved(s, all) && Counted(s, archivedAtStart)
    ensures Counted(Step(s, e), archivedAtStart)
  {
    StepTotals(s, e, all);
    StepLeavesNothing(s, e);
  }

  lemma StepConserves(s: System, e: Event, all: Rows, archivedAtStart: nat)
    requires Conserved(s, all) && Counted(s, archivedAtStart)
    ensures Conserved(Step(s, e), all) && Counted(Step(s, e), archivedAtStart)
  {
    StepCounts(s, e, all, archivedAtStart);
    match e
    case Find(i, ids) => FindConserves(s, i, ids, all);
    case FindFails(_) =>
    case Commit(i) => CommitConserves(s, i, all);
    case CommitFails(i) =>
  }

  lemma HotShrinks(s: System, s': System)
    requires s'.hot.Keys <= s.hot.Keys && forall id :: id in s'.hot ==> s'.hot[id] == s.hot[id]
    ensures forall p :: EligibleIds(s.hot, p) == {} ==> EligibleIds(s'.hot, p) == {}
  {
    forall p | EligibleIds(s.hot, p) == {} ensures EligibleIds(s'.hot, p) == {} {
      assert EligibleIds(s'.hot, p) <= EligibleIds(s.hot, p);
    }
  }

  lemma {:induction false} RunConserves(s: System, events: seq<Event>)
    requires Fresh(s)
    ensures Conserved(Run(s, events), s.hot + s.archive)
    ensures Counted(Run(s, events), |s.archive|)
    decreases |events|
  {
    if events == [] {
      TotalsFresh(s.archivers);
    } else {
      RunConserves(s, events[..|events| - 1]);
      StepConserves(Run(s, events[..|events| - 1]), events[|events| - 1], s.hot + s.archive, |s.archive|);
    }
  }

  /** However archivers interleave and fail: every row is in exactly one table, with its contents; the archived and
      the deleted counters both sum to the number of rows moved, so no row is archived twice; and when an archiver
      is done no row is eligible for it any more. */
  lemma ArchivalConserves(s: System, events: seq<Event>)
    requires Fresh(s)
    ensures var s' := Run(s, events);
            && s'.hot.Keys !! s'.archive.Keys
            && s'.hot + s'.archive == s.hot + s.archive
            && TotalArchived(s'.archivers) == TotalDeleted(s'.archivers) == |s'.archive| - |s.archive| == |s.hot| - |s'.hot|
            && NothingLeft(s')
  {
    RunConserves(s, events);
    var s' := Run(s, events);
    assert (s.hot + s.archive).Keys == s.hot.Keys + s.archive.Keys;
    assert (s'.hot + s'.archive).Keys == s'.hot.Keys + s'.archive.Keys;
    assert |s.hot.Keys + s.archive.Keys| == |s.hot| + |s.archive|;
    assert |s'.hot.Keys + s'.archive.Keys| == |s'.hot| + |s'.archive|;
  }

  // ----- One archiver alone

  datatype Fault = NoFault | FindFault | CommitFault

  class ArchivalService {
    var hot: Rows
    var archive: Rows

    constructor (hot: Rows, archive: Rows)
      ensures this.hot == hot && this.archive == archive
    {
      this.hot, this.archive := hot, archive;
    }

    /** Any min(limit, |eligible|) of the eligible rows. */
    method TakeRows(eligible: set<string>, limit: nat) returns (ids: set<string>)
      ensures ids <= eligible && |ids| == Min(limit, |eligible|)
    {
      ids := {};
      var rest := eligible;
      while |ids| < limit && rest != {}
        invariant ids !! rest && ids + rest == eligible && |ids| <= limit
        decreases rest
      {
        var id :| id in rest;
        ids, rest := ids + {id}, rest - {id};
      }
      assert |eligible| == |ids| + |rest|;
    }

    /** The transaction: archive the rows found, then delete them. */
    method ArchiveBatch(ids: set<string>) returns (archived: nat, deleted: nat)
      requires ids <= hot.Keys && hot.Keys !! archive.Keys
      modifies this
      ensures hot == old(hot) - ids
      ensures ids != {} ==> hot.Keys < old(hot.Keys)
      ensures archive == CreateMany(old(archive), Restrict(old(hot), ids))
      ensures archived == deleted == |ids|
    {
      var batch := Restrict(hot, ids);
      RestrictCounts(hot, archive, ids);
      archived, deleted := CreatedCount(archive, batch), DeletedCount(hot, batch);
      archive := CreateMany(archive, batch);
      hot := hot - batch.Keys;
    }

    /** One round of the loop: find a batch, then archive and delete it. */
    method ArchiveRound(p: Policy, fault: Fault, archived: nat, deleted: nat, ghost start: System,
                        ghost moved: set<string>, ghost events: seq<Event>)
      returns (hasMore: bool, archived': nat, deleted': nat, ghost moved': set<string>, ghost events': seq<Event>)
      requires InLoop(start, hot, archive, moved, p, archived, deleted, events, true)
      modifies this
      ensures InLoop(start, hot, archive, moved', p, archived', deleted', events', hasMore)
      ensures fault.NoFault? && hasMore ==> hot.Keys < old(hot.Keys)
      ensures archived' - archived == deleted' - deleted ==
              if fault.NoFault? then Min(1000, |EligibleIds(old(hot), p)|) else 0
      ensures !hasMore ==> hot == old(hot)
    {
      hasMore, archived', deleted', moved', events' := true, archived, deleted, moved, events;
      if fault.FindFault? {
        AfterFindFault(start, hot, archive, moved, p, archived, deleted, events);
        events' := events + [FindFails(0)];
        return;
      }
      var ids := TakeRows(EligibleIds(hot, p), BATCH_SIZE);
      BatchIsHot(start, hot, archive, moved, p, ids);
      if ids == {} {
        AfterLastFind(start, hot, archive, moved, p, archived, deleted, events);
        hasMore, events' := false, events + [Find(0, {})];
        return;
      }
      if fault.CommitFault? {
        AfterFailedBatch(start, hot, archive, moved, p, archived, deleted, events, ids);
        events' := events + [Find(0, ids)] + [CommitFails(0)];
        return;
      }
      AfterBatch(start, hot, archive, moved, p, archived, deleted, events, ids);
      moved', events' := moved + ids, events + [Find(0, ids)] + [Commit(0)];
      archived', deleted' := CommitBatch(p, archived, deleted, ids, start, moved', events');
    }

    /** The rows found are moved and counted. */
    method CommitBatch(p: Policy, archived: nat, deleted: nat, ids: set<string>, ghost start: System,
                       ghost moved: set<string>, ghost events: seq<Event>)
      returns (archived': nat, deleted': nat)
      requires ids <= hot.Keys && hot.Keys !! archive.Keys
      requires InLoop(start, hot - ids, CreateMany(archive, Restrict(hot, ids)), moved, p, archived + |ids|,
                      deleted + |ids|, events, true)
      modifies this
      ensures InLoop(start, hot, archive, moved, p, archived', deleted', events, true)
      ensures ids != {} ==> hot.Keys < old(hot.Keys)
      ensures archived' == archived + |ids| && deleted' == deleted + |ids|
    {
      var a, d := ArchiveBatch(ids);
      archived', deleted' := archived + a, deleted + d;
    }

    /** The whole loop, while faults lists the failures of its first rounds: it ends, having moved exactly the
        eligible rows, and it is a run of the system above. */
    method ArchiveOld(p: Policy, faults: seq<Fault>) returns (archived: nat, deleted: nat, ghost events: seq<Event>)
      requires hot.Keys !! archive.Keys
      modifies this
      ensures hot == old(hot) - EligibleIds(old(hot), p)
      ensures archive == old(archive) + Restrict(old(hot), EligibleIds(old(hot), p))
      ensures archived == deleted == |EligibleIds(old(hot), p)|
      ensures Alone(hot, archive, p, Finished, archived, deleted) ==
              Run(Alone(old(hot), old(archive), p, Searching, 0, 0), events)
    {
      archived, deleted, events := 0, 0, [];
      ghost var start := Alone(hot, archive, p, Searching, 0, 0);
      ghost var moved: set<string> := {};
      var hasMore, round := true, 0;
      MovedNothing(start);
      while hasMore
        invariant round <= |faults|
        invariant InLoop(start, hot, archive, moved, p, archived, deleted, events, hasMore)
        decreases |faults| - round, hot.Keys, hasMore
      {
        var fault := if round < |faults| then faults[round] else NoFault;
        round := if round < |faults| then round + 1 else round;
        hasMore, archived, deleted, moved, events := ArchiveRound(p, fault, archived, deleted, start, moved, events);
      }
      MovedAll(start, hot, archive, moved, p);
    }

    /** Exactly the completed notifications of more than 90 days are moved, unchanged. */
    method ArchiveOldNotifications(now: int, faults: seq<Fault>) returns (archived: nat, deleted: nat)
      requires hot.Keys !! archive.Keys
      modifies this
      ensures hot + archive == old(hot) + old(archive) && hot.Keys !! archive.Keys
      ensures forall id :: id in old(hot) ==>
                (id !in hot <==> now - old(hot)[id].createdAt > 90 * 24 * 60 * 60 * 1000 &&
                                 old(hot)[id].status in {"SENT", "FAILED", "DELIVERED"})
      ensures archived == deleted == |old(hot)| - |hot|
    {
      var policy := Policy(now - NOTIFICATION_RETENTION_MS, NOTIFICATION_STATUSES);
      ghost var events;
      archived, deleted, events := ArchiveOld(policy, faults);
      ArchivalConserves(Alone(old(hot), old(archive), policy, Searching, 0, 0), events);
    }

    /** Exactly the completed or failed events of more than 365 days are moved, unchanged. */
    method ArchiveOldEvents(now: int, faults: seq<Fault>) returns (archived: nat, deleted: nat)
      requires hot.Keys !! archive.Keys
      modifies this
      ensures hot + archive == old(hot) + old(archive) && hot.Keys !! archive.Keys
      ensures forall id :: id in old(hot) ==>
                (id !in hot <==> now - old(hot)[id].createdAt > 365 * 24 * 60 * 60 * 1000 &&
                                 old(hot)[id].status in {"completed", "failed"})
      ensures archived == deleted == |old(hot)| - |hot|
    {
      var policy := Policy(now - EVENT_RETENTION_MS, EVENT_STATUSES);
      ghost var events;
      archived, deleted, events := ArchiveOld(policy, faults);
      ArchivalConserves(Alone(old(hot), old(archive), policy, Searching, 0, 0), events);
    }
  }

  /** The events so far are a run of the system that has come to these tables and counters. */
  ghost predicate RunSoFar(start: System, hot: Rows, archive: Rows, p: Policy, archived: nat, deleted: nat,
                           events: seq<Event>, hasMore: bool)
  {
    Run(start, events) == Alone(hot, archive, p, if hasMore then Searching else Finished, archived, deleted)
  }

  /** What was moved so far is counted, and is all there is to move if there is no more. */
  ghost predicate MovedSoFar(start: System, hot: Rows, archive: Rows, moved: set<string>, p: Policy, archived: nat,
                             deleted: nat, hasMore: bool)
  {
    && Moved(start, hot, archive, moved, p)
    && archived == deleted == |moved|
    && (!hasMore ==> EligibleIds(hot, p) == {})
  }

  /** The archiver before a round, or after its last one. */
  ghost predicate InLoop(start: System, hot: Rows, archive: Rows, moved: set<string>, p: Policy, archived: nat,
                         deleted: nat, events: seq<Event>, hasMore: bool)
  {
    && RunSoFar(start, hot, archive, p, archived, deleted, events, hasMore)
    && MovedSoFar(start, hot, archive, moved, p, archived, deleted, hasMore)
  }

  lemma AfterFindFault(start: System, hot: Rows, archive: Rows, moved: set<string>, p: Policy, archived: nat,
                       deleted: nat, events: seq<Event>)
    requires InLoop(start, hot, archive, moved, p, archived, deleted, events, true)
    ensures InLoop(start, hot, archive, moved, p, archived, deleted, events + [FindFails(0)], true)
  {
    AloneStep(start, events, FindFails(0));
  }

  /** What a find makes of the run. */
  lemma AfterFind(start: System, hot: Rows, archive: Rows, moved: set<string>, p: Policy, archived: nat,
                  deleted: nat, events: seq<Event>, ids: set<string>)
    requires InLoop(start, hot, archive, moved, p, archived, deleted, events, true)
    requires IsBatch(ids, EligibleIds(hot, p))
    ensures Run(start, events + [Find(0, ids)]) ==
            Alone(hot, archive, p, if ids == {} then Finished else Found(Restrict(hot, ids)), archived, deleted)
  {
    AloneStep(start, events, Find(0, ids));
    AloneFinds(hot, archive, p, archived, deleted, ids);
  }

  lemma AfterLastFind(start: System, hot: Rows, archive: Rows, moved: set<string>, p: Policy, archived: nat,
                      deleted: nat, events: seq<Event>)
    requires InLoop(start, hot, archive, moved, p, archived, deleted, events, true)
    requires IsBatch({}, EligibleIds(hot, p))
    ensures InLoop(start, hot, archive, moved, p, archived, deleted, events + [Find(0, {})], false)
  {
    AfterFind(start, hot, archive, moved, p, archived, deleted, events, {});
  }

  lemma AfterFailedBatch(start: System, hot: Rows, archive: Rows, moved: set<string>, p: Policy, archived: nat,
                         deleted: nat, events: seq<Event>, ids: set<string>)
    requires InLoop(start, hot, archive, moved, p, archived, deleted, events, true)
    requires IsBatch(ids, EligibleIds(hot, p)) && ids != {}
    ensures InLoop(start, hot, archive, moved, p, archived, deleted, events + [Find(0, ids)] + [CommitFails(0)], true)
  {
    AfterFind(start, hot, archive, moved, p, archived, deleted, events, ids);
    AfterFailure(start, hot, archive, p, archived, deleted, events + [Find(0, ids)], Restrict(hot, ids));
  }

  lemma AfterBatch(start: System, hot: Rows, archive: Rows, moved: set<string>, p: Policy, archived: nat,
                   deleted: nat, events: seq<Event>, ids: set<string>)
    requires InLoop(start, hot, archive, moved, p, archived, deleted, events, true)
    requires IsBatch(ids, EligibleIds(hot, p)) && ids != {}
    ensures InLoop(start, hot - ids, CreateMany(archive, Restrict(hot, ids)), moved + ids, p, archived + |ids|,
                   deleted + |ids|, events + [Find(0, ids)] + [Commit(0)], true)
  {
    AfterFind(start, hot, archive, moved, p, archived, deleted, events, ids);
    MovedMore(start, hot, archive, moved, p, ids);
    AfterCommit(start, hot, archive, p, archived, deleted, events + [Find(0, ids)], ids);
  }

  lemma BatchIsHot(start: System, hot: Rows, archive: Rows, moved: set<string>, p: Policy, ids: set<string>)
    requires Moved(start, hot, archive, moved, p) && ids <= EligibleIds(hot, p)
    ensures ids <= hot.Keys && hot.Keys !! archive.Keys
  {
  }

  lemma AfterFailure(start: System, hot: Rows, archive: Rows, p: Policy, archived: nat, deleted: nat, events: seq<Event>,
                     batch: Rows)
    requires Run(start, events) == Alone(hot, archive, p, Found(batch), archived, deleted)
    ensures Run(start, events + [CommitFails(0)]) == Alone(hot, archive, p, Searching, archived, deleted)
  {
    AloneStep(start, events, CommitFails(0));
    AloneCommits(hot, archive, p, archived, deleted, batch);
  }

  lemma AfterCommit(start: System, hot: Rows, archive: Rows, p: Policy, archived: nat, deleted: nat, events: seq<Event>,
                    ids: set<string>)
    requires Run(start, events) == Alone(hot, archive, p, Found(Restrict(hot, ids)), archived, deleted)
    requires ids <= hot.Keys && hot.Keys !! archive.Keys
    ensures Run(start, events + [Commit(0)]) ==
            Alone(hot - ids, CreateMany(archive, Restrict(hot, ids)), p, Searching, archived + |ids|, deleted + |ids|)
  {
    var batch := Restrict(hot, ids);
    AloneStep(start, events, Commit(0));
    AloneCommits(hot, archive, p, archived, deleted, batch);
    RestrictCounts(hot, archive, ids);
    assert Credited(Archiver(p, Found(batch), archived, deleted), hot, archive, batch) ==
           Archiver(p, Searching, archived + |ids|, deleted + |ids|);
  }

  lemma AloneFinds(hot: Rows, archive: Rows, p: Policy, archived: nat, deleted: nat, ids: set<string>)
    requires IsBatch(ids, EligibleIds(hot, p))
    ensures Step(Alone(hot, archive, p, Searching, archived, deleted), Find(0, ids)) ==
            Alone(hot, archive, p, if ids == {} then Finished else Found(Restrict(hot, ids)), archived, deleted)
  {
  }

  lemma AloneCommits(hot: Rows, archive: Rows, p: Policy, archived: nat, deleted: nat, batch: Rows)
    ensures var found := Alone(hot, archive, p, Found(batch), archived, deleted);
            && Step(found, CommitFails(0)) == Alone(hot, archive, p, Searching, archived, deleted)
            && Step(found, Commit(0)) ==
               System(hot - batch.Keys, CreateMany(archive, batch),
                      [Credited(Archiver(p, Found(batch), archived, deleted), hot, archive, batch)])
  {
    var a := Archiver(p, Found(batch), archived, deleted);
    SingletonUpdate(a, a.(pc := Searching));
    SingletonUpdate(a, Credited(a, hot, archive, batch));
  }

  lemma SingletonUpdate<T>(x: T, y: T)
    ensures [x][0 := y] == [y]
  {
  }

  lemma RestrictCounts(hot: Rows, archive: Rows, ids: set<string>)
    requires ids <= hot.Keys && hot.Keys !! archive.Keys
    ensures Restrict(hot, ids).Keys == ids
    ensures CreatedCount(archive, Restrict(hot, ids)) == DeletedCount(hot, Restrict(hot, ids)) == |ids|
    ensures hot - Restrict(hot, ids).Keys == hot - ids
  {
    assert Restrict(hot, ids).Keys == ids;
    assert ids - archive.Keys == ids && ids * hot.Keys == ids;
  }

  function Alone(hot: Rows, archive: Rows, p: Policy, pc: Pc, archived: nat, deleted: nat): System {
    System(hot, archive, [Archiver(p, pc, archived, deleted)])
  }

  lemma AloneStep(start: System, events: seq<Event>, e: Event)
    ensures Run(start, events + [e]) == Step(Run(start, events), e)
  {
    assert (events + [e])[..|events|] == events;
  }

  /** The eligible rows moved are gone from the hot table and in the archive. */
  ghost predicate Moved(start: System, hot: Rows, archive: Rows, moved: set<string>, p: Policy) {
    && start.hot.Keys !! start.archive.Keys
    && moved <= EligibleIds(start.hot, p)
    && hot == start.hot - moved
    && archive == start.archive + Restrict(start.hot, moved)
  }

  lemma MovedNothing(start: System)
    ensures start.hot - {} == start.hot
    ensures start.archive + Restrict(start.hot, {}) == start.archive
  {
  }

  lemma MovedHot(start: Rows, moved: set<string>, ids: set<string>)
    ensures start - moved - ids == start - (moved + ids)
  {
  }

  lemma MovedArchive(start: Rows, archive: Rows, moved: set<string>, ids: set<string>)
    requires start.Keys !! archive.Keys && ids <= (start - moved).Keys && moved <= start.Keys
    ensures CreateMany(archive + Restrict(start, moved), Restrict(start - moved, ids)) ==
            archive + Restrict(start, moved + ids)
  {
  }

  lemma MovedMore(start: System, hot: Rows, archive: Rows, moved: set<string>, p: Policy, ids: set<string>)
    requires Moved(start, hot, archive, moved, p) && ids <= EligibleIds(hot, p)
    ensures ids <= hot.Keys && hot.Keys !! archive.Keys
    ensures Moved(start, hot - ids, CreateMany(archive, Restrict(hot, ids)), moved + ids, p)
    ensures |moved + ids| == |moved| + |ids|
  {
    MovedHot(start.hot, moved, ids);
    MovedArchive(start.hot, start.archive, moved, ids);
    assert ids !! moved;
  }

  lemma MovedAll(start: System, hot: Rows, archive: Rows, moved: set<string>, p: Policy)
    requires Moved(start, hot, archive, moved, p) && EligibleIds(hot, p) == {}
    ensures moved == EligibleIds(start.hot, p)
  {
    assert forall id :: id in EligibleIds(start.hot, p) - moved ==> id in EligibleIds(hot, p);
    forall id | id in EligibleIds(start.hot, p) ensures id in moved {
      assert id !in EligibleIds(start.hot, p) - moved;
    }
  }
}
