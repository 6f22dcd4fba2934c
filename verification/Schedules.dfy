/**
 The jobs that serve cron ticks: scheduled backups (scheduler/backup_job.go with
 repository/schedule_repository.go) and scheduled VM actions (scheduler/scheduled_action_job.go).

 Clock readings, the outcome of database writes and the outcome of the work itself are parameters.
 */
module Schedules {
  import opened Prelude
  import opened Cron
  import Backups

  type Id = nat

  // ==================== scheduled backups ====================

  datatype Schedule = Schedule(
    node: string, spec: Option<Spec>, isActive: bool, retentionCount: int,
    lastRunAt: Option<int>, nextRunAt: Option<int>)

  /** One backup started: the tick it serves, the poll that found it due, when, and whether the row was advanced. */
  datatype Firing = Firing(tick: int, polledAt: int, startedAt: int, recorded: bool)

  /** What the service does to the tables when a backup is started. */
  datatype Outcome = NothingStored | Stored(id: Backups.Id, now: int, fileIds: set<Backups.FileId>, completes: bool)

  predicate Due(s: Schedule, dbNow: int) {
    s.isActive && s.nextRunAt.Some? && s.nextRunAt.value <= dbNow
  }

  /** One poll of the job, as far as one schedule is concerned. */
  datatype Poll = Poll(dbNow: int, now: int, writes: bool)

  /** The firings of one poll: none, or the one of the tick in next_run_at. */
  function Firings(s: Schedule, calendar: int -> Civil, p: Poll): seq<Firing> {
    if Due(s, p.dbNow) && NextRun(s.spec, calendar, s.nextRunAt.value).Some? then
      [Firing(s.nextRunAt.value, p.dbNow, p.now, p.writes)]
    else []
  }

  function Advanced(s: Schedule, calendar: int -> Civil, p: Poll): Schedule {
    if Firings(s, calendar, p) != [] && p.writes then
      s.(lastRunAt := Some(p.now), nextRunAt := NextRun(s.spec, calendar, s.nextRunAt.value))
    else s
  }

  /** A loop over rows has turned was into goal everywhere but in the remaining rows. */
  ghost predicate Between<V(!new)>(was: map<Id, V>, goal: map<Id, V>, rows: map<Id, V>, remaining: set<Id>) {
    && was.Keys == goal.Keys == rows.Keys && remaining <= was.Keys
    && forall id :: id in was ==> rows[id] == if id in remaining then was[id] else goal[id]
  }

  lemma BetweenStep<V(!new)>(was: map<Id, V>, goal: map<Id, V>, rows: map<Id, V>, remaining: set<Id>, id: Id)
    requires Between(was, goal, rows, remaining) && id in remaining
    ensures rows[id] == was[id] && Between(was, goal, rows[id := goal[id]], remaining - {id})
  {
  }

  /** The backup is stored under the next version, if its row can be inserted, and then the limit is enforced. */
  ghost predicate BackedUp(before: Backups.Tables, after: Backups.Tables, s: Schedule, outcome: Outcome) {
    exists stored :: StoredAs(before, stored, s.node, outcome) && Limited(stored, after, s.node, s.retentionCount)
  }

  ghost predicate StoredAs(before: Backups.Tables, stored: Backups.Tables, node: string, outcome: Outcome) {
    if outcome.NothingStored? || outcome.id in before.backups then stored == before
    else
      var fits := outcome.fileIds !! before.files.Keys;
      && outcome.id in stored.backups && stored.backups == before.backups[outcome.id := stored.backups[outcome.id]]
      && RowOk(before.backups, stored.backups[outcome.id], node, outcome, fits)
      && stored.files == if fits then before.files + (map f | f in outcome.fileIds :: outcome.id) else before.files
  }

  ghost predicate RowOk(before: Backups.Table, row: Backups.Backup, node: string, outcome: Outcome, fits: bool)
    requires outcome.Stored?
  {
    && row.node == node && Backups.IsNextVersion(before, node, row.version)
    && row.kind == Backups.Scheduled && row.createdAt == outcome.now
    && (row.completed <==> outcome.completes && outcome.fileIds != {} && fits)
  }

  ghost predicate Limited(stored: Backups.Tables, after: Backups.Tables, node: string, limit: int) {
    && after.backups == Backups.Retained(stored.backups, node, limit)
    && after.files == Backups.WithBackup(stored.files, after.backups)
  }

  /** A poll backs up some schedules, one after the other. */
  ghost predicate Polled(before: Backups.Tables, after: Backups.Tables, order: seq<Id>, schedules: map<Id, Schedule>,
                         outcomes: Id -> Outcome)
    requires forall id :: id in order ==> id in schedules
    decreases |order|
  {
    if order == [] then after == before
    else
      var last := order[|order| - 1];
      exists mid :: Polled(before, mid, order[..|order| - 1], schedules, outcomes)
        && BackedUp(mid, after, schedules[last], outcomes(last))
  }

  lemma PolledOneMore(before: Backups.Tables, mid: Backups.Tables, after: Backups.Tables, order: seq<Id>, id: Id,
                      schedules: map<Id, Schedule>, outcomes: Id -> Outcome)
    requires (forall i :: i in order ==> i in schedules) && id in schedules
    requires Polled(before, mid, order, schedules, outcomes) && BackedUp(mid, after, schedules[id], outcomes(id))
    ensures Polled(before, after, order + [id], schedules, outcomes)
  {
    var longer := order + [id];
    assert longer[..|longer| - 1] == order && longer[|longer| - 1] == id;
    assert Polled(before, mid, longer[..|longer| - 1], schedules, outcomes);
  }

  /** The order has those of the schedules handled so far that fired, each once. */
  ghost predicate FiredFor(order: seq<Id>, schedules: map<Id, Schedule>, calendar: int -> Civil, polls: Id -> Poll,
                           handled: set<Id>)
  {
    && Distinct(order)
    && forall id :: id in order <==>
         id in schedules && id in handled && Firings(schedules[id], calendar, polls(id)) != []
  }

  lemma FiredForOneMore(order: seq<Id>, schedules: map<Id, Schedule>, calendar: int -> Civil, polls: Id -> Poll,
                        due: set<Id>, remaining: set<Id>, id: Id)
    requires FiredFor(order, schedules, calendar, polls, due - remaining)
    requires id in schedules && id in remaining && remaining <= due
    ensures FiredFor(if Firings(schedules[id], calendar, polls(id)) == [] then order else order + [id],
                     schedules, calendar, polls, due - (remaining - {id}))
  {
  }

  /** And they were backed up in this order. */
  ghost predicate InOrder(before: Backups.Tables, after: Backups.Tables, order: seq<Id>, schedules: map<Id, Schedule>,
                          calendar: int -> Civil, polls: Id -> Poll, outcomes: Id -> Outcome, handled: set<Id>)
  {
    FiredFor(order, schedules, calendar, polls, handled) && Polled(before, after, order, schedules, outcomes)
  }

  lemma InOrderOneMore(before: Backups.Tables, mid: Backups.Tables, after: Backups.Tables, order: seq<Id>,
                       schedules: map<Id, Schedule>, calendar: int -> Civil, polls: Id -> Poll, outcomes: Id -> Outcome,
                       due: set<Id>, remaining: set<Id>, id: Id)
    requires InOrder(before, mid, order, schedules, calendar, polls, outcomes, due - remaining)
    requires id in schedules && id in remaining && remaining <= due
    requires if Firings(schedules[id], calendar, polls(id)) == [] then after == mid
             else BackedUp(mid, after, schedules[id], outcomes(id))
    ensures InOrder(before, after, if Firings(schedules[id], calendar, polls(id)) == [] then order else order + [id],
                    schedules, calendar, polls, outcomes, due - (remaining - {id}))
  {
    FiredForOneMore(order, schedules, calendar, polls, due, remaining, id);
    if Firings(schedules[id], calendar, polls(id)) != [] {
      PolledOneMore(before, mid, after, order, id, schedules, outcomes);
    }
  }

  class BackupJob {
    var schedules: map<Id, Schedule>
    var fired: map<Id, seq<Firing>>
    const repository: Backups.Repository

    constructor (schedules: map<Id, Schedule>, repository: Backups.Repository)
      ensures this.schedules == schedules && this.repository == repository
      ensures fired == map id | id in schedules :: []
    {
      this.schedules, this.repository := schedules, repository;
      fired := map id | id in schedules :: [];
    }

    ghost predicate Valid()
      reads this, repository
    {
      fired.Keys == schedules.Keys && repository.Valid()
    }

    method ListDue(dbNow: int) returns (due: map<Id, Schedule>)
      ensures forall id :: id in due <==> id in schedules && Due(schedules[id], dbNow)
      ensures forall id :: id in due ==> due[id] == schedules[id]
    {
      due := map[];
      var remaining := schedules.Keys;
      while remaining != {}
        invariant remaining <= schedules.Keys
        invariant forall id :: id in due <==> id in schedules && id !in remaining && Due(schedules[id], dbNow)
        invariant forall id :: id in due ==> due[id] == schedules[id]
        decreases remaining
      {
        var id :| id in remaining;
        remaining := remaining - {id};
        if Due(schedules[id], dbNow) { due := due[id := schedules[id]]; }
      }
    }

    method UpdateNextRun(id: Id, lastRun: int, nextRun: int, writes: bool) returns (ok: bool)
      requires id in schedules
      modifies this`schedules
      ensures ok == writes
      ensures schedules == if writes
        then old(schedules)[id := old(schedules)[id].(lastRunAt := Some(lastRun), nextRunAt := Some(nextRun))]
        else old(schedules)
    {
      if writes {
        schedules := schedules[id := schedules[id].(lastRunAt := Some(lastRun), nextRunAt := Some(nextRun))];
      }
      return writes;
    }

    method ProcessSchedule(id: Id, schedule: Schedule, calendar: int -> Civil, p: Poll, outcome: Outcome)
      requires Valid() && id in schedules && schedules[id] == schedule && Due(schedule, p.dbNow)
      modifies this`schedules, this`fired, repository
      ensures Valid()
      ensures schedules == old(schedules)[id := Advanced(schedule, calendar, p)]
      ensures fired == old(fired)[id := old(fired)[id] + Firings(schedule, calendar, p)]
      // a schedule that cannot be advanced touches no backup; otherwise one is stored and the limit holds afterwards
      ensures if Firings(schedule, calendar, p) == [] then repository.Contents() == old(repository.Contents())
              else BackedUp(old(repository.Contents()), repository.Contents(), schedule, outcome)
    {
      var baseTime := if schedule.nextRunAt.Some? then schedule.nextRunAt.value else p.now;
      var nextRun := ComputeNextRun(schedule.spec, calendar, baseTime);
      if nextRun.None? {
        assert fired[id] + [] == fired[id];
        assert schedules == schedules[id := schedule] && fired == fired[id := fired[id]];
        return;
      }
      var ok := UpdateNextRun(id, p.now, nextRun.value, p.writes);
      fired := fired[id := fired[id] + [Firing(baseTime, p.dbNow, p.now, ok)]];
      if outcome.Stored? {
        var version := repository.CreateBackup(schedule.node, Backups.Scheduled, outcome.id, outcome.now, outcome.fileIds,
                                               outcome.completes);
      }
      ghost var stored := repository.Contents();
      assert StoredAs(old(repository.Contents()), stored, schedule.node, outcome);
      repository.EnforceRetention(schedule.node, schedule.retentionCount);
      assert Limited(stored, repository.Contents(), schedule.node, schedule.retentionCount);
      assert old(schedules)[id := schedule] == old(schedules);
    }

    /** polls(id) and outcomes(id) are what happens to a schedule if it is found due. */
    method Run(calendar: int -> Civil, dbNow: int, polls: Id -> Poll, outcomes: Id -> Outcome)
      returns (ghost order: seq<Id>)
      requires Valid() && forall id :: id in schedules ==> polls(id).dbNow == dbNow
      modifies this`schedules, this`fired, repository
      ensures Valid() && schedules.Keys == old(schedules.Keys)
      ensures forall id :: id in schedules ==>
        && schedules[id] == Advanced(old(schedules)[id], calendar, polls(id))
        && fired[id] == old(fired)[id] + Firings(old(schedules)[id], calendar, polls(id))
      // the schedules fired for, in the order in which they were backed up
      ensures Distinct(order)
      ensures forall id :: id in order <==>
        id in old(schedules) && Firings(old(schedules)[id], calendar, polls(id)) != []
      ensures Polled(old(repository.Contents()), repository.Contents(), order, old(schedules), outcomes)
    {
      order := [];
      var due := ListDue(dbNow);
      ghost var was, wasFired := schedules, fired;
      ghost var advanced := map id | id in was :: Advanced(was[id], calendar, polls(id));
      ghost var allFired := map id | id in was :: wasFired[id] + Firings(was[id], calendar, polls(id));
      assert forall id :: id in was && id !in due ==> advanced[id] == was[id] && allFired[id] == wasFired[id];
      var remaining := due.Keys;
      while remaining != {}
        invariant Valid() && remaining <= due.Keys
        invariant Between(was, advanced, schedules, remaining) && Between(wasFired, allFired, fired, remaining)
        invariant InOrder(old(repository.Contents()), repository.Contents(), order, was, calendar, polls, outcomes,
                          due.Keys - remaining)
        decreases remaining
      {
        var id :| id in remaining;
        ghost var mid := repository.Contents();
        BetweenStep(was, advanced, schedules, remaining, id);
        BetweenStep(wasFired, allFired, fired, remaining, id);
        ProcessSchedule(id, due[id], calendar, polls(id), outcomes(id));
        InOrderOneMore(old(repository.Contents()), mid, repository.Contents(), order, was, calendar, polls, outcomes,
                       due.Keys, remaining, id);
        order := if Firings(was[id], calendar, polls(id)) == [] then order else order + [id];
        remaining := remaining - {id};
      }
    }
  }

  /** What a poll adds are backups of schedules it fired for, and what it deletes are scheduled ones of their nodes. */
  ghost predicate OnlyOf(before: Backups.Tables, after: Backups.Tables, order: seq<Id>, schedules: map<Id, Schedule>,
                         outcomes: Id -> Outcome)
    requires forall id :: id in order ==> id in schedules
  {
    && (forall x :: x in after.backups && (x !in before.backups || after.backups[x] != before.backups[x]) ==>
          exists id :: id in order && AddedFor(x, after.backups[x], schedules[id], outcomes(id)))
    && (forall x :: x in before.backups && (x !in after.backups || after.backups[x] != before.backups[x]) ==>
          exists id :: id in order && DeletedFor(before.backups[x], schedules[id]))
    && (forall f :: f in after.files && (f !in before.files || after.files[f] != before.files[f]) ==>
          exists id :: id in order && FileAddedFor(f, after.files[f], outcomes(id)))
  }

  predicate AddedFor(x: Backups.Id, row: Backups.Backup, s: Schedule, outcome: Outcome) {
    && outcome.Stored? && x == outcome.id && row.createdAt == outcome.now
    && row.node == s.node && row.kind == Backups.Scheduled
  }

  predicate DeletedFor(row: Backups.Backup, s: Schedule) {
    row.node == s.node && row.kind == Backups.Scheduled && s.retentionCount > 0
  }

  predicate FileAddedFor(f: Backups.FileId, backup: Backups.Id, outcome: Outcome) {
    outcome.Stored? && f in outcome.fileIds && backup == outcome.id
  }

  /** The same for one schedule. */
  ghost predicate OnlyFor(before: Backups.Tables, after: Backups.Tables, s: Schedule, outcome: Outcome) {
    && (forall x :: x in after.backups && x !in before.backups ==> AddedFor(x, after.backups[x], s, outcome))
    && (forall x :: x in before.backups && x !in after.backups ==> DeletedFor(before.backups[x], s))
    && (forall x :: x in before.backups && x in after.backups ==> after.backups[x] == before.backups[x])
    && (forall f :: f in after.files && (f !in before.files || after.files[f] != before.files[f]) ==>
          FileAddedFor(f, after.files[f], outcome))
  }

  lemma BackedUpOnly(before: Backups.Tables, after: Backups.Tables, s: Schedule, outcome: Outcome)
    requires BackedUp(before, after, s, outcome)
    ensures OnlyFor(before, after, s, outcome)
  {
  }

  /**
   A poll adds only scheduled backups of the schedules it fired for, with their files, and deletes only scheduled
   backups of nodes for which it fired with a limit. One that fires for none leaves the tables as they are.
   */
  lemma {:induction false} PollTouchesOnlyDue(before: Backups.Tables, after: Backups.Tables, order: seq<Id>,
                                              schedules: map<Id, Schedule>, outcomes: Id -> Outcome)
    requires (forall id :: id in order ==> id in schedules) && Polled(before, after, order, schedules, outcomes)
    ensures OnlyOf(before, after, order, schedules, outcomes)
    ensures order == [] ==> after == before
    decreases |order|
  {
    if order == [] {
    } else {
      var earlier, last := order[..|order| - 1], order[|order| - 1];
      var mid :| Polled(before, mid, earlier, schedules, outcomes)
        && BackedUp(mid, after, schedules[last], outcomes(last));
      PollTouchesOnlyDue(before, mid, earlier, schedules, outcomes);
      BackedUpOnly(mid, after, schedules[last], outcomes(last));
      OnlyOfOneMore(before, mid, after, order, schedules, outcomes);
    }
  }

  lemma OnlyOfOneMore(before: Backups.Tables, mid: Backups.Tables, after: Backups.Tables, order: seq<Id>,
                      schedules: map<Id, Schedule>, outcomes: Id -> Outcome)
    requires order != [] && forall id :: id in order ==> id in schedules
    requires OnlyOf(before, mid, order[..|order| - 1], schedules, outcomes)
    requires OnlyFor(mid, after, schedules[order[|order| - 1]], outcomes(order[|order| - 1]))
    ensures OnlyOf(before, after, order, schedules, outcomes)
  {
    var earlier, last := order[..|order| - 1], order[|order| - 1];
    forall x | x in after.backups && (x !in before.backups || after.backups[x] != before.backups[x])
      ensures exists id :: id in order && AddedFor(x, after.backups[x], schedules[id], outcomes(id))
    {
      if x in mid.backups {
        var id :| id in earlier && AddedFor(x, mid.backups[x], schedules[id], outcomes(id));
        assert id in order;
      } else {
        assert last in order && AddedFor(x, after.backups[x], schedules[last], outcomes(last));
      }
    }
    forall x | x in before.backups && (x !in after.backups || after.backups[x] != before.backups[x])
      ensures exists id :: id in order && DeletedFor(before.backups[x], schedules[id])
    {
      if x in mid.backups && mid.backups[x] == before.backups[x] {
        assert last in order && DeletedFor(mid.backups[x], schedules[last]);
      } else {
        var id :| id in earlier && DeletedFor(before.backups[x], schedules[id]);
        assert id in order;
      }
    }
    FilesOfOneMore(before, mid, after, order, outcomes);
  }

  lemma FilesOfOneMore(before: Backups.Tables, mid: Backups.Tables, after: Backups.Tables, order: seq<Id>,
                       outcomes: Id -> Outcome)
    requires order != []
    requires forall f :: f in mid.files && (f !in before.files || mid.files[f] != before.files[f]) ==>
      exists id :: id in order[..|order| - 1] && FileAddedFor(f, mid.files[f], outcomes(id))
    requires forall f :: f in after.files && (f !in mid.files || after.files[f] != mid.files[f]) ==>
      FileAddedFor(f, after.files[f], outcomes(order[|order| - 1]))
    ensures forall f :: f in after.files && (f !in before.files || after.files[f] != before.files[f]) ==>
      exists id :: id in order && FileAddedFor(f, after.files[f], outcomes(id))
  {
    var earlier, last := order[..|order| - 1], order[|order| - 1];
    forall f | f in after.files && (f !in before.files || after.files[f] != before.files[f])
      ensures exists id :: id in order && FileAddedFor(f, after.files[f], outcomes(id))
    {
      if f in mid.files && after.files[f] == mid.files[f] {
        var id :| id in earlier && FileAddedFor(f, mid.files[f], outcomes(id));
        assert id in order;
      } else {
        assert last in order && FileAddedFor(f, after.files[f], outcomes(last));
      }
    }
  }

  // ---------- what a poll leaves ----------

  /** No later schedule of the order is of the same node. */
  ghost predicate LastOfNode(order: seq<Id>, schedules: map<Id, Schedule>, k: nat)
    requires (forall id :: id in order ==> id in schedules) && k < |order|
  {
    forall j :: k < j < |order| ==> schedules[order[j]].node != schedules[order[k]].node
  }

  lemma LastOfPrefix(order: seq<Id>, schedules: map<Id, Schedule>, k: nat, n: nat)
    requires (forall id :: id in order ==> id in schedules) && k < n <= |order| && LastOfNode(order, schedules, k)
    ensures LastOfNode(order[..n], schedules, k)
    ensures n < |order| ==> schedules[order[n]].node != schedules[order[k]].node
  {
  }

  lemma LimitHolds(before: Backups.Tables, after: Backups.Tables, s: Schedule, outcome: Outcome)
    requires BackedUp(before, after, s, outcome) && s.retentionCount > 0
    ensures |Backups.ScheduledOf(after.backups, s.node)| <= s.retentionCount
  {
    var stored :| StoredAs(before, stored, s.node, outcome) && Limited(stored, after, s.node, s.retentionCount);
    Backups.RetentionKeepsNewest(stored.backups, s.node, s.retentionCount);
  }

  lemma OtherNodeKept(before: Backups.Tables, after: Backups.Tables, s: Schedule, outcome: Outcome, node: string)
    requires BackedUp(before, after, s, outcome) && node != s.node
    ensures Backups.ScheduledOf(after.backups, node) == Backups.ScheduledOf(before.backups, node)
  {
    var stored :| StoredAs(before, stored, s.node, outcome) && Limited(stored, after, s.node, s.retentionCount);
    var t := Backups.ScheduledOf(stored.backups, node);
    assert t == Backups.ScheduledOf(before.backups, node);
    assert Backups.ScheduledOf(after.backups, node) == t;
  }

  /** After every poll the limit holds of each node it fired for: that of the last schedule of the node it fired for. */
  lemma {:induction false} PollKeepsLimits(before: Backups.Tables, after: Backups.Tables, order: seq<Id>,
                                           schedules: map<Id, Schedule>, outcomes: Id -> Outcome, k: nat)
    requires (forall id :: id in order ==> id in schedules) && Polled(before, after, order, schedules, outcomes)
    requires k < |order| && schedules[order[k]].retentionCount > 0
    requires LastOfNode(order, schedules, k)
    ensures |Backups.ScheduledOf(after.backups, schedules[order[k]].node)| <= schedules[order[k]].retentionCount
    decreases |order|
  {
    var n := |order| - 1;
    var mid :| Polled(before, mid, order[..n], schedules, outcomes)
      && BackedUp(mid, after, schedules[order[n]], outcomes(order[n]));
    if k == n {
      LimitHolds(mid, after, schedules[order[n]], outcomes(order[n]));
    } else {
      LastOfPrefix(order, schedules, k, n);
      PollKeepsLimits(before, mid, order[..n], schedules, outcomes, k);
      OtherNodeKept(mid, after, schedules[order[n]], outcomes(order[n]), schedules[order[k]].node);
    }
  }

  /** The file rows left are those that were there, and the new ones if they fit, of the backups that are left. */
  lemma FilesAfterBackup(before: Backups.Tables, after: Backups.Tables, s: Schedule, outcome: Outcome,
                         f: Backups.FileId)
    requires BackedUp(before, after, s, outcome) && outcome.Stored? && outcome.id !in before.backups
    ensures var fits := outcome.fileIds !! before.files.Keys;
      && (f in after.files <==>
            (f in before.files && before.files[f] in after.backups)
            || (fits && f in outcome.fileIds && outcome.id in after.backups))
      && (f in after.files ==> after.files[f] == if f in before.files then before.files[f] else outcome.id)
  {
  }

  /** The backup gets its rows, under IDs that are new, and is newer than all that are there. */
  ghost predicate Works(before: Backups.Tables, outcome: Outcome) {
    && outcome.Stored? && outcome.completes && outcome.fileIds != {}
    && outcome.id !in before.backups && outcome.fileIds !! before.files.Keys
    && forall x :: x in before.backups ==> before.backups[x].createdAt < outcome.now
  }

  predicate Apart(earlier: Outcome, later: Outcome) {
    && earlier.Stored? && later.Stored?
    && earlier.id != later.id && earlier.fileIds !! later.fileIds && earlier.now < later.now
  }

  ghost predicate AllWork(before: Backups.Tables, order: seq<Id>, outcomes: Id -> Outcome) {
    && (forall k :: 0 <= k < |order| ==> Works(before, outcomes(order[k])))
    && forall j, k :: 0 <= j < k < |order| ==> Apart(outcomes(order[j]), outcomes(order[k]))
  }

  /** The newest backup of the node is the one of this outcome; it is completed and has its files. */
  ghost predicate NewestIsWhole(t: Backups.Tables, node: string, outcome: Outcome)
    requires outcome.Stored?
  {
    && outcome.id in t.backups && t.backups[outcome.id].node == node
    && t.backups[outcome.id].completed && t.backups[outcome.id].createdAt == outcome.now
    && (forall y :: y in Backups.OfNode(t.backups, node) && y != outcome.id ==> t.backups[y].createdAt < outcome.now)
    && forall f :: f in outcome.fileIds ==> f in t.files && t.files[f] == outcome.id
  }

  lemma WorkingBackupIsWhole(before: Backups.Tables, after: Backups.Tables, s: Schedule, outcome: Outcome)
    requires BackedUp(before, after, s, outcome) && Works(before, outcome)
    ensures NewestIsWhole(after, s.node, outcome)
  {
    var stored :| StoredAs(before, stored, s.node, outcome) && Limited(stored, after, s.node, s.retentionCount);
    forall y | y in Backups.OfNode(stored.backups, s.node) && y != outcome.id
      ensures Backups.Newer(stored.backups, outcome.id, y)
    {
      assert y in before.backups;
    }
    Backups.NewestIsRetained(stored.backups, s.node, s.retentionCount, outcome.id);
  }

  /** A backup of another node changes nothing about it. */
  lemma OtherBackupKeepsWhole(before: Backups.Tables, after: Backups.Tables, s: Schedule, outcome: Outcome, node: string,
                              earlier: Outcome)
    requires BackedUp(before, after, s, outcome) && node != s.node
    requires earlier.Stored? && NewestIsWhole(before, node, earlier)
    ensures NewestIsWhole(after, node, earlier)
  {
    var stored :| StoredAs(before, stored, s.node, outcome) && Limited(stored, after, s.node, s.retentionCount);
    assert stored.backups[earlier.id] == before.backups[earlier.id];
    assert earlier.id in after.backups;
    forall y | y in Backups.OfNode(after.backups, node) ensures y in Backups.OfNode(before.backups, node) {
      assert y in stored.backups;
    }
  }

  /** What has been backed up so far leaves the next backup new, apart and newest. */
  lemma StillWorks(before: Backups.Tables, mid: Backups.Tables, order: seq<Id>, schedules: map<Id, Schedule>,
                   outcomes: Id -> Outcome, n: nat)
    requires n < |order| && AllWork(before, order, outcomes) && forall id :: id in order ==> id in schedules
    requires OnlyOf(before, mid, order[..n], schedules, outcomes)
    ensures Works(mid, outcomes(order[n]))
  {
    var next := outcomes(order[n]);
    assert Works(before, next);
    forall x | x in mid.backups ensures mid.backups[x].createdAt < next.now && x != next.id {
      if x !in before.backups || mid.backups[x] != before.backups[x] {
        var id :| id in order[..n] && AddedFor(x, mid.backups[x], schedules[id], outcomes(id));
        var j :| 0 <= j < n && order[j] == id;
        assert Apart(outcomes(order[j]), next);
      }
    }
    forall f | f in mid.files ensures f !in next.fileIds {
      if f !in before.files || mid.files[f] != before.files[f] {
        var id :| id in order[..n] && FileAddedFor(f, mid.files[f], outcomes(id));
        var j :| 0 <= j < n && order[j] == id;
        assert Apart(outcomes(order[j]), next);
      }
    }
  }

  lemma LastIsWhole(before: Backups.Tables, after: Backups.Tables, order: seq<Id>, schedules: map<Id, Schedule>,
                    outcomes: Id -> Outcome)
    requires order != [] && (forall id :: id in order ==> id in schedules) && AllWork(before, order, outcomes)
    requires Polled(before, after, order, schedules, outcomes)
    ensures var last := order[|order| - 1];
      outcomes(last).Stored? && NewestIsWhole(after, schedules[last].node, outcomes(last))
  {
    var n := |order| - 1;
    var mid :| Polled(before, mid, order[..n], schedules, outcomes)
      && BackedUp(mid, after, schedules[order[n]], outcomes(order[n]));
    PollTouchesOnlyDue(before, mid, order[..n], schedules, outcomes);
    StillWorks(before, mid, order, schedules, outcomes, n);
    WorkingBackupIsWhole(mid, after, schedules[order[n]], outcomes(order[n]));
  }

  /** The tables before the last backup of a poll, which changes nothing about other nodes. */
  lemma BeforeLast(before: Backups.Tables, after: Backups.Tables, order: seq<Id>, schedules: map<Id, Schedule>,
                   outcomes: Id -> Outcome, node: string, earlier: Outcome) returns (mid: Backups.Tables)
    requires order != [] && (forall id :: id in order ==> id in schedules)
    requires Polled(before, after, order, schedules, outcomes)
    requires earlier.Stored? && node != schedules[order[|order| - 1]].node
    ensures Polled(before, mid, order[..|order| - 1], schedules, outcomes)
    ensures NewestIsWhole(mid, node, earlier) ==> NewestIsWhole(after, node, earlier)
  {
    var n := |order| - 1;
    mid :| Polled(before, mid, order[..n], schedules, outcomes)
      && BackedUp(mid, after, schedules[order[n]], outcomes(order[n]));
    if NewestIsWhole(mid, node, earlier) {
      OtherBackupKeepsWhole(mid, after, schedules[order[n]], outcomes(order[n]), node, earlier);
    }
  }

  lemma EarlierWork(before: Backups.Tables, order: seq<Id>, outcomes: Id -> Outcome, n: nat)
    requires AllWork(before, order, outcomes) && n <= |order|
    ensures AllWork(before, order[..n], outcomes)
  {
  }

  /**
   A poll in which everything works leaves every node it fired for with a newest backup that is completed and has
   its files: that of the last schedule of the node it fired for.
   */
  lemma {:induction false} PollLeavesWhole(before: Backups.Tables, after: Backups.Tables, order: seq<Id>,
                                           schedules: map<Id, Schedule>, outcomes: Id -> Outcome, k: nat)
    requires (forall id :: id in order ==> id in schedules) && Polled(before, after, order, schedules, outcomes)
    requires AllWork(before, order, outcomes) && k < |order|
    requires LastOfNode(order, schedules, k)
    ensures outcomes(order[k]).Stored? && NewestIsWhole(after, schedules[order[k]].node, outcomes(order[k]))
    decreases |order|
  {
    var n, node, o := |order| - 1, schedules[order[k]].node, outcomes(order[k]);
    if k == n {
      LastIsWhole(before, after, order, schedules, outcomes);
    } else {
      assert Works(before, o);
      EarlierWork(before, order, outcomes, n);
      LastOfPrefix(order, schedules, k, n);
      var mid := BeforeLast(before, after, order, schedules, outcomes, node, o);
      PollLeavesWhole(before, mid, order[..n], schedules, outcomes, k);
      assert order[..n][k] == order[k];
    }
  }

  // ---------- one schedule over a run ----------

  function After(s: Schedule, calendar: int -> Civil, polls: seq<Poll>): Schedule {
    if polls == [] then s
    else Advanced(After(s, calendar, polls[..|polls| - 1]), calendar, polls[|polls| - 1])
  }

  function Log(s: Schedule, calendar: int -> Civil, polls: seq<Poll>): seq<Firing> {
    if polls == [] then []
    else Log(s, calendar, polls[..|polls| - 1])
         + Firings(After(s, calendar, polls[..|polls| - 1]), calendar, polls[|polls| - 1])
  }

  /** What next_run_at is once a firing is over. */
  function Then(s: Schedule, calendar: int -> Civil, f: Firing): Option<int> {
    if f.recorded then NextRun(s.spec, calendar, f.tick) else Some(f.tick)
  }

  /**
   Whatever the poll times: the first firing serves the initial next_run_at, each further one serves the tick
   NextRun gives after the one before it (or the same one again, if advancing it was not recorded), and no
   firing comes before its tick.
   */
  lemma FiringsFollowTicks(s: Schedule, calendar: int -> Civil, polls: seq<Poll>)
    ensures var log, end := Log(s, calendar, polls), After(s, calendar, polls);
      && end.spec == s.spec && end.isActive == s.isActive
      && (log != [] ==> Some(log[0].tick) == s.nextRunAt)
      && (forall k :: 0 < k < |log| ==> Some(log[k].tick) == Then(s, calendar, log[k - 1]))
      && end.nextRunAt == (if log == [] then s.nextRunAt else Then(s, calendar, log[|log| - 1]))
      && (forall k :: 0 <= k < |log| ==> log[k].tick <= log[k].polledAt && NextRun(s.spec, calendar, log[k].tick).Some?)
  {
    FiringsInStep(s, calendar, polls);
    var log := Log(s, calendar, polls);
    if log != [] { assert Some(log[0].tick) == TickAfter(s, calendar, log[..0]); }
    forall k | 0 < k < |log| ensures Some(log[k].tick) == Then(s, calendar, log[k - 1]) {
      assert Some(log[k].tick) == TickAfter(s, calendar, log[..k]);
    }
  }

  /** What next_run_at is after some firings. */
  function TickAfter(s: Schedule, calendar: int -> Civil, log: seq<Firing>): Option<int> {
    if log == [] then s.nextRunAt else Then(s, calendar, log[|log| - 1])
  }

  /** Each firing serves what the ones before it left, once it is due, and has a successor. */
  ghost predicate InStep(s: Schedule, calendar: int -> Civil, log: seq<Firing>) {
    forall k :: 0 <= k < |log| ==>
      && Some(log[k].tick) == TickAfter(s, calendar, log[..k])
      && log[k].tick <= log[k].polledAt && NextRun(s.spec, calendar, log[k].tick).Some?
  }

  lemma InStepOneMore(s: Schedule, calendar: int -> Civil, log: seq<Firing>, f: Firing)
    requires InStep(s, calendar, log) && Some(f.tick) == TickAfter(s, calendar, log)
    requires f.tick <= f.polledAt && NextRun(s.spec, calendar, f.tick).Some?
    ensures InStep(s, calendar, log + [f])
  {
    var all := log + [f];
    forall k | 0 <= k < |all| ensures Some(all[k].tick) == TickAfter(s, calendar, all[..k]) {
      if k < |log| {
        assert all[..k] == log[..k];
      } else {
        assert all[..k] == log;
      }
    }
  }

  lemma {:induction false} FiringsInStep(s: Schedule, calendar: int -> Civil, polls: seq<Poll>)
    ensures var log, end := Log(s, calendar, polls), After(s, calendar, polls);
      && end.spec == s.spec && end.isActive == s.isActive
      && end.nextRunAt == TickAfter(s, calendar, log) && InStep(s, calendar, log)
  {
    if polls == [] {
    } else {
      var before, p := polls[..|polls| - 1], polls[|polls| - 1];
      FiringsInStep(s, calendar, before);
      var mid, earlier := After(s, calendar, before), Log(s, calendar, before);
      FiringIsNext(mid, calendar, p);
      var more := Firings(mid, calendar, p);
      if more == [] {
        assert earlier + more == earlier;
      } else {
        assert more == [more[0]];
        InStepOneMore(s, calendar, earlier, more[0]);
      }
    }
  }

  /** One poll fires at most once, for the stored tick, not before it, and moves next_run_at accordingly. */
  lemma FiringIsNext(s: Schedule, calendar: int -> Civil, p: Poll)
    ensures var fs, end := Firings(s, calendar, p), Advanced(s, calendar, p);
      && end.spec == s.spec && end.isActive == s.isActive && |fs| <= 1
      && (fs == [] ==> end.nextRunAt == s.nextRunAt)
      && (fs != [] ==>
            && Some(fs[0].tick) == s.nextRunAt && end.nextRunAt == Then(s, calendar, fs[0])
            && fs[0].tick <= fs[0].polledAt && NextRun(s.spec, calendar, fs[0].tick).Some?)
  {
  }

  /** A schedule whose advance was written is due again exactly when the tick after the served one has come. */
  lemma NotDueUntilNext(s: Schedule, calendar: int -> Civil, p: Poll, dbNow: int)
    requires Firings(s, calendar, p) != [] && p.writes
    ensures var next := NextRun(s.spec, calendar, s.nextRunAt.value);
      && next.Some? && next.value > s.nextRunAt.value
      && (Due(Advanced(s, calendar, p), dbNow) <==> next.value <= dbNow)
  {
    NextIsLater(s.spec, calendar, s.nextRunAt.value);
  }

  /** The n-th iterate of NextRun. */
  function Iterate(spec: Option<Spec>, calendar: int -> Civil, start: Option<int>, n: nat): Option<int> {
    if n == 0 || start.None? then start
    else
      var before := Iterate(spec, calendar, start, n - 1);
      if before.None? then None else NextRun(spec, calendar, before.value)
  }

  lemma NextIterate(spec: Option<Spec>, calendar: int -> Civil, start: Option<int>, n: nat, t: int)
    requires n > 0 && Iterate(spec, calendar, start, n - 1) == Some(t)
    ensures Iterate(spec, calendar, start, n) == NextRun(spec, calendar, t)
  {
  }

  ghost predicate AllRecorded(log: seq<Firing>) {
    forall k :: 0 <= k < |log| ==> log[k].recorded
  }

  lemma RecordedTick(s: Schedule, calendar: int -> Civil, log: seq<Firing>, k: nat)
    requires InStep(s, calendar, log) && AllRecorded(log) && 0 < k <= |log|
    ensures TickAfter(s, calendar, log[..k - 1]) == Some(log[k - 1].tick)
    ensures TickAfter(s, calendar, log[..k]) == NextRun(s.spec, calendar, log[k - 1].tick)
  {
    assert log[k - 1].recorded && log[..k][k - 1] == log[k - 1];
  }

  lemma {:induction false} IterateInStep(s: Schedule, calendar: int -> Civil, log: seq<Firing>, k: nat)
    requires InStep(s, calendar, log) && AllRecorded(log) && k <= |log|
    ensures TickAfter(s, calendar, log[..k]) == Iterate(s.spec, calendar, s.nextRunAt, k)
  {
    if k == 0 {
    } else {
      IterateInStep(s, calendar, log, k - 1);
      RecordedTick(s, calendar, log, k);
      NextIterate(s.spec, calendar, s.nextRunAt, k, log[k - 1].tick);
    }
  }

  /** With successful writes the k-th firing serves the k-th iterate of NextRun: no drift. */
  lemma NoDrift(s: Schedule, calendar: int -> Civil, polls: seq<Poll>, k: nat)
    requires AllRecorded(Log(s, calendar, polls))
    ensures var log := Log(s, calendar, polls);
      && (k < |log| ==> Some(log[k].tick) == Iterate(s.spec, calendar, s.nextRunAt, k))
      && (k == |log| ==> After(s, calendar, polls).nextRunAt == Iterate(s.spec, calendar, s.nextRunAt, k))
  {
    var log := Log(s, calendar, polls);
    FiringsInStep(s, calendar, polls);
    if k <= |log| {
      IterateInStep(s, calendar, log, k);
      assert log[..|log|] == log;
    }
  }

  ghost predicate TicksIncrease(log: seq<Firing>) {
    forall i, j :: 0 <= i < j < |log| ==> log[i].tick < log[j].tick
  }

  lemma NextIsLater(spec: Option<Spec>, calendar: int -> Civil, t: int)
    ensures var next := NextRun(spec, calendar, t); next.Some? ==> spec.Some? && next.value > t
  {
    if spec.Some? { NextRunIsNext(spec.value, calendar, t); }
  }

  /** No tick is served twice exactly when every firing but perhaps the last was recorded. */
  lemma EachTickOnce(s: Schedule, calendar: int -> Civil, polls: seq<Poll>)
    ensures var log := Log(s, calendar, polls);
      TicksIncrease(log) <==> forall k :: 0 <= k < |log| - 1 ==> log[k].recorded
  {
    var log := Log(s, calendar, polls);
    forall k | 0 <= k < |log| - 1
      ensures log[k].recorded <==> log[k].tick < log[k + 1].tick
    {
      ConsecutiveTicks(s, calendar, polls, k);
    }
    if forall k :: 0 <= k < |log| - 1 ==> log[k].recorded {
      assert forall k :: 0 <= k < |log| - 1 ==> log[k].recorded ==> log[k].tick < log[k + 1].tick;
      StepsIncrease(log, |log|);
    } else {
      var k :| 0 <= k < |log| - 1 && !log[k].recorded;
      assert !(log[k].tick < log[k + 1].tick);
    }
  }

  lemma ConsecutiveTicks(s: Schedule, calendar: int -> Civil, polls: seq<Poll>, k: nat)
    requires k + 1 < |Log(s, calendar, polls)|
    ensures var log := Log(s, calendar, polls); log[k].recorded <==> log[k].tick < log[k + 1].tick
  {
    FiringsFollowTicks(s, calendar, polls);
    var log := Log(s, calendar, polls);
    assert Some(log[k + 1].tick) == Then(s, calendar, log[k + 1 - 1]);
    NextIsLater(s.spec, calendar, log[k].tick);
  }

  lemma {:induction false} StepsIncrease(log: seq<Firing>, n: nat)
    requires n <= |log| && forall k :: 0 <= k < |log| - 1 ==> log[k].tick < log[k + 1].tick
    ensures forall i, j :: 0 <= i < j < n ==> log[i].tick < log[j].tick
  {
    if n <= 1 {
    } else {
      StepsIncrease(log, n - 1);
      assert log[n - 2].tick < log[n - 2 + 1].tick;
    }
  }

  ghost predicate HasTick(log: seq<Firing>, t: int) {
    exists k :: 0 <= k < |log| && log[k].tick == t
  }

  /** No tick is skipped: every tick from the initial next_run_at up to the present one has been served. */
  lemma NoTickLost(s: Schedule, calendar: int -> Civil, polls: seq<Poll>, t: int)
    requires s.spec.Some? && s.nextRunAt.Some? && AllRecorded(Log(s, calendar, polls))
    requires Tick(s.spec.value, calendar, t) && s.nextRunAt.value <= t
    requires After(s, calendar, polls).nextRunAt.Some? ==> t < After(s, calendar, polls).nextRunAt.value
    ensures HasTick(Log(s, calendar, polls), t)
  {
    FiringsInStep(s, calendar, polls);
    ServedInStep(s, calendar, Log(s, calendar, polls), t);
  }

  lemma InStepPrefix(s: Schedule, calendar: int -> Civil, log: seq<Firing>, n: nat)
    requires InStep(s, calendar, log) && n <= |log|
    ensures InStep(s, calendar, log[..n])
  {
    forall k | 0 <= k < n ensures Some(log[k].tick) == TickAfter(s, calendar, log[..n][..k]) {
      assert log[..n][..k] == log[..k];
    }
  }

  lemma {:induction false} ServedInStep(s: Schedule, calendar: int -> Civil, log: seq<Firing>, t: int)
    requires s.spec.Some? && s.nextRunAt.Some? && InStep(s, calendar, log) && AllRecorded(log)
    requires Tick(s.spec.value, calendar, t) && s.nextRunAt.value <= t
    requires TickAfter(s, calendar, log).Some? ==> t < TickAfter(s, calendar, log).value
    ensures HasTick(log, t)
    decreases |log|
  {
    if log == [] {
    } else {
      var n := |log| - 1;
      assert Some(log[n].tick) == TickAfter(s, calendar, log[..n]) && log[n].recorded;
      NothingBetween(s.spec.value, calendar, log[n].tick, t);
      if t < log[n].tick {
        InStepPrefix(s, calendar, log, n);
        ServedInStep(s, calendar, log[..n], t);
        var k :| 0 <= k < n && log[..n][k].tick == t;
        assert log[k].tick == t;
      }
    }
  }

  lemma NothingBetween(spec: Spec, calendar: int -> Civil, served: int, t: int)
    ensures var next := NextRun(Some(spec), calendar, served);
      Tick(spec, calendar, t) && t > served && next.Some? ==> next.value <= t
  {
    NextRunIsNext(spec, calendar, served);
    var next := NextRun(Some(spec), calendar, served);
    assert Tick(spec, calendar, t) && next.Some? && served < t < next.value ==> TickSoon(spec, calendar, t, served);
  }

  function PollsFrom(polls: seq<Poll>, t: int): nat {
    if polls == [] then 0
    else PollsFrom(polls[..|polls| - 1], t) + (if polls[|polls| - 1].dbNow >= t then 1 else 0)
  }

  /** One tick is served per poll: the job has caught up with time t, or fired at every poll since t. */
  lemma {:induction false} CatchesUp(s: Schedule, calendar: int -> Civil, polls: seq<Poll>, t: int)
    requires s.isActive && s.nextRunAt.Some?
    requires forall k :: 0 <= k < |polls| ==> polls[k].writes
    requires forall u :: u <= t ==> NextRun(s.spec, calendar, u).Some?
    ensures var end := After(s, calendar, polls);
      end.nextRunAt.Some?
      && (end.nextRunAt.value > t || |Log(s, calendar, polls)| >= PollsFrom(polls, t))
  {
    if polls == [] {
    } else {
      var before := polls[..|polls| - 1];
      CatchesUp(s, calendar, before, t);
      FiringsFollowTicks(s, calendar, before);
      var mid := After(s, calendar, before);
      NextIsLater(s.spec, calendar, mid.nextRunAt.value);
    }
  }

  lemma {:induction false} LastTickNeverFires(s: Schedule, calendar: int -> Civil, polls: seq<Poll>)
    requires s.nextRunAt.Some? && NextRun(s.spec, calendar, s.nextRunAt.value).None?
    ensures After(s, calendar, polls) == s && Log(s, calendar, polls) == []
  {
    if polls == [] {
    } else {
      LastTickNeverFires(s, calendar, polls[..|polls| - 1]);
    }
  }

  lemma {:induction false} UnfiredStays(s: Schedule, calendar: int -> Civil, polls: seq<Poll>)
    requires Log(s, calendar, polls) == []
    ensures After(s, calendar, polls) == s
  {
    if polls == [] {
    } else {
      UnfiredStays(s, calendar, polls[..|polls| - 1]);
    }
  }

  lemma {:induction false} FollowedTickFires(s: Schedule, calendar: int -> Civil, polls: seq<Poll>, k: nat)
    requires s.isActive && s.nextRunAt.Some? && NextRun(s.spec, calendar, s.nextRunAt.value).Some?
    requires k < |polls| && s.nextRunAt.value <= polls[k].dbNow
    ensures Log(s, calendar, polls) != []
  {
    var before := polls[..|polls| - 1];
    if Log(s, calendar, before) == [] {
      UnfiredStays(s, calendar, before);
      if k < |before| { FollowedTickFires(s, calendar, before, k); }
    }
  }

  /**
   An active schedule that some poll finds due fires, at that poll or before, exactly when another tick follows
   its own within 366 days. Otherwise it never does, not even for the tick it is due for.
   */
  lemma DueFiresExactly(s: Schedule, calendar: int -> Civil, polls: seq<Poll>)
    requires s.isActive && s.nextRunAt.Some?
    requires exists k :: 0 <= k < |polls| && s.nextRunAt.value <= polls[k].dbNow
    ensures Log(s, calendar, polls) != [] <==> NextRun(s.spec, calendar, s.nextRunAt.value).Some?
  {
    if NextRun(s.spec, calendar, s.nextRunAt.value).Some? {
      var k :| 0 <= k < |polls| && s.nextRunAt.value <= polls[k].dbNow;
      FollowedTickFires(s, calendar, polls, k);
    } else {
      LastTickNeverFires(s, calendar, polls);
    }
  }

  /** A schedule that is switched off never fires, whenever its tick is. */
  lemma {:induction false} InactiveNeverFires(s: Schedule, calendar: int -> Civil, polls: seq<Poll>)
    requires !s.isActive
    ensures After(s, calendar, polls) == s && Log(s, calendar, polls) == []
  {
    if polls == [] {
    } else {
      InactiveNeverFires(s, calendar, polls[..|polls| - 1]);
    }
  }

  /** The start of the last firing whose advance was written, or what last_run_at was before. */
  function LastRecorded(log: seq<Firing>, initial: Option<int>): Option<int> {
    if log == [] then initial
    else if log[|log| - 1].recorded then Some(log[|log| - 1].startedAt)
    else LastRecorded(log[..|log| - 1], initial)
  }

  /** last_run_at is the time of the last firing that was recorded. */
  lemma {:induction false} LastRunIsRecorded(s: Schedule, calendar: int -> Civil, polls: seq<Poll>)
    ensures After(s, calendar, polls).lastRunAt == LastRecorded(Log(s, calendar, polls), s.lastRunAt)
  {
    if polls == [] {
    } else {
      var before, p := polls[..|polls| - 1], polls[|polls| - 1];
      LastRunIsRecorded(s, calendar, before);
      var mid, earlier, log := After(s, calendar, before), Log(s, calendar, before), Log(s, calendar, polls);
      if Firings(mid, calendar, p) == [] {
        assert log == earlier;
      } else {
        assert log[..|log| - 1] == earlier;
      }
    }
  }

  /** A backup for every 29 February is never made: no poll ever serves a tick of `0 0 29 2 *`. */
  lemma LeapDayBackupsNeverFire(s: Schedule, polls: seq<Poll>, k: int)
    requires s.spec == Some(LEAP_DAY) && s.nextRunAt == Some(LeapDay(k))
    ensures Log(s, Utc, polls) == []
  {
    UtcLeapDaysApart();
    UtcHasLeapDays(k);
    NoLeapDaySoon(Utc, LeapDay(k), LeapDay(k));
    LastTickNeverFires(s, Utc, polls);
  }

  // ==================== scheduled actions ====================

  datatype Action = Action(spec: Option<Spec>, isActive: bool, lastRunAt: Option<int>, createdAt: int)

  /** A successful execution at a time, which serves the ticks since the base; recorded: last_run_at was written. */
  datatype Execution = Execution(base: int, at: int, recorded: bool)

  datatype Attempt = Attempt(now: int, succeeds: bool, writes: bool)

  function Executions(a: Action, calendar: int -> Civil, t: Attempt): seq<Execution> {
    if a.isActive && IsDue(a.spec, calendar, a.lastRunAt, a.createdAt, t.now) && t.succeeds then
      [Execution(Base(a.lastRunAt, a.createdAt), t.now, t.writes)]
    else []
  }

  function Updated(a: Action, calendar: int -> Civil, t: Attempt): Action {
    if Executions(a, calendar, t) != [] && t.writes then a.(lastRunAt := Some(t.now)) else a
  }

  class ActionJob {
    var actions: map<Id, Action>
    var executed: map<Id, seq<Execution>>

    constructor (actions: map<Id, Action>)
      ensures this.actions == actions && executed == map id | id in actions :: []
    {
      this.actions := actions;
      executed := map id | id in actions :: [];
    }

    /** The body of the loop of Run, for one action. */
    method RunAction(id: Id, a: Action, calendar: int -> Civil, t: Attempt)
      requires id in actions && actions[id] == a && a.isActive && id in executed
      modifies this
      ensures actions == old(actions)[id := Updated(a, calendar, t)]
      ensures executed == old(executed)[id := old(executed)[id] + Executions(a, calendar, t)]
    {
      assert actions == actions[id := a];
      assert executed[id] + [] == executed[id] && executed == executed[id := executed[id]];
      var next := ComputeNextRun(a.spec, calendar, Base(a.lastRunAt, a.createdAt));
      if next.None? || next.value > t.now { return; }
      if !t.succeeds { return; }
      executed := executed[id := executed[id] + [Execution(Base(a.lastRunAt, a.createdAt), t.now, t.writes)]];
      if t.writes {
        actions := actions[id := a.(lastRunAt := Some(t.now))];
      }
    }

    /** attempts(id) is what happens to an action if it is executed; all are judged at the same time. */
    method Run(calendar: int -> Civil, now: int, attempts: Id -> Attempt)
      requires executed.Keys == actions.Keys && forall id :: id in actions ==> attempts(id).now == now
      modifies this
      ensures executed.Keys == actions.Keys == old(actions.Keys)
      ensures forall id :: id in actions ==>
        && actions[id] == Updated(old(actions)[id], calendar, attempts(id))
        && executed[id] == old(executed)[id] + Executions(old(actions)[id], calendar, attempts(id))
    {
      var active := map id | id in actions && actions[id].isActive :: actions[id];
      ghost var was, wasExecuted := actions, executed;
      ghost var updated := map id | id in was :: Updated(was[id], calendar, attempts(id));
      ghost var allExecuted := map id | id in was :: wasExecuted[id] + Executions(was[id], calendar, attempts(id));
      assert forall id :: id in was && id !in active ==> updated[id] == was[id] && allExecuted[id] == wasExecuted[id];
      var remaining := active.Keys;
      while remaining != {}
        invariant remaining <= active.Keys
        invariant Between(was, updated, actions, remaining) && Between(wasExecuted, allExecuted, executed, remaining)
        decreases remaining
      {
        var id :| id in remaining;
        BetweenStep(was, updated, actions, remaining, id);
        BetweenStep(wasExecuted, allExecuted, executed, remaining, id);
        remaining := remaining - {id};
        RunAction(id, active[id], calendar, attempts(id));
      }
    }
  }

  function ActionAfter(a: Action, calendar: int -> Civil, attempts: seq<Attempt>): Action {
    if attempts == [] then a
    else Updated(ActionAfter(a, calendar, attempts[..|attempts| - 1]), calendar, attempts[|attempts| - 1])
  }

  function ActionLog(a: Action, calendar: int -> Civil, attempts: seq<Attempt>): seq<Execution> {
    if attempts == [] then []
    else ActionLog(a, calendar, attempts[..|attempts| - 1])
         + Executions(ActionAfter(a, calendar, attempts[..|attempts| - 1]), calendar, attempts[|attempts| - 1])
  }

  /** How many executions serve a tick. */
  function ServedBy(log: seq<Execution>, t: int): nat {
    if log == [] then 0
    else ServedBy(log[..|log| - 1], t) + (if log[|log| - 1].base < t <= log[|log| - 1].at then 1 else 0)
  }

  /**
   While last_run_at is written after every success: every time since the base is served by exactly one
   execution up to the last one, and by none after it. So missed ticks are made up for once, and no tick is
   served twice.
   */
  lemma {:induction false} EachTickServedOnce(a: Action, calendar: int -> Civil, attempts: seq<Attempt>, t: int)
    requires forall k :: 0 <= k < |ActionLog(a, calendar, attempts)| ==> ActionLog(a, calendar, attempts)[k].recorded
    ensures var end := ActionAfter(a, calendar, attempts);
      && end.createdAt == a.createdAt && end.spec == a.spec
      && Base(a.lastRunAt, a.createdAt) <= Base(end.lastRunAt, end.createdAt)
      && ServedBy(ActionLog(a, calendar, attempts), t)
         == if Base(a.lastRunAt, a.createdAt) < t <= Base(end.lastRunAt, end.createdAt) then 1 else 0
  {
    if attempts == [] {
    } else {
      var before := attempts[..|attempts| - 1];
      var earlier, log := ActionLog(a, calendar, before), ActionLog(a, calendar, attempts);
      assert forall k :: 0 <= k < |earlier| ==> log[k] == earlier[k];
      EachTickServedOnce(a, calendar, before, t);
      var mid := ActionAfter(a, calendar, before);
      NextIsLater(mid.spec, calendar, Base(mid.lastRunAt, mid.createdAt));
      if log != earlier {
        assert log[|earlier|].recorded;
        assert log[..|earlier|] == earlier;
      }
    }
  }

  function NextBase(e: Execution): int {
    if e.recorded then e.at else e.base
  }

  /** The first tick after the base, which made the execution due. */
  ghost predicate MadeDueBy(spec: Option<Spec>, calendar: int -> Civil, e: Execution) {
    var next := NextRun(spec, calendar, e.base);
    next.Some? && e.base < next.value <= e.at
  }

  /** The base a log leaves behind: the time of its last execution if that was recorded, else that one's own base. */
  function BaseAfter(a: Action, log: seq<Execution>): int {
    if log == [] then Base(a.lastRunAt, a.createdAt) else NextBase(log[|log| - 1])
  }

  /** Each execution starts from the base the ones before it left, and was due. */
  ghost predicate Follows(a: Action, calendar: int -> Civil, log: seq<Execution>) {
    forall k :: 0 <= k < |log| ==> log[k].base == BaseAfter(a, log[..k]) && MadeDueBy(a.spec, calendar, log[k])
  }

  lemma FollowsOneMore(a: Action, calendar: int -> Civil, log: seq<Execution>, e: Execution)
    requires Follows(a, calendar, log) && e.base == BaseAfter(a, log) && MadeDueBy(a.spec, calendar, e)
    ensures Follows(a, calendar, log + [e])
  {
    var all := log + [e];
    forall k | 0 <= k < |all| ensures all[k].base == BaseAfter(a, all[..k]) && MadeDueBy(a.spec, calendar, all[k]) {
      if k < |log| {
        assert all[..k] == log[..k] && all[k] == log[k];
      } else {
        assert all[..k] == log && all[k] == e;
      }
    }
  }

  lemma {:induction false} ExecutionsFollow(a: Action, calendar: int -> Civil, attempts: seq<Attempt>)
    ensures var log, end := ActionLog(a, calendar, attempts), ActionAfter(a, calendar, attempts);
      && end.spec == a.spec && end.createdAt == a.createdAt
      && Base(end.lastRunAt, end.createdAt) == BaseAfter(a, log)
      && Follows(a, calendar, log)
  {
    if attempts == [] {
    } else {
      var before, t := attempts[..|attempts| - 1], attempts[|attempts| - 1];
      ExecutionsFollow(a, calendar, before);
      var mid, earlier := ActionAfter(a, calendar, before), ActionLog(a, calendar, before);
      ExecutionIsNext(mid, calendar, t);
      var more := Executions(mid, calendar, t);
      if more == [] {
        assert earlier + more == earlier;
      } else {
        assert more == [more[0]];
        FollowsOneMore(a, calendar, earlier, more[0]);
      }
    }
  }

  /** Of two successive executions, the second starts where the first left off. */
  lemma Successive(a: Action, calendar: int -> Civil, log: seq<Execution>, k: nat)
    requires Follows(a, calendar, log) && k + 1 < |log|
    ensures log[k + 1].base == NextBase(log[k])
    ensures MadeDueBy(a.spec, calendar, log[k]) && MadeDueBy(a.spec, calendar, log[k + 1])
  {
    assert log[k + 1].base == BaseAfter(a, log[..k + 1]);
  }

  lemma ExecutionIsNext(a: Action, calendar: int -> Civil, t: Attempt)
    ensures var log, end := Executions(a, calendar, t), Updated(a, calendar, t);
      && end.spec == a.spec && end.createdAt == a.createdAt && |log| <= 1
      && (log == [] ==> end == a)
      && (log != [] ==>
            && log[0].base == Base(a.lastRunAt, a.createdAt) && MadeDueBy(a.spec, calendar, log[0])
            && Base(end.lastRunAt, end.createdAt) == NextBase(log[0]))
  {
    NextIsLater(a.spec, calendar, Base(a.lastRunAt, a.createdAt));
  }

  predicate Serves(e: Execution, t: int) { e.base < t <= e.at }

  lemma {:induction false} ServedByTwo(log: seq<Execution>, t: int, i: nat, j: nat)
    requires i < j < |log| && Serves(log[i], t) && Serves(log[j], t)
    ensures ServedBy(log, t) >= 2
  {
    var before := log[..|log| - 1];
    if j < |before| {
      ServedByTwo(before, t, i, j);
    } else {
      ServedByOne(before, t, i);
    }
  }

  lemma {:induction false} ServedByOne(log: seq<Execution>, t: int, i: nat)
    requires i < |log| && Serves(log[i], t)
    ensures ServedBy(log, t) >= 1
  {
    if i == |log| - 1 {
    } else {
      ServedByOne(log[..|log| - 1], t, i);
    }
  }

  /** Executions each of which starts where the one before it ended serve no time twice. */
  lemma {:induction false} ChainServesOnce(log: seq<Execution>, t: int)
    requires forall k :: 0 <= k < |log| ==> log[k].base < log[k].at
    requires forall k :: 0 < k < |log| ==> log[k].base == log[k - 1].at
    ensures ServedBy(log, t) <= 1
    ensures log != [] && t > log[|log| - 1].at ==> ServedBy(log, t) == 0
  {
    if log == [] {
    } else {
      var before := log[..|log| - 1];
      assert forall k :: 0 < k < |before| ==> before[k].base == before[k - 1].at;
      ChainServesOnce(before, t);
    }
  }

  /**
   No tick is served twice exactly when every execution but perhaps the last was recorded; and then no time at
   all is. One that is not recorded is followed by one that serves the same ticks again.
   */
  lemma TicksServedTwice(a: Action, calendar: int -> Civil, attempts: seq<Attempt>)
    requires a.spec.Some?
    ensures var log := ActionLog(a, calendar, attempts);
      && ((forall k :: 0 <= k < |log| - 1 ==> log[k].recorded) <==> NoTickTwice(a.spec.value, calendar, log))
      && ((forall k :: 0 <= k < |log| - 1 ==> log[k].recorded) ==> forall t :: ServedBy(log, t) <= 1)
  {
    var log := ActionLog(a, calendar, attempts);
    ExecutionsFollow(a, calendar, attempts);
    if forall k :: 0 <= k < |log| - 1 ==> log[k].recorded {
      forall t ensures ServedBy(log, t) <= 1 {
        ChainOfRecorded(a, calendar, log);
        ChainServesOnce(log, t);
      }
    } else {
      var k :| 0 <= k < |log| - 1 && !log[k].recorded;
      UnrecordedServesAgain(a, calendar, attempts, k);
    }
  }

  ghost predicate NoTickTwice(spec: Spec, calendar: int -> Civil, log: seq<Execution>) {
    forall t :: Tick(spec, calendar, t) ==> ServedBy(log, t) <= 1
  }

  lemma ChainOfRecorded(a: Action, calendar: int -> Civil, log: seq<Execution>)
    requires Follows(a, calendar, log)
    requires forall k :: 0 <= k < |log| - 1 ==> log[k].recorded
    ensures forall k :: 0 <= k < |log| ==> log[k].base < log[k].at
    ensures forall k :: 0 < k < |log| ==> log[k].base == log[k - 1].at
  {
    forall k | 0 < k < |log| ensures log[k].base == log[k - 1].at {
      Successive(a, calendar, log, k - 1);
      assert log[k - 1].recorded;
    }
  }

  /** The execution after an unrecorded one starts from the same base, and serves the tick that made that one due. */
  lemma UnrecordedServesAgain(a: Action, calendar: int -> Civil, attempts: seq<Attempt>, k: nat)
    requires a.spec.Some?
    requires k + 1 < |ActionLog(a, calendar, attempts)| && !ActionLog(a, calendar, attempts)[k].recorded
    ensures var log := ActionLog(a, calendar, attempts);
      var next := NextRun(a.spec, calendar, log[k].base);
      && log[k + 1].base == log[k].base
      && next.Some? && Tick(a.spec.value, calendar, next.value) && ServedBy(log, next.value) >= 2
  {
    var log := ActionLog(a, calendar, attempts);
    ExecutionsFollow(a, calendar, attempts);
    Successive(a, calendar, log, k);
    NextRunIsNext(a.spec.value, calendar, log[k].base);
    ServedByTwo(log, NextRun(a.spec, calendar, log[k].base).value, k, k + 1);
  }

  /** A failed execution leaves the action as it was, due at every later poll until one succeeds. */
  lemma {:induction false} FailureIsRetried(a: Action, calendar: int -> Civil, now: int, later: seq<Attempt>)
    requires IsDue(a.spec, calendar, a.lastRunAt, a.createdAt, now)
    requires forall k :: 0 <= k < |later| ==> later[k].now >= now && !later[k].succeeds
    ensures var end := ActionAfter(a, calendar, later);
      end == a && forall at :: at >= now ==> IsDue(end.spec, calendar, end.lastRunAt, end.createdAt, at)
  {
    if later == [] {
    } else {
      FailureIsRetried(a, calendar, now, later[..|later| - 1]);
    }
  }

  predicate Executed(a: Action, calendar: int -> Civil, attempts: seq<Attempt>) {
    ActionLog(a, calendar, attempts) != []
  }

  /** An active action is executed at some time exactly when a tick follows its base within 366 days. */
  lemma ExecutedExactly(a: Action, calendar: int -> Civil)
    requires a.isActive
    ensures (exists attempts :: Executed(a, calendar, attempts))
      <==> NextRun(a.spec, calendar, Base(a.lastRunAt, a.createdAt)).Some?
  {
    var next := NextRun(a.spec, calendar, Base(a.lastRunAt, a.createdAt));
    if next.Some? {
      var attempts := [Attempt(next.value, true, true)];
      assert attempts[..0] == [] && ActionLog(a, calendar, attempts[..0]) == [];
      assert ActionAfter(a, calendar, attempts[..0]) == a;
      assert Executed(a, calendar, attempts);
    } else {
      forall attempts ensures !Executed(a, calendar, attempts) {
        NeverExecuted(a, calendar, attempts);
      }
    }
  }

  lemma {:induction false} NeverExecuted(a: Action, calendar: int -> Civil, attempts: seq<Attempt>)
    requires NextRun(a.spec, calendar, Base(a.lastRunAt, a.createdAt)).None?
    ensures ActionAfter(a, calendar, attempts) == a && ActionLog(a, calendar, attempts) == []
  {
    if attempts == [] {
    } else {
      NeverExecuted(a, calendar, attempts[..|attempts| - 1]);
    }
  }

  /** An action that is switched off is never executed, whenever it is due. */
  lemma {:induction false} InactiveNeverExecuted(a: Action, calendar: int -> Civil, attempts: seq<Attempt>)
    requires !a.isActive
    ensures ActionAfter(a, calendar, attempts) == a && ActionLog(a, calendar, attempts) == []
  {
    if attempts == [] {
    } else {
      InactiveNeverExecuted(a, calendar, attempts[..|attempts| - 1]);
    }
  }

  /** An action for every 29 February that ran on one is never executed again, and its base never moves. */
  lemma LeapDayActionsStop(a: Action, attempts: seq<Attempt>, k: int)
    requires a.spec == Some(LEAP_DAY)
    requires LeapDay(k) <= Base(a.lastRunAt, a.createdAt) < LeapDay(k) + 1095 * DAY
    ensures ActionAfter(a, Utc, attempts) == a && ActionLog(a, Utc, attempts) == []
  {
    UtcLeapDaysApart();
    UtcHasLeapDays(k);
    NoLeapDaySoon(Utc, LeapDay(k), Base(a.lastRunAt, a.createdAt));
    NeverExecuted(a, Utc, attempts);
  }
}
