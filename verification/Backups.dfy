/**
 Backup rows, their file rows, version numbers and retention (repository/backup_repository.go).

 The tables are maps from row IDs; IDs are numbers, so that they can be compared as the SQL does.
 Only the columns that versions and retention depend on are kept.
 */
module Backups {
  import opened Prelude

  type Id = nat
  type FileId = nat

  datatype Kind = Manual | Scheduled | PreUpdate

  datatype Backup = Backup(node: string, version: nat, kind: Kind, createdAt: int, completed: bool)

  type Table = map<Id, Backup>

  /** Both tables; each file row has the backup it belongs to. */
  datatype Tables = Tables(backups: Table, files: map<FileId, Id>)

  /** Comes first under ORDER BY created_at DESC, id DESC. */
  predicate Newer(t: Table, x: Id, y: Id)
    requires x in t && y in t
  {
    t[x].createdAt > t[y].createdAt || (t[x].createdAt == t[y].createdAt && x > y)
  }

  function OfNode(t: Table, node: string): set<Id> {
    set id | id in t && t[id].node == node
  }

  /** The rows the retention of a node is about. */
  function ScheduledOf(t: Table, node: string): set<Id> {
    set id | id in t && t[id].node == node && t[id].kind == Scheduled
  }

  /** The rows of a set that come before a row in that order, and how many they are. */
  function Ahead(t: Table, s: set<Id>, x: Id): set<Id>
    requires s <= t.Keys && x in t
  {
    set y | y in s && Newer(t, y, x)
  }

  function Rank(t: Table, s: set<Id>, x: Id): nat
    requires s <= t.Keys && x in t
  {
    |Ahead(t, s, x)|
  }

  /** The rows of a set after the first k: ORDER BY ... OFFSET k. */
  function Beyond(t: Table, s: set<Id>, k: nat): set<Id>
    requires s <= t.Keys
  {
    set x | x in s && Rank(t, s, x) >= k
  }

  /** The rows DeleteOldest selects. */
  function Expired(t: Table, node: string, keep: nat): set<Id> {
    Beyond(t, ScheduledOf(t, node), keep)
  }

  /** The file rows whose backups are still there. */
  function WithBackup(files: map<FileId, Id>, backups: Table): map<FileId, Id> {
    map f | f in files && files[f] in backups :: files[f]
  }

  /** What a retention limit leaves; zero and less is no limit. */
  function Retained(t: Table, node: string, limit: int): Table {
    if limit > 0 then t - Expired(t, node, limit) else t
  }

  // ---------- what OFFSET selects ----------

  lemma {:induction false} OldestOf(t: Table, s: set<Id>) returns (m: Id)
    requires s <= t.Keys && s != {}
    ensures m in s && forall y :: y in s && y != m ==> Newer(t, y, m)
  {
    var x :| x in s;
    if s == {x} { return x; }
    var n := OldestOf(t, s - {x});
    m := if Newer(t, x, n) then n else x;
    forall y | y in s && y != m ensures Newer(t, y, m) {
      if y != x && y != n { assert y in s - {x} && Newer(t, y, n); }
    }
  }

  /** Taking the oldest row away changes no other row's rank; its own was the highest. */
  lemma WithoutOldest(t: Table, s: set<Id>, m: Id)
    requires s <= t.Keys && m in s && forall y :: y in s && y != m ==> Newer(t, y, m)
    ensures |s| == |s - {m}| + 1
    ensures Rank(t, s, m) == |s - {m}|
    ensures forall x :: x in s - {m} ==> Rank(t, s, x) == Rank(t, s - {m}, x)
  {
    var rest := s - {m};
    assert s == rest + {m};
    assert Ahead(t, s, m) == rest;
    forall x | x in rest ensures Rank(t, s, x) == Rank(t, rest, x) {
      assert Newer(t, x, m);
      assert Ahead(t, s, x) == Ahead(t, rest, x);
    }
  }

  lemma BeyondWithout(t: Table, s: set<Id>, m: Id, k: nat)
    requires s <= t.Keys && m in s
    requires forall x :: x in s - {m} ==> Rank(t, s, x) == Rank(t, s - {m}, x)
    ensures Beyond(t, s - {m}, k) == Beyond(t, s, k) - {m}
  {
    forall x ensures x in Beyond(t, s - {m}, k) <==> x in Beyond(t, s, k) - {m} {
      assert x in s - {m} ==> Rank(t, s, x) == Rank(t, s - {m}, x);
    }
  }

  lemma FirstRowsWithout(t: Table, s: set<Id>, m: Id, k: nat)
    requires s <= t.Keys && m in s
    requires Rank(t, s, m) == |s - {m}|
    requires forall x :: x in s - {m} ==> Rank(t, s, x) == Rank(t, s - {m}, x)
    ensures |s - Beyond(t, s, k)|
         == |(s - {m}) - Beyond(t, s - {m}, k)| + (if |s - {m}| < k then 1 else 0)
  {
    BeyondWithout(t, s, m, k);
    WithOneMore(s, Beyond(t, s, k), m);
  }

  lemma WithOneMore(s: set<Id>, beyond: set<Id>, m: Id)
    requires m in s
    ensures |s - beyond| == |(s - {m}) - (beyond - {m})| + if m in beyond then 0 else 1
  {
    var first := (s - {m}) - (beyond - {m});
    if m in beyond {
      assert s - beyond == first;
    } else {
      assert s - beyond == first + {m};
    }
  }

  /** Exactly k rows come first, or all of them when there are fewer. */
  lemma {:induction false} FirstRows(t: Table, s: set<Id>, k: nat)
    requires s <= t.Keys
    ensures |s - Beyond(t, s, k)| == if |s| < k then |s| else k
    decreases |s|
  {
    if s == {} {
      assert s - Beyond(t, s, k) == {};
    } else {
      var m := OldestOf(t, s);
      var rest := s - {m};
      WithoutOldest(t, s, m);
      FirstRows(t, rest, k);
      FirstRowsWithout(t, s, m, k);
    }
  }

  /** A row that comes first is newer than every row that does not. */
  lemma FirstRowsAreNewest(t: Table, s: set<Id>, k: nat, x: Id, y: Id)
    requires s <= t.Keys && x in s - Beyond(t, s, k) && y in Beyond(t, s, k)
    ensures Newer(t, x, y)
  {
    if !Newer(t, x, y) {
      SubsetSize(Ahead(t, s, y), Ahead(t, s, x));
    }
  }

  /**
   Retention keeps exactly the keep newest scheduled backups of the node, or all when there are fewer, and
   every other backup: manual ones, pre-update ones, and those of other nodes.
   */
  lemma RetentionKeepsNewest(t: Table, node: string, keep: nat)
    ensures var kept := ScheduledOf(t - Expired(t, node, keep), node);
      && |kept| == (if |ScheduledOf(t, node)| < keep then |ScheduledOf(t, node)| else keep)
      && (forall x, y :: x in kept && y in ScheduledOf(t, node) && y !in kept ==>
            t[x].createdAt > t[y].createdAt || (t[x].createdAt == t[y].createdAt && x > y))
    ensures forall id :: id in t && (t[id].node != node || t[id].kind != Scheduled) ==> id !in Expired(t, node, keep)
  {
    var s, gone := ScheduledOf(t, node), Expired(t, node, keep);
    FirstRows(t, s, keep);
    assert ScheduledOf(t - gone, node) == s - gone;
    forall x, y | x in s - gone && y in s && y !in s - gone
      ensures t[x].createdAt > t[y].createdAt || (t[x].createdAt == t[y].createdAt && x > y)
    {
      KeptIsNewer(t, s, keep, x, y);
    }
  }

  lemma KeptIsNewer(t: Table, s: set<Id>, keep: nat, x: Id, y: Id)
    requires s <= t.Keys && x in s - Beyond(t, s, keep) && y in s && y !in s - Beyond(t, s, keep)
    ensures t[x].createdAt > t[y].createdAt || (t[x].createdAt == t[y].createdAt && x > y)
  {
    FirstRowsAreNewest(t, s, keep, x, y);
  }

  /** Looking at the count first makes no difference: with no more backups than that, nothing would be deleted. */
  lemma CountGuardIsRedundant(t: Table, node: string, keep: nat)
    requires |ScheduledOf(t, node)| <= keep
    ensures Expired(t, node, keep) == {}
  {
    var s := ScheduledOf(t, node);
    forall x | x in s ensures Rank(t, s, x) < |s| {
      var before := Ahead(t, s, x);
      SubsetSize(before + {x}, s);
      assert x !in before && |before + {x}| == |before| + 1;
    }
  }

  /** A second retention with the same limit has nothing left to delete. */
  lemma RetentionIsIdempotent(t: Table, node: string, keep: nat)
    ensures Expired(t - Expired(t, node, keep), node, keep) == {}
  {
    RetentionKeepsNewest(t, node, keep);
    CountGuardIsRedundant(t - Expired(t, node, keep), node, keep);
  }

  // ---------- versions ----------

  /** COALESCE(MAX(version), 0) + 1 */
  ghost predicate IsNextVersion(t: Table, node: string, v: nat) {
    && v >= 1
    && (forall id :: id in OfNode(t, node) ==> t[id].version < v)
    && (OfNode(t, node) == {} ==> v == 1)
    && (OfNode(t, node) != {} ==> exists id :: id in OfNode(t, node) && t[id].version + 1 == v)
  }

  class Repository {
    var backups: Table
    var files: map<FileId, Id>

    constructor ()
      ensures backups == map[] && files == map[]
    {
      backups, files := map[], map[];
    }

    ghost function Contents(): Tables
      reads this
    {
      Tables(backups, files)
    }

    /** Every file row has its backup. */
    ghost predicate Valid()
      reads this
    {
      forall f :: f in files ==> files[f] in backups
    }

    method GetNextVersion(node: string) returns (version: nat)
      ensures IsNextVersion(backups, node, version)
    {
      var max := 0;
      var found := false;
      var remaining := backups.Keys;
      while remaining != {}
        invariant remaining <= backups.Keys
        invariant forall id :: id in backups && id !in remaining && backups[id].node == node ==>
          found && backups[id].version <= max
        invariant found ==> exists id :: id in OfNode(backups, node) && backups[id].version == max
        invariant !found ==> max == 0
        decreases remaining
      {
        var id :| id in remaining;
        if backups[id].node == node {
          if !found || backups[id].version > max { max := backups[id].version; }
          found := true;
          assert id in OfNode(backups, node);
        }
        remaining := remaining - {id};
      }
      version := max + 1;
    }

    /**
     The rows one CreateBackup of the service leaves behind. A row ID that is taken already makes the insert
     fail. After that, a node that is not reached or yields no file, and a file ID that is taken, leave the backup
     row without files and not completed; fileIds are the rows of the files collected, if any, and completes says
     whether the update that marks the backup as completed works.
     */
    method CreateBackup(node: string, kind: Kind, id: Id, now: int, fileIds: set<FileId>, completes: bool)
      returns (version: Option<nat>)
      requires Valid()
      modifies this
      ensures Valid()
      ensures version.None? <==> id in old(backups)
      ensures version.None? ==> backups == old(backups) && files == old(files)
      ensures version.Some? ==>
        && IsNextVersion(old(backups), node, version.value)
        && backups == old(backups)[id :=
             Backup(node, version.value, kind, now,
             completes && fileIds != {} && fileIds !! old(files).Keys)]
        && files == if fileIds !! old(files).Keys then old(files) + (map f | f in fileIds :: id) else old(files)
    {
      var next := GetNextVersion(node);
      if id in backups { return None; }
      backups := backups[id := Backup(node, next, kind, now, false)];
      if fileIds == {} {
        assert old(files) + (map f | f in fileIds :: id) == old(files);
        return Some(next);
      }
      if fileIds !! files.Keys {
        files := files + map f | f in fileIds :: id;
        if completes { backups := backups[id := backups[id].(completed := true)]; }
      }
      return Some(next);
    }

    method CountByNode(node: string) returns (count: nat)
      ensures count == |ScheduledOf(backups, node)|
    {
      count := 0;
      ghost var counted: set<Id> := {};
      var remaining := backups.Keys;
      while remaining != {}
        invariant remaining <= backups.Keys
        invariant counted == ScheduledOf(backups, node) - remaining && count == |counted|
        decreases remaining
      {
        var id :| id in remaining;
        remaining := remaining - {id};
        if backups[id].node == node && backups[id].kind == Scheduled {
          count := count + 1;
          counted := counted + {id};
        }
      }
      assert counted == ScheduledOf(backups, node);
    }

    /** One transaction of two statements; a negative OFFSET is an SQL error, which rolls it back. */
    method DeleteOldest(node: string, keep: int) returns (ok: bool)
      requires Valid()
      modifies this
      ensures Valid()
      ensures ok <==> keep >= 0
      ensures !ok ==> backups == old(backups) && files == old(files)
      ensures ok ==>
        && backups == old(backups) - Expired(old(backups), node, keep)
        && files == WithBackup(old(files), backups)
    {
      if keep < 0 { return false; }
      // the second statement selects the same rows: the first changed no backup
      files := map f | f in files && files[f] !in Expired(backups, node, keep) :: files[f];
      assert forall f :: f in files ==> files[f] !in Expired(backups, node, keep);
      backups := backups - Expired(backups, node, keep);
      return true;
    }

    /** The retention step of processSchedule (scheduler/backup_job.go). */
    method EnforceRetention(node: string, retentionCount: int)
      requires Valid()
      modifies this
      ensures Valid()
      ensures backups == Retained(old(backups), node, retentionCount)
      ensures retentionCount <= 0 ==> files == old(files)
      ensures retentionCount > 0 ==>
        && files == WithBackup(old(files), backups)
        && |ScheduledOf(backups, node)| <= retentionCount
    {
      if retentionCount > 0 {
        RetentionKeepsNewest(backups, node, retentionCount);
        var count := CountByNode(node);
        if count > retentionCount {
          var ok := DeleteOldest(node, retentionCount);
        } else {
          CountGuardIsRedundant(backups, node, retentionCount);
        }
      }
    }
  }

  // ---------- version numbers along a run ----------

  datatype Event =
    | Create(node: string, kind: Kind, id: Id, now: int, version: nat, completed: bool)
    | Retain(node: string, limit: int)

  function Apply(t: Table, e: Event): Table {
    match e
    case Create(node, kind, id, now, version, completed) => t[id := Backup(node, version, kind, now, completed)]
    case Retain(node, limit) => Retained(t, node, limit)
  }

  function RunFrom(t: Table, events: seq<Event>): Table {
    if events == [] then t else Apply(RunFrom(t, events[..|events| - 1]), events[|events| - 1])
  }

  function Run(events: seq<Event>): Table { RunFrom(map[], events) }

  /**
   What can happen: creations one after the other, each under the next version of its node with a new ID and
   a later time than all before, and retention with any limit.
   */
  ghost predicate Possible(events: seq<Event>) {
    events == [] || (Possible(events[..|events| - 1]) && PossibleAfter(events[..|events| - 1], events[|events| - 1]))
  }

  ghost predicate PossibleAfter(before: seq<Event>, e: Event) {
    match e
    case Create(node, kind, id, now, version, _) =>
      && id !in Run(before) && IsNextVersion(Run(before), node, version)
      && forall j :: 0 <= j < |before| && before[j].Create? ==> before[j].now < now
    case Retain(_, _) => true
  }

  /** The versions a run assigned to a node, in order. */
  function Assigned(events: seq<Event>, node: string): seq<nat> {
    if events == [] then [] else
    var last := events[|events| - 1];
    Assigned(events[..|events| - 1], node) + AssignedBy(last, node)
  }

  /** The newest backup of the node is there, and carries the version assigned last, the greatest of all. */
  ghost predicate NewestCarriesLast(a: seq<nat>, t: Table, node: string) {
    && (a == [] ==> OfNode(t, node) == {})
    && (a != [] ==> exists x :: IsNewestWith(t, node, x, Last(a)))
  }

  function Last(a: seq<nat>): nat
    requires a != []
  {
    a[|a| - 1]
  }

  ghost predicate IsNewestWith(t: Table, node: string, x: Id, version: nat) {
    && x in OfNode(t, node) && t[x].version == version
    && forall y :: y in OfNode(t, node) && y != x ==> Newer(t, x, y) && t[y].version < version
  }

  ghost predicate BornBy(events: seq<Event>, t: Table) {
    forall x :: x in t ==> exists j :: 0 <= j < |events| && events[j].Create? && events[j].now == t[x].createdAt
  }

  /** Retention never deletes the newest backup of a node. */
  lemma NewestSurvives(t: Table, node: string, limit: int, other: string, x: Id, version: nat)
    requires IsNewestWith(t, node, x, version)
    ensures IsNewestWith(Retained(t, other, limit), node, x, version)
  {
    var s := ScheduledOf(t, other);
    if x in s {
      assert Ahead(t, s, x) == {};
    }
  }

  /** A backup newer than all others of its node is kept, whatever the limit. */
  lemma NewestIsRetained(t: Table, node: string, limit: int, x: Id)
    requires x in t && forall y :: y in OfNode(t, node) && y != x ==> Newer(t, x, y)
    ensures x in Retained(t, node, limit)
  {
    forall y | y in ScheduledOf(t, node) ensures !Newer(t, y, x) {
      assert y in OfNode(t, node);
    }
    assert Ahead(t, ScheduledOf(t, node), x) == {};
  }

  /** After a run, the newest backup of a node carries the last version, and backups are as old as their creations. */
  ghost predicate NewestAfter(events: seq<Event>, node: string) {
    NewestCarriesLast(Assigned(events, node), Run(events), node) && BornBy(events, Run(events))
  }

  lemma NewestAfterOneMore(events: seq<Event>, node: string)
    requires events != []
    requires NewestAfter(events[..|events| - 1], node) && PossibleAfter(events[..|events| - 1], events[|events| - 1])
    ensures NewestAfter(events, node)
  {
    var before, e := events[..|events| - 1], events[|events| - 1];
    StepKeepsNewest(before, Assigned(before, node), e, node);
    StillBorn(events, Run(before), Apply(Run(before), e));
  }

  lemma {:induction false} RunKeepsNewest(events: seq<Event>, node: string)
    requires Possible(events)
    ensures NewestAfter(events, node)
  {
    if events == [] {
    } else {
      RunKeepsNewest(events[..|events| - 1], node);
      NewestAfterOneMore(events, node);
    }
  }

  function AssignedBy(e: Event, node: string): seq<nat> {
    if e.Create? && e.node == node then [e.version] else []
  }

  lemma StepKeepsNewest(before: seq<Event>, a: seq<nat>, e: Event, node: string)
    requires NewestCarriesLast(a, Run(before), node) && BornBy(before, Run(before))
    requires PossibleAfter(before, e)
    ensures NewestCarriesLast(a + AssignedBy(e, node), Apply(Run(before), e), node)
  {
    var t := Run(before);
    if e.Create? && e.node == node {
      CreatedIsNewest(before, e);
      assert Last(a + [e.version]) == e.version;
    } else if a == [] {
      assert OfNode(Apply(t, e), node) == {};
    } else {
      var x :| IsNewestWith(t, node, x, Last(a));
      OtherStepKeepsNewest(t, e, node, x, Last(a));
      assert a + [] == a;
    }
  }

  lemma CreatedIsNewest(before: seq<Event>, e: Event)
    requires BornBy(before, Run(before)) && PossibleAfter(before, e) && e.Create?
    ensures IsNewestWith(Apply(Run(before), e), e.node, e.id, e.version)
  {
    var t := Run(before);
    assert forall x :: x in t ==> t[x].createdAt < e.now;
    forall y | y in OfNode(Apply(t, e), e.node) && y != e.id ensures t[y].version < e.version {
      assert y in OfNode(t, e.node);
    }
  }

  lemma OtherStepKeepsNewest(t: Table, e: Event, node: string, x: Id, version: nat)
    requires IsNewestWith(t, node, x, version)
    requires e.Create? ==> e.node != node && e.id !in t
    ensures IsNewestWith(Apply(t, e), node, x, version)
  {
    match e
    case Create(_, _, _, _, _, _) =>
      assert OfNode(Apply(t, e), node) == OfNode(t, node);
    case Retain(n, limit) =>
      NewestSurvives(t, node, limit, n, x, version);
  }

  lemma StillBorn(events: seq<Event>, t: Table, t': Table)
    requires events != [] && BornBy(events[..|events| - 1], t) && t' == Apply(t, events[|events| - 1])
    ensures BornBy(events, t')
  {
    var n := |events| - 1;
    forall x | x in t' ensures exists j :: 0 <= j < |events| && events[j].Create? && events[j].now == t'[x].createdAt {
      if events[n].Create? && x == events[n].id {
        assert events[n].now == t'[x].createdAt;
      } else {
        var j :| 0 <= j < n && events[..n][j].Create? && events[..n][j].now == t[x].createdAt;
        assert events[j] == events[..n][j];
      }
    }
  }

  ghost predicate CountsUp(a: seq<nat>) {
    forall i :: 0 <= i < |a| ==> a[i] == i + 1
  }

  lemma CountsUpOneMore(a: seq<nat>, version: nat)
    requires CountsUp(a) && version == if a == [] then 1 else Last(a) + 1
    ensures CountsUp(a + [version])
  {
  }

  /** Version numbers of a node are never reused: along every run they count up from 1. */
  lemma {:induction false} VersionsIncrease(events: seq<Event>, node: string)
    requires Possible(events)
    ensures CountsUp(Assigned(events, node))
  {
    if events == [] {
    } else {
      var before, last := events[..|events| - 1], events[|events| - 1];
      VersionsIncrease(before, node);
      if last.Create? && last.node == node {
        RunKeepsNewest(before, node);
        NextIsSuccessor(before, node, last.version);
        CountsUpOneMore(Assigned(before, node), last.version);
      } else {
        assert Assigned(before, node) + [] == Assigned(before, node);
      }
    }
  }

  lemma NextIsSuccessor(before: seq<Event>, node: string, version: nat)
    requires NewestCarriesLast(Assigned(before, node), Run(before), node) && IsNextVersion(Run(before), node, version)
    ensures version == if Assigned(before, node) == [] then 1 else Last(Assigned(before, node)) + 1
  {
    var a, t := Assigned(before, node), Run(before);
    if a != [] {
      var x :| IsNewestWith(t, node, x, Last(a));
      var y :| y in OfNode(t, node) && t[y].version + 1 == version;
    }
  }

  // ---------- the last good backup ----------

  ghost predicate HasGood(t: Table, node: string) {
    exists y :: y in ScheduledOf(t, node) && t[y].completed
  }

  predicate CreatesScheduled(e: Event, node: string) {
    e.Create? && e.node == node && e.kind == Scheduled
  }

  /** How many scheduled backups of the node the events create. */
  function Created(events: seq<Event>, node: string): nat {
    if events == [] then 0
    else Created(events[..|events| - 1], node) + if CreatesScheduled(events[|events| - 1], node) then 1 else 0
  }

  /** Each retention of the node comes when fewer scheduled backups have been created than its limit keeps. */
  predicate RetainedInTime(events: seq<Event>, node: string, limit: int) {
    events == [] ||
    var before, e := events[..|events| - 1], events[|events| - 1];
    RetainedInTime(before, node, limit) && (e.Retain? && e.node == node && limit > 0 ==> Created(before, node) < limit)
  }

  /**
   Creations with new IDs after a given time, retention of the node with one limit, and no scheduled backup of
   the node that completes.
   */
  ghost predicate NoneGood(t: Table, events: seq<Event>, node: string, limit: int, after: int) {
    events == [] ||
    var before, e := events[..|events| - 1], events[|events| - 1];
    NoneGood(t, before, node, limit, after)
    && (e.Create? ==> e.id !in RunFrom(t, before) && after < e.now)
    && (CreatesScheduled(e, node) ==> !e.completed)
    && (e.Retain? && e.node == node ==> e.limit == limit)
  }

  /** While the row is there: it has n scheduled rows ahead of it, all younger and none of them good. */
  ghost predicate StillThere(t: Table, node: string, x: Id, row: Backup, n: nat) {
    && x in ScheduledOf(t, node) && t[x] == row
    && (forall y :: y in ScheduledOf(t, node) && y != x ==> t[y].createdAt != row.createdAt)
    && |Ahead(t, ScheduledOf(t, node), x)| == n
    && forall y :: y in Ahead(t, ScheduledOf(t, node), x) ==> !t[y].completed
  }

  /** Once it is gone: only younger scheduled rows are left, none of them good. */
  ghost predicate AllYounger(t: Table, node: string, row: Backup) {
    forall y :: y in ScheduledOf(t, node) ==> t[y].createdAt > row.createdAt && !t[y].completed
  }

  lemma CreateAhead(t: Table, e: Event, node: string, x: Id, row: Backup, n: nat)
    requires StillThere(t, node, x, row, n) && CreatesScheduled(e, node)
    requires e.id !in t && row.createdAt < e.now && !e.completed
    ensures StillThere(Apply(t, e), node, x, row, n + 1)
  {
    var t' := Apply(t, e);
    var s, s' := ScheduledOf(t, node), ScheduledOf(t', node);
    assert s' == s + {e.id};
    assert Ahead(t', s', x) == Ahead(t, s, x) + {e.id};
  }

  lemma OtherCreateAhead(t: Table, e: Event, node: string, x: Id, row: Backup, n: nat)
    requires StillThere(t, node, x, row, n) && e.Create? && !CreatesScheduled(e, node) && e.id !in t
    ensures StillThere(Apply(t, e), node, x, row, n)
  {
    var t' := Apply(t, e);
    var s := ScheduledOf(t, node);
    assert ScheduledOf(t', node) == s && Ahead(t', s, x) == Ahead(t, s, x);
  }

  lemma OtherNodeRetained(t: Table, node: string, other: string, limit: int)
    requires node != other
    ensures ScheduledOf(Retained(t, other, limit), node) == ScheduledOf(t, node)
  {
  }

  lemma RetainAhead(t: Table, node: string, limit: int, x: Id, row: Backup, n: nat)
    requires StillThere(t, node, x, row, n)
    ensures var t' := Retained(t, node, limit);
      if limit <= 0 || n < limit then StillThere(t', node, x, row, n) else AllYounger(t', node, row)
  {
    if limit <= 0 { return; }
    var t' := Retained(t, node, limit);
    var s := ScheduledOf(t, node);
    var beyond := Expired(t, node, limit);
    assert ScheduledOf(t', node) == s - beyond;
    if n < limit {
      forall y | y in Ahead(t, s, x) ensures y !in beyond {
        if y in beyond { FirstRowsAreNewest(t, s, limit, x, y); }
      }
      assert Ahead(t', s - beyond, x) == Ahead(t, s, x);
    } else {
      forall y | y in s - beyond ensures t[y].createdAt > row.createdAt && !t[y].completed {
        FirstRowsAreNewest(t, s, limit, y, x);
        assert y in Ahead(t, s, x);
      }
    }
  }

  lemma StepAlive(t: Table, e: Event, node: string, limit: int, x: Id, row: Backup, n: nat)
    requires StillThere(t, node, x, row, n)
    requires e.Create? ==> e.id !in t && row.createdAt < e.now
    requires CreatesScheduled(e, node) ==> !e.completed
    requires e.Retain? && e.node == node ==> e.limit == limit
    ensures if e.Retain? && e.node == node && 0 < limit <= n then AllYounger(Apply(t, e), node, row)
            else StillThere(Apply(t, e), node, x, row, n + if CreatesScheduled(e, node) then 1 else 0)
  {
    if CreatesScheduled(e, node) {
      CreateAhead(t, e, node, x, row, n);
    } else if e.Create? {
      OtherCreateAhead(t, e, node, x, row, n);
    } else if e.node == node {
      RetainAhead(t, node, limit, x, row, n);
    } else {
      OtherNodeRetained(t, node, e.node, e.limit);
      assert Ahead(Apply(t, e), ScheduledOf(t, node), x) == Ahead(t, ScheduledOf(t, node), x);
    }
  }

  lemma StepGone(t: Table, e: Event, node: string, row: Backup)
    requires AllYounger(t, node, row)
    requires e.Create? ==> row.createdAt < e.now
    requires CreatesScheduled(e, node) ==> !e.completed
    ensures AllYounger(Apply(t, e), node, row)
  {
    forall y | y in ScheduledOf(Apply(t, e), node)
      ensures Apply(t, e)[y].createdAt > row.createdAt && !Apply(t, e)[y].completed
    {
      assert y in ScheduledOf(t, node) || (e.Create? && y == e.id);
    }
  }

  lemma {:induction false} RunTracksGood(t: Table, events: seq<Event>, node: string, limit: int, x: Id)
    requires x in t && StillThere(t, node, x, t[x], 0) && NoneGood(t, events, node, limit, t[x].createdAt)
    ensures var end := RunFrom(t, events);
      if RetainedInTime(events, node, limit) then StillThere(end, node, x, t[x], Created(events, node))
      else AllYounger(end, node, t[x])
  {
    if events == [] {
    } else {
      var before, e := events[..|events| - 1], events[|events| - 1];
      RunTracksGood(t, before, node, limit, x);
      if RetainedInTime(before, node, limit) {
        StepAlive(RunFrom(t, before), e, node, limit, x, t[x], Created(before, node));
      } else {
        StepGone(RunFrom(t, before), e, node, t[x]);
      }
    }
  }

  /**
   Retention counts failed backups. After a completed scheduled backup, newer than all others, and until another
   one completes, the node keeps a completed scheduled backup exactly as long as each retention comes when fewer
   scheduled ones have been created since than it keeps.
   */
  lemma GoodSurvivesExactly(t: Table, events: seq<Event>, node: string, limit: int, x: Id)
    requires x in ScheduledOf(t, node) && t[x].completed
    requires forall y :: y in ScheduledOf(t, node) && y != x ==> t[y].createdAt < t[x].createdAt
    requires NoneGood(t, events, node, limit, t[x].createdAt)
    ensures HasGood(RunFrom(t, events), node) <==> RetainedInTime(events, node, limit)
  {
    assert Ahead(t, ScheduledOf(t, node), x) == {};
    RunTracksGood(t, events, node, limit, x);
  }
}
