/**
 The migration runner (repository/migrator.go): several replicas apply the same sorted list of files to one
 database, any of them crashing at any point, with or without the advisory lock.

 The database is the committed rows of schema_migrations and the files whose SQL is committed, both in the
 order of their commits.
 */
module Migrator {
  import opened Prelude

  // ---------- one undisturbed run ----------

  /** The files not yet recorded, in order. */
  function Pending(files: seq<string>, recorded: seq<string>): seq<string> {
    if files == [] then [] else
    var before, last := files[..|files| - 1], files[|files| - 1];
    Pending(before, recorded) + (if last in recorded then [] else [last])
  }

  lemma {:induction false} PendingMembers(files: seq<string>, recorded: seq<string>)
    ensures forall f :: f in Pending(files, recorded) <==> f in files && f !in recorded
  {
    if files == [] {
    } else {
      var before, last := files[..|files| - 1], files[|files| - 1];
      PendingMembers(before, recorded);
      assert files == before + [last];
    }
  }

  /** How many of the files come before the first whose SQL fails. */
  function Successes(files: seq<string>, works: string -> bool): (n: nat)
    ensures n <= |files|
    ensures forall i :: 0 <= i < n ==> works(files[i])
    ensures n < |files| ==> !works(files[n])
  {
    if files == [] || !works(files[0]) then 0 else 1 + Successes(files[1..], works)
  }

  lemma SuccessesIs(files: seq<string>, works: string -> bool, n: nat)
    requires n <= |files| && forall i :: 0 <= i < n ==> works(files[i])
    requires n < |files| ==> !works(files[n])
    ensures Successes(files, works) == n
  {
    if n == 0 {
    } else {
      SuccessesIs(files[1..], works, n - 1);
    }
  }

  lemma StopsAt(pending: seq<string>, works: string -> bool, passed: seq<string>, name: string)
    requires passed + [name] <= pending && !works(name) && forall f :: f in passed ==> works(f)
    ensures Successes(pending, works) == |passed| < |pending| && pending[..|passed|] == passed
  {
    assert forall i :: 0 <= i < |passed| ==> pending[i] == (passed + [name])[i] == passed[i];
    assert pending[|passed|] == (passed + [name])[|passed|] == name;
    SuccessesIs(pending, works, |passed|);
  }

  class Database {
    var recorded: seq<string>
    var schema: seq<string>

    constructor (recorded: seq<string>)
      ensures this.recorded == this.schema == recorded
    {
      this.recorded, this.schema := recorded, recorded;
    }

    /** works(f): the SQL of f can be read and runs without an error. */
    method Run(files: seq<string>, works: string -> bool) returns (ok: bool)
      requires Distinct(files)
      modifies this
      ensures var pending := Pending(files, old(recorded));
        var n := Successes(pending, works);
        && (ok <==> n == |pending|)
        && recorded == old(recorded) + pending[..n]
        && schema == old(schema) + pending[..n]
    {
      var applied := set f | f in recorded;
      ghost var was, pending, passed := recorded, Pending(files, recorded), [];
      for i := 0 to |files|
        invariant passed == Pending(files[..i], was)
        invariant forall f :: f in passed ==> works(f)
        invariant recorded == was + passed && schema == old(schema) + passed
      {
        PendingStep(files, was, i);
        var name := files[i];
        if name in applied { continue; }
        if !works(name) {
          StopsAt(pending, works, passed, name);
          return false;
        }
        // the SQL and its record commit in one transaction
        recorded, schema := recorded + [name], schema + [name];
        passed := passed + [name];
      }
      assert files[..|files|] == files;
      SuccessesIs(pending, works, |pending|);
      return true;
    }
  }

  lemma PendingStep(files: seq<string>, recorded: seq<string>, i: nat)
    requires i < |files|
    ensures Pending(files[..i + 1], recorded)
         == Pending(files[..i], recorded) + (if files[i] in recorded then [] else [files[i]])
    ensures Pending(files[..i + 1], recorded) <= Pending(files, recorded)
  {
    PendingPrefix(files, recorded, i + 1);
    assert files[..i + 1] == files[..i] + [files[i]];
    PendingSnoc(files[..i], files[i], recorded);
  }

  lemma PendingSnoc(before: seq<string>, last: string, recorded: seq<string>)
    ensures Pending(before + [last], recorded)
         == Pending(before, recorded) + (if last in recorded then [] else [last])
  {
    assert (before + [last])[..|before|] == before;
  }

  lemma {:induction false} PendingPrefix(files: seq<string>, recorded: seq<string>, n: nat)
    requires n <= |files|
    ensures Pending(files[..n], recorded) <= Pending(files, recorded)
    decreases |files|
  {
    if n < |files| {
      var before := files[..|files| - 1];
      PendingPrefix(before, recorded, n);
      assert before[..n] == files[..n];
    } else {
      assert files[..n] == files;
    }
  }

  // ---------- several replicas ----------

  /**
   Where a replica stands. applied is what it read from the table and next the file it looks at.
   Executed: the transaction ran the SQL. Inserted: it also inserted the row, and has not committed.
   */
  datatype Replica =
    | Down
    | Waiting
    | Starting
    | Scanning(applied: set<string>, next: nat)
    | Executed(applied: set<string>, next: nat)
    | Inserted(applied: set<string>, next: nat)
    | Finished

  datatype System = System(recorded: seq<string>, schema: seq<string>, replicas: seq<Replica>)

  datatype Event =
    | Start(i: nat)
    | Lock(i: nat)
    | ReadTable(i: nat)
    | Skip(i: nat)
    | Execute(i: nat, ok: bool)
    | Insert(i: nat)
    | Commit(i: nat, ok: bool)
    | CommitUnheard(i: nat) // the server commits, the replica sees an error
    | Finish(i: nat)
    | Crash(i: nat)

  /** A replica between taking the advisory lock and giving it back. */
  predicate Active(r: Replica) {
    r.Starting? || r.Scanning? || r.Executed? || r.Inserted?
  }

  /** Another open transaction has inserted this file's row: the unique index makes the insert wait. */
  predicate InsertWaits(files: seq<string>, s: System, i: nat, file: string) {
    exists j :: 0 <= j < |s.replicas| && j != i && s.replicas[j].Inserted?
      && s.replicas[j].next < |files| && files[s.replicas[j].next] == file
  }

  function Become(s: System, i: nat, r: Replica): System
    requires i < |s.replicas|
  {
    s.(replicas := s.replicas[i := r])
  }

  function Step(files: seq<string>, useLock: bool, s: System, e: Event): System {
    if e.i >= |s.replicas| then s else
    var r := s.replicas[e.i];
    match e
    case Start(i) =>
      if r.Down? || r.Finished? then Become(s, i, if useLock then Waiting else Starting) else s
    case Lock(i) =>
      if r.Waiting? && forall j :: 0 <= j < |s.replicas| ==> !Active(s.replicas[j]) then Become(s, i, Starting) else s
    case ReadTable(i) =>
      if r.Starting? then Become(s, i, Scanning(set f | f in s.recorded, 0)) else s
    case Skip(i) =>
      if r.Scanning? && r.next < |files| && files[r.next] in r.applied then
        Become(s, i, Scanning(r.applied, r.next + 1))
      else s
    case Execute(i, ok) =>
      if r.Scanning? && r.next < |files| && files[r.next] !in r.applied then
        Become(s, i, if ok then Executed(r.applied, r.next) else Down)
      else s
    case Insert(i) =>
      if !r.Executed? || r.next >= |files| then s
      else if files[r.next] in s.recorded then Become(s, i, Down)
      else if InsertWaits(files, s, i, files[r.next]) then s
      else Become(s, i, Inserted(r.applied, r.next))
    case Commit(i, ok) =>
      if !r.Inserted? || r.next >= |files| then s
      else if !ok then Become(s, i, Down)
      else Committed(files, s, i).(replicas := s.replicas[i := Scanning(r.applied, r.next + 1)])
    case CommitUnheard(i) =>
      if !r.Inserted? || r.next >= |files| then s
      else Committed(files, s, i).(replicas := s.replicas[i := Down])
    case Finish(i) =>
      if r.Scanning? && r.next == |files| then Become(s, i, Finished) else s
    case Crash(i) => Become(s, i, Down)
  }

  function Committed(files: seq<string>, s: System, i: nat): System
    requires i < |s.replicas| && s.replicas[i].Inserted? && s.replicas[i].next < |files|
  {
    var f := files[s.replicas[i].next];
    s.(recorded := s.recorded + [f], schema := s.schema + [f])
  }

  function Run(files: seq<string>, useLock: bool, s: System, events: seq<Event>): System {
    if events == [] then s
    else Step(files, useLock, Run(files, useLock, s, events[..|events| - 1]), events[|events| - 1])
  }

  ghost predicate Initial(s: System) {
    s.schema == s.recorded && Distinct(s.recorded) && forall i :: 0 <= i < |s.replicas| ==> s.replicas[i].Down?
  }

  // ---------- the invariant ----------

  ghost predicate AllRecorded(files: seq<string>, recorded: seq<string>, n: nat)
    requires n <= |files|
  {
    forall i :: 0 <= i < n ==> files[i] in recorded
  }

  /** What a replica knows: what it took for applied is recorded, and so is every file it has passed. */
  ghost predicate ReplicaOk(files: seq<string>, s: System, r: Replica) {
    && (r.Scanning? || r.Executed? || r.Inserted? ==>
        && r.next <= |files|
        && (forall f :: f in r.applied ==> f in s.recorded)
        && AllRecorded(files, s.recorded, r.next))
    && (r.Executed? || r.Inserted? ==> r.next < |files| && files[r.next] !in r.applied)
    && (r.Inserted? ==> files[r.next] !in s.recorded)
    && (r.Finished? ==> AllRecorded(files, s.recorded, |files|))
  }

  /** The recorded files are the initial ones and then a prefix of what was pending at the start. */
  ghost predicate InOrder(files: seq<string>, first: System, s: System) {
    exists k :: 0 <= k <= |Pending(files, first.recorded)|
      && s.recorded == first.recorded + Pending(files, first.recorded)[..k]
  }

  ghost predicate Inv(files: seq<string>, first: System, s: System) {
    && |s.replicas| == |first.replicas|
    && s.schema == s.recorded
    && InOrder(files, first, s)
    && (forall i :: 0 <= i < |s.replicas| ==> ReplicaOk(files, s, s.replicas[i]))
    && InsertsDiffer(files, s)
  }

  /** The first file not recorded is the next of the pending ones. */
  lemma FirstUnrecorded(files: seq<string>, first: seq<string>, k: nat, n: nat)
    requires Distinct(files) && k <= |Pending(files, first)| && n < |files|
    requires var recorded := first + Pending(files, first)[..k];
      AllRecorded(files, recorded, n) && files[n] !in recorded
    ensures k < |Pending(files, first)| && Pending(files, first)[k] == files[n]
  {
    var p := Pending(files, first);
    var passed := Pending(files[..n], first);
    NthPending(files, first, n);
    PendingDistinct(files, first);
    PendingMembers(files[..n], first);
    PendingMembers(files, first);
    assert forall m :: 0 <= m < |p| ==> p[m] in p && p[m] !in first;
    assert forall m :: 0 <= m < |passed| ==> passed[m] in passed && p[m] in first + p[..k];
    FirstMissing(p, first, k, |passed|);
  }

  /** A file that is pending has its place among the pending ones, after those pending before it. */
  lemma NthPending(files: seq<string>, first: seq<string>, n: nat)
    requires n < |files| && files[n] !in first
    ensures var passed, p := Pending(files[..n], first), Pending(files, first);
      passed <= p && |passed| < |p| && p[|passed|] == files[n]
  {
    PendingPrefix(files, first, n);
    PendingPrefix(files, first, n + 1);
    assert files[..n + 1][..n] == files[..n];
    assert Pending(files[..n + 1], first) == Pending(files[..n], first) + [files[n]];
  }

  lemma InPrefix(p: seq<string>, first: seq<string>, k: nat, m: nat)
    requires Distinct(p) && k <= |p| && m < |p| && p[m] !in first
    ensures p[m] in first + p[..k] <==> m < k
  {
    assert m < k ==> p[..k][m] == p[m];
  }

  lemma FirstMissing(p: seq<string>, first: seq<string>, k: nat, j: nat)
    requires Distinct(p) && k <= |p| && j < |p| && forall m :: 0 <= m < |p| ==> p[m] !in first
    requires p[j] !in first + p[..k] && forall m :: 0 <= m < j ==> p[m] in first + p[..k]
    ensures j == k
  {
    InPrefix(p, first, k, j);
    InPrefix(p, first, k, k);
  }

  lemma {:induction false} PendingDistinct(files: seq<string>, recorded: seq<string>)
    requires Distinct(files)
    ensures Distinct(Pending(files, recorded))
  {
    if files == [] {
    } else {
      var before := files[..|files| - 1];
      PendingDistinct(before, recorded);
      PendingMembers(before, recorded);
      assert files[|files| - 1] !in before;
    }
  }

  /** Two open inserts never concern the same file. */
  ghost predicate InsertsDiffer(files: seq<string>, s: System) {
    forall i, j :: 0 <= i < j < |s.replicas| && OpenInsert(files, s.replicas[i]) && OpenInsert(files, s.replicas[j]) ==>
      files[s.replicas[i].next] != files[s.replicas[j].next]
  }

  predicate OpenInsert(files: seq<string>, r: Replica) { r.Inserted? && r.next < |files| }

  /** A step that commits nothing. */
  lemma OwnReplicaOk(files: seq<string>, useLock: bool, s: System, e: Event)
    requires e.i < |s.replicas| && ReplicaOk(files, s, s.replicas[e.i])
    requires Step(files, useLock, s, e).recorded == s.recorded
    ensures var s' := Step(files, useLock, s, e);
      && |s'.replicas| == |s.replicas| && s'.schema == s.schema
      && ReplicaOk(files, s', s'.replicas[e.i])
      && forall j :: 0 <= j < |s.replicas| && j != e.i ==> s'.replicas[j] == s.replicas[j]
  {
  }

  lemma StepInsertsDiffer(files: seq<string>, useLock: bool, s: System, e: Event)
    requires e.i < |s.replicas| && InsertsDiffer(files, s)
    ensures InsertsDiffer(files, Step(files, useLock, s, e))
  {
    var s' := Step(files, useLock, s, e);
    if s'.replicas[e.i].Inserted? && !s.replicas[e.i].Inserted? {
      assert !InsertWaits(files, s, e.i, files[s.replicas[e.i].next]);
    }
  }

  lemma StepKeepsInv(files: seq<string>, useLock: bool, first: System, s: System, e: Event)
    requires Distinct(files) && Inv(files, first, s)
    ensures Inv(files, first, Step(files, useLock, s, e))
  {
    var s' := Step(files, useLock, s, e);
    if e.i < |s.replicas| {
      assert ReplicaOk(files, s, s.replicas[e.i]);
      if s'.recorded != s.recorded {
        CommitKeepsInv(files, first, s, s', e.i);
      } else {
        OwnReplicaOk(files, useLock, s, e);
        StepInsertsDiffer(files, useLock, s, e);
        SameRecordsKeepInv(files, first, s, s', e.i);
      }
    }
  }

  lemma SameRecordsKeepInv(files: seq<string>, first: System, s: System, s': System, i: nat)
    requires Inv(files, first, s) && s'.recorded == s.recorded && s'.schema == s.schema
    requires i < |s.replicas| == |s'.replicas| && ReplicaOk(files, s', s'.replicas[i]) && InsertsDiffer(files, s')
    requires forall j :: 0 <= j < |s.replicas| && j != i ==> s'.replicas[j] == s.replicas[j]
    ensures Inv(files, first, s')
  {
    assert InOrder(files, first, s');
    forall j | 0 <= j < |s'.replicas| ensures ReplicaOk(files, s', s'.replicas[j]) {
      if j != i { assert ReplicaOk(files, s, s.replicas[j]); }
    }
  }

  lemma CommitKeepsInv(files: seq<string>, first: System, s: System, s': System, i: nat)
    requires Distinct(files) && Inv(files, first, s)
    requires i < |s.replicas| && s.replicas[i].Inserted?
    requires s'.replicas == s.replicas[i := Down]
      || s'.replicas == s.replicas[i := Scanning(s.replicas[i].applied, s.replicas[i].next + 1)]
    requires s.replicas[i].next < |files|
      && s'.recorded == s.recorded + [files[s.replicas[i].next]] && s'.schema == s'.recorded
    ensures Inv(files, first, s')
  {
    assert ReplicaOk(files, s, s.replicas[i]);
    CommitKeepsOrder(files, first, s, s', i);
    forall j | 0 <= j < |s.replicas| ensures ReplicaOk(files, s', s'.replicas[j]) {
      assert ReplicaOk(files, s, s.replicas[j]);
      CommitKeepsReplica(files, s, s', i, j);
    }
  }

  lemma CommitKeepsOrder(files: seq<string>, first: System, s: System, s': System, i: nat)
    requires Distinct(files) && InOrder(files, first, s)
    requires i < |s.replicas| && s.replicas[i].Inserted? && ReplicaOk(files, s, s.replicas[i])
    requires s'.recorded == s.recorded + [files[s.replicas[i].next]]
    ensures InOrder(files, first, s')
  {
    var p := Pending(files, first.recorded);
    var k :| 0 <= k <= |p| && s.recorded == first.recorded + p[..k];
    FirstUnrecorded(files, first.recorded, k, s.replicas[i].next);
    assert s'.recorded == first.recorded + p[..k + 1];
  }

  lemma CommitKeepsReplica(files: seq<string>, s: System, s': System, i: nat, j: nat)
    requires i < |s.replicas| && j < |s.replicas| == |s'.replicas| && OpenInsert(files, s.replicas[i])
    requires ReplicaOk(files, s, s.replicas[i]) && ReplicaOk(files, s, s.replicas[j]) && InsertsDiffer(files, s)
    requires s'.recorded == s.recorded + [files[s.replicas[i].next]]
    requires (j != i && s'.replicas[j] == s.replicas[j])
      || (j == i && s'.replicas[i] in {Down, Scanning(s.replicas[i].applied, s.replicas[i].next + 1)})
    ensures ReplicaOk(files, s', s'.replicas[j])
  {
    var n := s.replicas[i].next;
    assert files[n] in s'.recorded && forall f :: f in s.recorded ==> f in s'.recorded;
    assert forall f :: f in s'.recorded ==> f in s.recorded || f == files[n];
  }

  lemma {:induction false} RunKeepsInv(files: seq<string>, useLock: bool, first: System, events: seq<Event>)
    requires Distinct(files) && Initial(first)
    ensures Inv(files, first, Run(files, useLock, first, events))
  {
    if events == [] {
      assert first.recorded == first.recorded + Pending(files, first.recorded)[..0];
    } else {
      var before := events[..|events| - 1];
      RunKeepsInv(files, useLock, first, before);
      StepKeepsInv(files, useLock, first, Run(files, useLock, first, before), events[|events| - 1]);
    }
  }

  /**
   In every run, with or without the lock: the files whose SQL is committed are the recorded ones, none is
   committed twice, they are what was recorded at first and then a prefix of the pending files in sorted
   order, and once a run has returned nil every file is among them.
   */
  lemma EveryRunMigratesInOrder(files: seq<string>, useLock: bool, first: System, events: seq<Event>)
    requires Distinct(files) && Initial(first)
    ensures var s := Run(files, useLock, first, events);
      && s.schema == s.recorded
      && Distinct(s.recorded)
      && InOrder(files, first, s)
      && forall i, f :: 0 <= i < |s.replicas| && s.replicas[i].Finished? && f in files ==> f in s.recorded
  {
    RunKeepsInv(files, useLock, first, events);
    var s := Run(files, useLock, first, events);
    PendingDistinct(files, first.recorded);
    PendingMembers(files, first.recorded);
    var p := Pending(files, first.recorded);
    var k :| 0 <= k <= |p| && s.recorded == first.recorded + p[..k];
    assert forall m :: 0 <= m < |p| ==> p[m] !in first.recorded;
    forall i, f | 0 <= i < |s.replicas| && s.replicas[i].Finished? && f in files ensures f in s.recorded {
      assert ReplicaOk(files, s, s.replicas[i]);
    }
  }

  /** From an empty database the committed files are always a prefix of the sorted list. */
  lemma FreshDatabase(files: seq<string>, useLock: bool, first: System, events: seq<Event>)
    requires Distinct(files) && Initial(first) && first.recorded == []
    ensures Run(files, useLock, first, events).schema <= files
  {
    EveryRunMigratesInOrder(files, useLock, first, events);
    AllPending(files);
  }

  lemma {:induction false} AllPending(files: seq<string>)
    ensures Pending(files, []) == files
  {
    if files == [] {
    } else {
      AllPending(files[..|files| - 1]);
    }
  }

  // ---------- what the lock adds ----------

  ghost predicate Alone(s: System) {
    forall i, j :: 0 <= i < j < |s.replicas| ==> !(Active(s.replicas[i]) && Active(s.replicas[j]))
  }

  ghost predicate AloneInLock(files: seq<string>, s: System) {
    Alone(s) && forall i :: 0 <= i < |s.replicas| ==> UpToDate(files, s, s.replicas[i])
  }

  /** What a replica does not know to be recorded is not. */
  ghost predicate UpToDate(files: seq<string>, s: System, r: Replica) {
    r.Scanning? || r.Executed? || r.Inserted? ==>
      forall f :: f in s.recorded ==> f in r.applied || exists i :: 0 <= i < r.next <= |files| && files[i] == f
  }

  lemma StepKeepsAlone(files: seq<string>, s: System, e: Event)
    requires Alone(s)
    ensures Alone(Step(files, true, s, e))
  {
  }

  lemma OtherUpToDate(files: seq<string>, s: System, e: Event, j: nat)
    requires Alone(s) && e.i < |s.replicas| && j < |s.replicas| && j != e.i && UpToDate(files, s, s.replicas[j])
    ensures var s' := Step(files, true, s, e); |s'.replicas| == |s.replicas| && UpToDate(files, s', s'.replicas[j])
  {
    var s' := Step(files, true, s, e);
    assert s'.replicas[j] == s.replicas[j];
    assert s'.recorded != s.recorded ==> Active(s.replicas[e.i]);
    assert !(Active(s.replicas[e.i]) && Active(s.replicas[j]));
  }

  lemma StepKeepsUpToDate(files: seq<string>, first: System, s: System, e: Event)
    requires Inv(files, first, s) && AloneInLock(files, s)
    ensures AloneInLock(files, Step(files, true, s, e))
  {
    var s' := Step(files, true, s, e);
    StepKeepsAlone(files, s, e);
    if e.i < |s.replicas| {
      OwnUpToDate(files, first, s, e);
      forall j | 0 <= j < |s'.replicas| ensures UpToDate(files, s', s'.replicas[j]) {
        if j != e.i { OtherUpToDate(files, s, e, j); }
      }
    }
  }

  lemma OwnUpToDate(files: seq<string>, first: System, s: System, e: Event)
    requires Inv(files, first, s) && AloneInLock(files, s) && e.i < |s.replicas|
    ensures var s' := Step(files, true, s, e); e.i < |s'.replicas| && UpToDate(files, s', s'.replicas[e.i])
  {
    assert UpToDate(files, s, s.replicas[e.i]) && ReplicaOk(files, s, s.replicas[e.i]);
  }

  lemma {:induction false} LockKeepsUpToDate(files: seq<string>, first: System, events: seq<Event>)
    requires Distinct(files) && Initial(first)
    ensures AloneInLock(files, Run(files, true, first, events))
  {
    if events == [] {
    } else {
      var before := events[..|events| - 1];
      LockKeepsUpToDate(files, first, before);
      RunKeepsInv(files, true, first, before);
      StepKeepsUpToDate(files, first, Run(files, true, first, before), events[|events| - 1]);
    }
  }

  /** With the lock, no replica ever executes SQL that is committed already, so no insert is ever refused. */
  lemma LockedRunsNeverCollide(files: seq<string>, first: System, events: seq<Event>, i: nat)
    requires Distinct(files) && Initial(first)
    ensures var s := Run(files, true, first, events);
      i < |s.replicas| && s.replicas[i].Executed? ==>
        s.replicas[i].next < |files| && files[s.replicas[i].next] !in s.recorded
        && !InsertWaits(files, s, i, files[s.replicas[i].next])
  {
    LockKeepsUpToDate(files, first, events);
    RunKeepsInv(files, true, first, events);
    var s := Run(files, true, first, events);
    if i < |s.replicas| && s.replicas[i].Executed? {
      assert UpToDate(files, s, s.replicas[i]) && ReplicaOk(files, s, s.replicas[i]);
    }
  }

  lemma RunOneMore(files: seq<string>, useLock: bool, s: System, before: seq<Event>, e: Event)
    ensures Run(files, useLock, s, before + [e]) == Step(files, useLock, Run(files, useLock, s, before), e)
  {
    assert (before + [e])[..|before + [e]| - 1] == before;
  }

  lemma StartStep(replicas: seq<Replica>, i: nat)
    requires i < |replicas| && replicas[i] == Down
    ensures Step(["1.sql"], false, System([], [], replicas), Start(i)) == System([], [], replicas[i := Starting])
  {
  }

  lemma BothStart(first: System)
    requires first == System([], [], [Down, Down])
    ensures Run(["1.sql"], false, first, [Start(0), Start(1)]) == System([], [], [Starting, Starting])
  {
    RunOneMore(["1.sql"], false, first, [], Start(0));
    StartStep([Down, Down], 0);
    assert [] + [Start(0)] == [Start(0)] && [Down, Down][0 := Starting] == [Starting, Down];
    RunOneMore(["1.sql"], false, first, [Start(0)], Start(1));
    StartStep([Starting, Down], 1);
    assert [Start(0)] + [Start(1)] == [Start(0), Start(1)] && [Starting, Down][1 := Starting] == [Starting, Starting];
  }

  lemma BothRead(first: System)
    requires first == System([], [], [Down, Down])
    ensures Run(["1.sql"], false, first, [Start(0), Start(1), ReadTable(0), ReadTable(1)])
         == System([], [], [Scanning({}, 0), Scanning({}, 0)])
  {
    BothStart(first);
    RunOneMore(["1.sql"], false, first, [Start(0), Start(1)], ReadTable(0));
    RunOneMore(["1.sql"], false, first, [Start(0), Start(1), ReadTable(0)], ReadTable(1));
    assert [Start(0), Start(1)] + [ReadTable(0)] == [Start(0), Start(1), ReadTable(0)];
    assert [Start(0), Start(1), ReadTable(0)] + [ReadTable(1)] == [Start(0), Start(1), ReadTable(0), ReadTable(1)];
    var empty: seq<string> := [];
    assert (set f | f in empty) == {};
  }

  lemma BothExecuteTheFile(events: seq<Event>)
    requires events == [Start(0), Start(1), ReadTable(0), ReadTable(1), Execute(0, true), Execute(1, true)]
    ensures Run(["1.sql"], false, System([], [], [Down, Down]), events)
         == System([], [], [Executed({}, 0), Executed({}, 0)])
  {
    var files, first := ["1.sql"], System([], [], [Down, Down]);
    var begun := [Start(0), Start(1), ReadTable(0), ReadTable(1)];
    BothRead(first);
    RunOneMore(files, false, first, begun, Execute(0, true));
    RunOneMore(files, false, first, begun + [Execute(0, true)], Execute(1, true));
    assert events == begun + [Execute(0, true)] + [Execute(1, true)];
  }

  /**
   Without it, two replicas can read the same empty table and run the same SQL at once. The insert of the
   second waits for the first and is then refused, which rolls its SQL back.
   */
  lemma UnlockedRunsCollide(events: seq<Event>)
    requires events == [Start(0), Start(1), ReadTable(0), ReadTable(1), Execute(0, true), Execute(1, true)]
    ensures var files, s0 := ["1.sql"], System([], [], [Down, Down]);
      var both := Run(files, false, s0, events);
      var inserted := Step(files, false, both, Insert(0));
      var committed := Step(files, false, inserted, Commit(0, true));
      && both.replicas == [Executed({}, 0), Executed({}, 0)]
      && Step(files, false, inserted, Insert(1)) == inserted
      && Step(files, false, committed, Insert(1)) == System(["1.sql"], ["1.sql"], [Scanning({}, 1), Down])
  {
    BothExecuteTheFile(events);
    SecondInsertIsRefused(System([], [], [Executed({}, 0), Executed({}, 0)]));
  }

  lemma SecondInsertIsRefused(both: System)
    requires both == System([], [], [Executed({}, 0), Executed({}, 0)])
    ensures var files := ["1.sql"];
      var inserted := Step(files, false, both, Insert(0));
      var committed := Step(files, false, inserted, Commit(0, true));
      && Step(files, false, inserted, Insert(1)) == inserted
      && Step(files, false, committed, Insert(1)) == System(["1.sql"], ["1.sql"], [Scanning({}, 1), Down])
  {
    var files := ["1.sql"];
    var inserted := Step(files, false, both, Insert(0));
    assert inserted == System([], [], [Inserted({}, 0), Executed({}, 0)]);
    assert InsertWaits(files, inserted, 1, "1.sql") by { assert inserted.replicas[0].Inserted?; }
    assert Step(files, false, inserted, Commit(0, true))
        == System(["1.sql"], ["1.sql"], [Scanning({}, 1), Executed({}, 0)]);
  }

  // ---------- a replica that is not disturbed does what Run does ----------

  function Own(events: seq<Event>, i: nat): seq<Event> {
    if events == [] then [] else
    Own(events[..|events| - 1], i) + (if events[|events| - 1].i == i then [events[|events| - 1]] else [])
  }

  /** The steps of a replica through the first m files, all of whose pending ones work. */
  function PlanTo(files: seq<string>, recorded: seq<string>, i: nat, m: nat): seq<Event>
    requires m <= |files|
  {
    if m == 0 then [ReadTable(i)]
    else PlanTo(files, recorded, i, m - 1)
         + (if files[m - 1] in recorded then [Skip(i)] else [Execute(i, true), Insert(i), Commit(i, true)])
  }

  /** The first steps through the file after those. */
  function PartOf(i: nat, part: nat): seq<Event> {
    if part == 0 then [] else if part == 1 then [Execute(i, true)] else [Execute(i, true), Insert(i)]
  }

  /** Nobody else holds the lock, and replica i has been through m files and part of the next. */
  ghost predicate StandsAt(files: seq<string>, first: System, s: System, i: nat, m: nat, part: nat)
    requires m <= |files|
  {
    var applied, passed := (set f | f in first.recorded), Pending(files[..m], first.recorded);
    && i < |s.replicas| && (forall j :: 0 <= j < |s.replicas| && j != i ==> !Active(s.replicas[j]))
    && s.recorded == first.recorded + passed && s.schema == first.schema + passed
    && s.replicas[i] == (if part == 0 then Scanning(applied, m) else if part == 1 then Executed(applied, m)
                         else Inserted(applied, m))
  }

  ghost predicate HoldsLock(first: System, s: System, i: nat) {
    && i < |s.replicas| && s.replicas[i] == Starting
    && (forall j :: 0 <= j < |s.replicas| && j != i ==> !Active(s.replicas[j]))
    && s.recorded == first.recorded && s.schema == first.schema
  }

  /** While one replica holds the lock, the others change nothing but where they wait. */
  lemma OthersWait(files: seq<string>, s: System, e: Event, i: nat)
    requires i < |s.replicas| && Active(s.replicas[i]) && e.i != i
    requires forall j :: 0 <= j < |s.replicas| && j != i ==> !Active(s.replicas[j])
    ensures var s' := Step(files, true, s, e);
      && |s'.replicas| == |s.replicas| && s'.replicas[i] == s.replicas[i]
      && s'.recorded == s.recorded && s'.schema == s.schema
      && forall j :: 0 <= j < |s'.replicas| && j != i ==> !Active(s'.replicas[j])
  {
  }

  lemma PendingNext(files: seq<string>, recorded: seq<string>, m: nat)
    requires m < |files|
    ensures Pending(files[..m + 1], recorded)
         == Pending(files[..m], recorded) + if files[m] in recorded then [] else [files[m]]
    ensures Distinct(files) && files[m] !in recorded ==> files[m] !in recorded + Pending(files[..m], recorded)
  {
    PendingStep(files, recorded, m);
    PendingMembers(files[..m], recorded);
  }

  lemma OwnStep(files: seq<string>, first: System, s: System, e: Event, i: nat, m: nat, part: nat)
    requires Distinct(files) && m < |files| && part <= 2 && StandsAt(files, first, s, i, m, part)
    requires e == if part == 1 then Insert(i) else if part == 2 then Commit(i, true)
                  else if files[m] in first.recorded then Skip(i) else Execute(i, true)
    requires part > 0 ==> files[m] !in first.recorded
    ensures var s' := Step(files, true, s, e);
      if part == 2 || (part == 0 && files[m] in first.recorded) then StandsAt(files, first, s', i, m + 1, 0)
      else StandsAt(files, first, s', i, m, part + 1)
  {
    PendingNext(files, first.recorded, m);
  }

  lemma SameLast(a: seq<Event>, e: Event, b: seq<Event>, f: Event)
    requires a + [e] == b + [f]
    ensures a == b && e == f
  {
    assert (a + [e])[..|a|] == a && (b + [f])[..|b|] == b;
    assert (a + [e])[|a|] == e && (b + [f])[|b|] == f;
  }

  /** The last of these steps, after the first m files and part of the next, and where it was taken. */
  lemma PlanBefore(files: seq<string>, recorded: seq<string>, i: nat, m: nat, part: nat)
    returns (m': nat, part': nat, e: Event)
    requires m <= |files| && part <= 2 && (m > 0 || part > 0)
    requires part > 0 ==> m < |files| && files[m] !in recorded
    ensures m' < |files| && part' <= 2 && (part' > 0 ==> files[m'] !in recorded)
    ensures PlanTo(files, recorded, i, m) + PartOf(i, part)
         == PlanTo(files, recorded, i, m') + PartOf(i, part') + [e]
    ensures e == if part' == 1 then Insert(i) else if part' == 2 then Commit(i, true)
                 else if files[m'] in recorded then Skip(i) else Execute(i, true)
    ensures if part' == 2 || (part' == 0 && files[m'] in recorded) then m == m' + 1 && part == 0
            else m == m' && part == part' + 1
  {
    if part > 0 {
      m', part', e := m, part - 1, if part == 1 then Execute(i, true) else Insert(i);
    } else if files[m - 1] in recorded {
      m', part', e := m - 1, 0, Skip(i);
    } else {
      m', part', e := m - 1, 2, Commit(i, true);
    }
  }

  /** Through m files and part of the next, whatever the other replicas do in between. */
  lemma {:induction false} RunStandsAt(files: seq<string>, first: System, s: System, events: seq<Event>, i: nat,
                                       m: nat, part: nat)
    requires Distinct(files) && HoldsLock(first, s, i) && m <= |files| && part <= 2
    requires part > 0 ==> m < |files| && files[m] !in first.recorded
    requires Own(events, i) == PlanTo(files, first.recorded, i, m) + PartOf(i, part)
    ensures StandsAt(files, first, Run(files, true, s, events), i, m, part)
    decreases |events|
  {
    var before, e := events[..|events| - 1], events[|events| - 1];
    var mid, plan := Run(files, true, s, before), Own(events, i);
    if e.i != i {
      assert Own(before, i) == plan;
      RunStandsAt(files, first, s, before, i, m, part);
      OthersWait(files, mid, e, i);
    } else {
      assert plan == Own(before, i) + [e];
      if m > 0 || part > 0 {
        var m', part', last := PlanBefore(files, first.recorded, i, m, part);
        SameLast(Own(before, i), e, PlanTo(files, first.recorded, i, m') + PartOf(i, part'), last);
        RunStandsAt(files, first, s, before, i, m', part');
        OwnStep(files, first, mid, e, i, m', part');
      } else {
        SameLast(Own(before, i), e, [], ReadTable(i));
        RunHoldsLock(files, first, s, before, i);
        assert files[..0] == [];
      }
    }
  }

  lemma {:induction false} RunHoldsLock(files: seq<string>, first: System, s: System, events: seq<Event>, i: nat)
    requires HoldsLock(first, s, i) && Own(events, i) == []
    ensures HoldsLock(first, Run(files, true, s, events), i)
  {
    if events == [] {
    } else {
      assert events[|events| - 1].i != i && Own(events[..|events| - 1], i) == [];
      RunHoldsLock(files, first, s, events[..|events| - 1], i);
      OthersWait(files, Run(files, true, s, events[..|events| - 1]), events[|events| - 1], i);
    }
  }

  /** What the replica does after m files: it finishes, or executes the first file that fails. */
  function LastOf(files: seq<string>, i: nat, m: nat): Event {
    if m == |files| then Finish(i) else Execute(i, false)
  }

  lemma LastStep(files: seq<string>, first: System, s: System, i: nat, m: nat)
    requires m <= |files| && StandsAt(files, first, s, i, m, 0)
    requires m < |files| ==> files[m] !in first.recorded
    ensures var s', passed := Step(files, true, s, LastOf(files, i, m)), Pending(files[..m], first.recorded);
      && s'.recorded == first.recorded + passed && s'.schema == first.schema + passed
      && i < |s'.replicas| && s'.replicas[i] == if m == |files| then Finished else Down
  {
  }

  lemma PendingSuccesses(files: seq<string>, recorded: seq<string>, works: string -> bool, m: nat)
    requires m <= |files| && forall j :: 0 <= j < m ==> files[j] in recorded || works(files[j])
    requires m < |files| ==> files[m] !in recorded && !works(files[m])
    ensures var pending := Pending(files, recorded);
      && Pending(files[..m], recorded) == pending[..Successes(pending, works)]
      && (m == |files| <==> Successes(pending, works) == |pending|)
  {
    var pending, passed := Pending(files, recorded), Pending(files[..m], recorded);
    PendingMembers(files[..m], recorded);
    assert forall f :: f in passed ==> works(f);
    if m < |files| {
      PendingStep(files, recorded, m);
      StopsAt(pending, works, passed, files[m]);
    } else {
      assert files[..m] == files;
      SuccessesIs(pending, works, |pending|);
    }
  }

  /**
   With the lock, a replica that starts while nobody holds it, and whose own steps are a run through the files in
   which m of them come before the first pending one that fails, does to the tables exactly what an undisturbed run
   does, whatever the other replicas do in between, and returns nil exactly when none fails.
   */
  lemma ReplicaDoesRun(files: seq<string>, s: System, events: seq<Event>, i: nat, works: string -> bool, m: nat)
    requires Distinct(files) && i < |s.replicas| && (s.replicas[i].Down? || s.replicas[i].Finished?)
    requires forall j :: 0 <= j < |s.replicas| ==> !Active(s.replicas[j])
    requires m <= |files| && forall j :: 0 <= j < m ==> files[j] in s.recorded || works(files[j])
    requires m < |files| ==> files[m] !in s.recorded && !works(files[m])
    requires Own(events, i) == PlanTo(files, s.recorded, i, m)
    ensures var locked := Step(files, true, Step(files, true, s, Start(i)), Lock(i));
      var end := Step(files, true, Run(files, true, locked, events), LastOf(files, i, m));
      var pending := Pending(files, s.recorded);
      var n := Successes(pending, works);
      && end.recorded == s.recorded + pending[..n] && end.schema == s.schema + pending[..n]
      && i < |end.replicas| && end.replicas[i] == if n == |pending| then Finished else Down
  {
    var locked := Step(files, true, Step(files, true, s, Start(i)), Lock(i));
    assert HoldsLock(s, locked, i);
    assert Own(events, i) == PlanTo(files, s.recorded, i, m) + PartOf(i, 0);
    RunStandsAt(files, s, locked, events, i, m, 0);
    LastStep(files, s, Run(files, true, locked, events), i, m);
    PendingSuccesses(files, s.recorded, works, m);
  }

  /** A replica that crashes gives the lock up: one that waits can take it. */
  lemma CrashFreesLock(files: seq<string>, s: System, i: nat, j: nat)
    requires Alone(s) && i < |s.replicas| && Active(s.replicas[i]) && j < |s.replicas| && s.replicas[j] == Waiting
    ensures Step(files, true, s, Lock(j)) == s
    ensures var crashed := Step(files, true, s, Crash(i));
      j < |Step(files, true, crashed, Lock(j)).replicas| && Step(files, true, crashed, Lock(j)).replicas[j] == Starting
  {
    var crashed := Step(files, true, s, Crash(i));
    forall k | 0 <= k < |crashed.replicas| ensures !Active(crashed.replicas[k]) {
      assert k != i ==> crashed.replicas[k] == s.replicas[k];
    }
  }

  /**
   A replica whose commit fails, or whose commit's answer is lost, stops. The file is pending for the next run
   exactly when the commit failed.
   */
  lemma CommitOutcomes(files: seq<string>, useLock: bool, first: System, events: seq<Event>, i: nat)
    requires Distinct(files) && Initial(first)
    requires var s := Run(files, useLock, first, events); i < |s.replicas| && s.replicas[i].Inserted?
    ensures var s := Run(files, useLock, first, events);
      var failed, unheard := Step(files, useLock, s, Commit(i, false)), Step(files, useLock, s, CommitUnheard(i));
      var n := s.replicas[i].next;
      && n < |files| && failed.replicas[i] == Down && unheard.replicas[i] == Down
      && failed.recorded == s.recorded && failed.schema == s.schema && files[n] in Pending(files, failed.recorded)
      && unheard.recorded == s.recorded + [files[n]] && unheard.schema == s.schema + [files[n]]
      && files[n] !in Pending(files, unheard.recorded)
  {
    var s := Run(files, useLock, first, events);
    RunKeepsInv(files, useLock, first, events);
    assert ReplicaOk(files, s, s.replicas[i]);
    PendingMembers(files, s.recorded);
    PendingMembers(files, s.recorded + [files[s.replicas[i].next]]);
  }
}
