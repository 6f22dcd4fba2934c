/**
 Client.CopyTo (ssh/client.go): publish a file through a temporary file and a rename.

 Any number of uploads to one path run at once. Each is a remote `&&` chain (upload, chmod, mv) and a
 local caller that waits for it, gives up on it, and removes the temporary file afterwards. An event is
 one atomic step of one of the two sides; a run is any sequence of events, and an event that is not
 enabled changes nothing. A caller that gives up does not stop its remote chain.
 */
module CopyTo {
  import opened Prelude
  import opened ShellText

  const OWNER_ONLY: nat := 384 // mode 600, octal

  function TempPath(target: string, suffix: string): string {
    target + ".prometheus-tmp-" + suffix
  }

  /** The command CopyTo sends, or None for the path it rejects. */
  function Command(target: string, suffix: string): Option<string> {
    if '\0' in target then None else
    var tmp := TempPath(target, suffix);
    Some("cat > " + ShellQuote(tmp) +
         " && chmod 600 " + ShellQuote(tmp) +
         " && mv " + ShellQuote(tmp) + " " + ShellQuote(target))
  }

  /** Whatever the path, the shell reads the command as exactly the intended words and operators. */
  lemma CommandLexes(target: string, suffix: string)
    requires '\0' !in suffix
    ensures Command(target, suffix).None? <==> '\0' in target
    ensures Command(target, suffix).Some? ==>
      var tmp := TempPath(target, suffix);
      Lex(Command(target, suffix).value) == Some(
        [Word("cat"), Operator(">"), Word(tmp), Operator("&&"),
         Word("chmod"), Word("600"), Word(tmp), Operator("&&"),
         Word("mv"), Word(tmp), Word(target)])
  {
    if '\0' !in target {
      var tmp := TempPath(target, suffix);
      PiecesWellFormed(tmp, target);
      RenderLexes(Pieces(tmp, target));
      CommandIsRendered(tmp, target);
      PiecesMean(tmp, target);
    }
  }

  lemma PiecesWellFormed(tmp: string, target: string)
    requires '\0' !in tmp && '\0' !in target
    ensures forall i :: 0 <= i < |Pieces(tmp, target)| ==> WellFormed(Pieces(tmp, target)[i])
  {
    CatWord();
    ChmodWords();
    MvWord();
    assert WellFormed(Quoted(tmp)) && WellFormed(Quoted(target)) && WellFormed(Op(">")) && WellFormed(Op("&&"));
  }

  lemma CatWord()
    ensures WellFormed(Bare("cat"))
  {
    var w := "cat";
    assert forall i :: 0 <= i < |w| ==> Inert(w[i]);
  }

  lemma ChmodWords()
    ensures WellFormed(Bare("chmod")) && WellFormed(Bare("600"))
  {
    var w, v := "chmod", "600";
    assert forall i :: 0 <= i < |w| ==> Inert(w[i]);
    assert forall i :: 0 <= i < |v| ==> Inert(v[i]);
  }

  lemma MvWord()
    ensures WellFormed(Bare("mv"))
  {
    var w := "mv";
    assert forall i :: 0 <= i < |w| ==> Inert(w[i]);
  }

  function Pieces(tmp: string, target: string): (ps: seq<Piece>) {
    [Bare("cat"), Op(">"), Quoted(tmp), Op("&&"),
     Bare("chmod"), Bare("600"), Quoted(tmp), Op("&&"),
     Bare("mv"), Quoted(tmp), Quoted(target)]
  }

  lemma PiecesMean(tmp: string, target: string)
    ensures Meanings(Pieces(tmp, target)) ==
      [Word("cat"), Operator(">"), Word(tmp), Operator("&&"),
       Word("chmod"), Word("600"), Word(tmp), Operator("&&"),
       Word("mv"), Word(tmp), Word(target)]
  {
  }

  lemma MoveIsRendered(tmp: string, target: string)
    ensures Render(Pieces(tmp, target)[7..]) == "&& " + ("mv " + (ShellQuote(tmp) + " " + ShellQuote(target)))
  {
    var ps := Pieces(tmp, target);
    var t, p := ShellQuote(tmp), ShellQuote(target);
    assert Render(ps[10..]) == p;
    RenderStep(ps, 9, t + " ", p);
    RenderStep(ps, 8, "mv ", t + " " + p);
    RenderStep(ps, 7, "&& ", "mv " + (t + " " + p));
  }

  lemma ChmodIsRendered(tmp: string, target: string, move: string)
    requires Render(Pieces(tmp, target)[7..]) == move
    ensures Render(Pieces(tmp, target)[4..]) == "chmod " + ("600 " + (ShellQuote(tmp) + " " + move))
  {
    var ps, t := Pieces(tmp, target), ShellQuote(tmp);
    RenderStep(ps, 6, t + " ", move);
    RenderStep(ps, 5, "600 ", t + " " + move);
    RenderStep(ps, 4, "chmod ", "600 " + (t + " " + move));
  }

  lemma RedirectIsRendered(tmp: string, target: string, chmod: string)
    requires Render(Pieces(tmp, target)[4..]) == chmod
    ensures Render(Pieces(tmp, target)[2..]) == ShellQuote(tmp) + " " + ("&& " + chmod)
  {
    var ps, t := Pieces(tmp, target), ShellQuote(tmp);
    RenderStep(ps, 3, "&& ", chmod);
    RenderStep(ps, 2, t + " ", "&& " + chmod);
  }

  lemma CatIsRendered(tmp: string, target: string, chmod: string)
    requires Render(Pieces(tmp, target)[4..]) == chmod
    ensures Render(Pieces(tmp, target)) == "cat " + ("> " + (ShellQuote(tmp) + " " + ("&& " + chmod)))
  {
    var ps, t := Pieces(tmp, target), ShellQuote(tmp);
    RedirectIsRendered(tmp, target, chmod);
    var rest := t + " " + ("&& " + chmod);
    RenderStep(ps, 1, "> ", rest);
    RenderStep(ps, 0, "cat ", "> " + rest);
    assert ps[0..] == ps;
  }

  lemma CommandIsRendered(tmp: string, target: string)
    ensures Render(Pieces(tmp, target)) == "cat > " + ShellQuote(tmp) +
                                           " && chmod 600 " + ShellQuote(tmp) +
                                           " && mv " + ShellQuote(tmp) + " " + ShellQuote(target)
  {
    var t, p := ShellQuote(tmp), ShellQuote(target);
    var move := "&& " + ("mv " + (t + " " + p));
    MoveIsRendered(tmp, target);
    ChmodIsRendered(tmp, target, move);
    CatIsRendered(tmp, target, "chmod " + ("600 " + (t + " " + move)));
    Flatten(t, p);
  }

  lemma Flatten(t: string, p: string)
    ensures var r8 := "mv " + (t + " " + p);
      var r5 := "600 " + (t + " " + ("&& " + r8));
      "cat " + ("> " + (t + " " + ("&& " + ("chmod " + r5))))
      == "cat > " + t + " && chmod 600 " + t + " && mv " + t + " " + p
  {
    var tail := t + " " + p;
    var r8 := "mv " + tail;
    var r5 := "600 " + (t + " " + ("&& " + r8));
    assert " " + ("&& " + r8) == " && mv " + tail;
    assert t + " " + ("&& " + r8) == t + " && mv " + tail;
    var back := t + " && mv " + tail;
    assert " " + ("&& " + ("chmod " + r5)) == " && chmod 600 " + back;
    assert t + " " + ("&& " + ("chmod " + r5)) == t + " && chmod 600 " + back;
    assert "cat " + ("> " + (t + " && chmod 600 " + back)) == "cat > " + (t + " && chmod 600 " + back);
    Associate("cat > ", t, " && chmod 600 ", t, " && mv ", tail);
    assert "cat > " + t + " && chmod 600 " + t + " && mv " + t + " " + p
        == "cat > " + t + " && chmod 600 " + t + " && mv " + (t + " " + p);
  }

  lemma Associate(a: string, b: string, c: string, d: string, e: string, f: string)
    ensures a + (b + c + (d + e + f)) == a + b + c + d + e + f
  {
  }

  // ---------- the machine ----------

  datatype File = File(data: seq<Byte>, mode: nat)

  /** Where the remote `&&` chain stands. Stopped: it failed or was killed, and no later command runs. */
  datatype Remote = NotStarted | Uploading(sent: nat) | Uploaded | Protected | Renamed | Stopped

  /** Where the caller stands. After GaveUp the `rm -f` may run at any time, or never. */
  datatype Local = Waiting | GaveUp | Succeeded

  /**
   createMode is the mode the remote umask gives a new file, and arrived how much of the data had arrived when
   `cat` saw the end of its input.
   */
  datatype Writer = Writer(
    data: seq<Byte>, suffix: string, createMode: nat, remote: Remote, local: Local, arrived: nat)

  /** renames is a history of which writers' mv took effect, in order. */
  datatype System = System(files: map<string, File>, writers: seq<Writer>, renames: seq<nat>)

  datatype Event =
    | Open(i: nat)             // the shell opens the temporary file for `cat`
    | Write(i: nat, n: nat)    // up to n more bytes arrive
    | EndOfData(i: nat)        // `cat` sees the end of its input, early if the connection drops, and exits 0
    | Chmod(i: nat)
    | Rename(i: nat)
    | Stop(i: nat)             // a command fails, or the session is killed
    | ReturnOk(i: nat)         // session.Run returned nil
    | GiveUp(i: nat)           // ctx is done, or session.Run returned an error
    | Remove(i: nat)           // `rm -f` of the writer's temporary file

  function Step(target: string, s: System, e: Event): System {
    if e.i >= |s.writers| then s else
    var w := s.writers[e.i];
    var tmp := TempPath(target, w.suffix);
    match e
    case Open(i) =>
      if w.remote != NotStarted then s else
      var mode := if tmp in s.files then s.files[tmp].mode else w.createMode;
      s.(files := s.files[tmp := File([], mode)], writers := s.writers[i := w.(remote := Uploading(0))])
    case Write(i, n) =>
      if !w.remote.Uploading? || w.remote.sent + n > |w.data| then s else
      var sent := w.remote.sent + n;
      // bytes written after the file was unlinked are lost with it
      var files := if tmp in s.files then
          s.files[tmp := s.files[tmp].(data := s.files[tmp].data + w.data[w.remote.sent..sent])]
        else s.files;
      s.(files := files, writers := s.writers[i := w.(remote := Uploading(sent))])
    case EndOfData(i) =>
      if !w.remote.Uploading? then s else
      s.(writers := s.writers[i := w.(remote := Uploaded, arrived := w.remote.sent)])
    case Chmod(i) =>
      if w.remote != Uploaded then s
      else if tmp !in s.files then s.(writers := s.writers[i := w.(remote := Stopped)])
      else s.(files := s.files[tmp := s.files[tmp].(mode := OWNER_ONLY)],
              writers := s.writers[i := w.(remote := Protected)])
    case Rename(i) =>
      if w.remote != Protected then s
      else if tmp !in s.files then s.(writers := s.writers[i := w.(remote := Stopped)])
      else System(s.files[target := s.files[tmp]] - {tmp},
                  s.writers[i := w.(remote := Renamed)],
                  s.renames + [i])
    case Stop(i) =>
      if w.remote == NotStarted || w.remote == Renamed then s else
      s.(writers := s.writers[i := w.(remote := Stopped)])
    case ReturnOk(i) =>
      if w.local != Waiting || w.remote != Renamed then s else
      s.(writers := s.writers[i := w.(local := Succeeded)])
    case GiveUp(i) =>
      if w.local != Waiting then s else
      s.(writers := s.writers[i := w.(local := GaveUp)])
    case Remove(i) =>
      if w.local != GaveUp then s else
      s.(files := s.files - {tmp})
  }

  function Run(target: string, s: System, events: seq<Event>): System {
    if events == [] then s
    else Step(target, Run(target, s, events[..|events| - 1]), events[|events| - 1])
  }

  function Lookup(files: map<string, File>, path: string): Option<File> {
    if path in files then Some(files[path]) else None
  }

  /** Before any upload: the random suffixes differ, and none names an existing file. */
  ghost predicate Initial(target: string, s: System) {
    && s.renames == []
    && (forall i, j :: 0 <= i < j < |s.writers| ==> s.writers[i].suffix != s.writers[j].suffix)
    && forall i :: 0 <= i < |s.writers| ==>
      && s.writers[i].remote == NotStarted && s.writers[i].local == Waiting
      && TempPath(target, s.writers[i].suffix) !in s.files
  }

  // ---------- the invariant ----------

  lemma TempPathInjective(target: string, a: string, b: string)
    ensures TempPath(target, a) != target
    ensures TempPath(target, a) == TempPath(target, b) ==> a == b
  {
    assert |TempPath(target, a)| > |target|;
    var stem := target + ".prometheus-tmp-";
    assert TempPath(target, a)[|stem|..] == a && TempPath(target, b)[|stem|..] == b;
  }

  /** The data that had arrived. */
  function Arrived(w: Writer): seq<Byte> { w.data[..if w.arrived <= |w.data| then w.arrived else |w.data|] }

  ghost predicate TempHolds(w: Writer, f: Option<File>) {
    match w.remote
    case NotStarted => f.None?
    case Uploading(sent) => sent <= |w.data| && (f.Some? ==> f.value.data == w.data[..sent])
    case Uploaded => w.arrived <= |w.data| && (f.Some? ==> f.value.data == Arrived(w))
    case Protected => w.arrived <= |w.data| && (f.Some? ==> f.value == File(Arrived(w), OWNER_ONLY))
    case Renamed => w.arrived <= |w.data| && f.None?
    case Stopped => f.Some? ==> f.value.data <= w.data
  }

  ghost predicate SameUploads(a: seq<Writer>, b: seq<Writer>) {
    && |a| == |b|
    && forall i :: 0 <= i < |a| ==> a[i].data == b[i].data && a[i].suffix == b[i].suffix
  }

  /** The content of the target: what had arrived of the last writer whose mv took effect, mode 600. */
  ghost predicate TargetHolds(target: string, first: System, s: System) {
    && (forall k :: 0 <= k < |s.renames| ==> s.renames[k] < |s.writers|)
    && Lookup(s.files, target) ==
       if s.renames == [] then Lookup(first.files, target)
       else Some(File(Arrived(s.writers[s.renames[|s.renames| - 1]]), OWNER_ONLY))
  }

  /** The target is initial, or has the complete data of the writer renamed last. */
  ghost predicate TargetWhole(target: string, first: System, s: System) {
    s.renames == []
    || (s.renames[|s.renames| - 1] < |s.writers|
        && Lookup(s.files, target) == Some(File(s.writers[s.renames[|s.renames| - 1]].data, OWNER_ONLY)))
  }

  /** Files that are neither the target nor a temporary file are as they were. */
  ghost predicate OthersUntouched(target: string, first: System, s: System) {
    forall path :: path != target
      && (forall i :: 0 <= i < |first.writers| ==> path != TempPath(target, first.writers[i].suffix))
      ==> Lookup(s.files, path) == Lookup(first.files, path)
  }

  ghost predicate Inv(target: string, first: System, s: System) {
    && SameUploads(first.writers, s.writers)
    && TargetHolds(target, first, s)
    && Distinct(s.renames)
    && OthersUntouched(target, first, s)
    && (forall i :: 0 <= i < |s.writers| ==> WriterOk(target, s, i))
  }

  ghost predicate WriterOk(target: string, s: System, i: nat)
    requires i < |s.writers|
  {
    var w := s.writers[i];
    && TempHolds(w, Lookup(s.files, TempPath(target, w.suffix)))
    && (i in s.renames <==> w.remote == Renamed)
    && (w.local == Succeeded ==> w.remote == Renamed)
  }

  ghost predicate OnlyChanged(s: System, s': System, a: string, b: string) {
    forall path :: path != a && path != b ==> Lookup(s'.files, path) == Lookup(s.files, path)
  }

  /** A step of one writer leaves every other writer's temporary file and progress alone. */
  lemma StepIsLocal(target: string, s: System, e: Event, j: nat)
    requires j < |s.writers| && j != e.i
    requires e.i < |s.writers| ==> s.writers[e.i].suffix != s.writers[j].suffix
    ensures |Step(target, s, e).writers| == |s.writers|
    ensures Step(target, s, e).writers[j] == s.writers[j]
    ensures j in Step(target, s, e).renames <==> j in s.renames
    ensures var tmp := TempPath(target, s.writers[j].suffix);
      Lookup(Step(target, s, e).files, tmp) == Lookup(s.files, tmp)
  {
    if e.i < |s.writers| {
      TempPathInjective(target, s.writers[e.i].suffix, s.writers[j].suffix);
      TempPathInjective(target, s.writers[j].suffix, s.writers[j].suffix);
    }
  }

  /** What a step of writer i does to writer i's own temporary file, and to the target. */
  lemma StepOwn(target: string, s: System, e: Event)
    requires e.i < |s.writers|
    requires TempHolds(s.writers[e.i], Lookup(s.files, TempPath(target, s.writers[e.i].suffix)))
    ensures var s' := Step(target, s, e);
      var w := s.writers[e.i];
      var tmp := TempPath(target, w.suffix);
      && |s'.writers| == |s.writers|
      && s'.writers[e.i].data == w.data && s'.writers[e.i].suffix == w.suffix
      && TempHolds(s'.writers[e.i], Lookup(s'.files, tmp))
      && OnlyChanged(s, s', tmp, target)
      && (s'.renames == s.renames ==>
           Lookup(s'.files, target) == Lookup(s.files, target)
           && (s'.writers[e.i].remote == Renamed <==> w.remote == Renamed))
      && (s'.renames != s.renames ==>
           s'.renames == s.renames + [e.i] && w.remote != Renamed && s'.writers[e.i].remote == Renamed
           && Lookup(s'.files, target) == Some(File(Arrived(w), OWNER_ONLY)))
      && (w.remote == Renamed || s'.renames != s.renames ==> s'.writers[e.i].arrived == w.arrived)
  {
    var w := s.writers[e.i];
    TempPathInjective(target, w.suffix, w.suffix);
    if e.Write? && w.remote.Uploading? && w.remote.sent + e.n <= |w.data| {
      assert w.data[..w.remote.sent] + w.data[w.remote.sent..w.remote.sent + e.n] == w.data[..w.remote.sent + e.n];
    }
    if e.Rename? && w.remote == Protected { assert s.renames + [e.i] != s.renames; }
  }

  lemma StepKeepsInv(target: string, first: System, s: System, e: Event)
    requires Initial(target, first) && Inv(target, first, s)
    ensures Inv(target, first, Step(target, s, e))
  {
    if e.i < |s.writers| {
      var s' := Step(target, s, e);
      assert WriterOk(target, s, e.i);
      StepOwn(target, s, e);
      OthersKept(target, first, s, s', e.i);
      forall j | 0 <= j < |s.writers|
        ensures WriterOk(target, s', j) && s'.writers[j].data == s.writers[j].data
        ensures s'.writers[j].suffix == s.writers[j].suffix
        ensures j in s'.renames ==> s'.writers[j].arrived == s.writers[j].arrived
      {
        assert WriterOk(target, s, j);
        if j != e.i {
          assert first.writers[j].suffix != first.writers[e.i].suffix;
          StepIsLocal(target, s, e, j);
        } else {
          OwnReturn(target, s, e);
        }
      }
      TargetKept(target, first, s, s', e.i);
    }
  }

  lemma OwnReturn(target: string, s: System, e: Event)
    requires e.i < |s.writers| && WriterOk(target, s, e.i)
    ensures e.i < |Step(target, s, e).writers|
    ensures Step(target, s, e).writers[e.i].local == Succeeded ==> Step(target, s, e).writers[e.i].remote == Renamed
  {
  }

  lemma TargetKept(target: string, first: System, s: System, s': System, i: nat)
    requires i < |s.writers| && SameUploads(first.writers, s.writers)
    requires TargetHolds(target, first, s) && Distinct(s.renames)
    requires s'.renames == s.renames || (s'.renames == s.renames + [i] && i !in s.renames)
    requires s'.renames == s.renames ==> Lookup(s'.files, target) == Lookup(s.files, target)
    requires s'.renames != s.renames ==> Lookup(s'.files, target) == Some(File(Arrived(s.writers[i]), OWNER_ONLY))
    requires |s'.writers| == |s.writers| && forall j :: 0 <= j < |s.writers| ==>
      s'.writers[j].data == s.writers[j].data && (j in s'.renames ==> s'.writers[j].arrived == s.writers[j].arrived)
    ensures TargetHolds(target, first, s') && Distinct(s'.renames)
  {
  }

  lemma OthersKept(target: string, first: System, s: System, s': System, i: nat)
    requires i < |s.writers| && SameUploads(first.writers, s.writers)
    requires OthersUntouched(target, first, s)
    requires OnlyChanged(s, s', TempPath(target, s.writers[i].suffix), target)
    ensures OthersUntouched(target, first, s')
  {
    assert first.writers[i].suffix == s.writers[i].suffix;
  }

  /**
   In every run, at every reachable state: the target holds its initial content, or what had arrived of the
   writer renamed last, with mode 600. A call that returned nil was renamed and left no temporary file.
   */
  lemma EveryRunPublishes(target: string, first: System, events: seq<Event>)
    requires Initial(target, first)
    ensures var s := Run(target, first, events);
      && SameUploads(first.writers, s.writers)
      && TargetHolds(target, first, s)
      && OthersUntouched(target, first, s)
      && (forall i :: 0 <= i < |s.writers| && s.writers[i].local == Succeeded ==>
           i in s.renames && TempPath(target, s.writers[i].suffix) !in s.files)
  {
    RunKeepsInv(target, first, events);
    var s := Run(target, first, events);
    forall i | 0 <= i < |s.writers| && s.writers[i].local == Succeeded
      ensures i in s.renames && TempPath(target, s.writers[i].suffix) !in s.files
    {
      assert WriterOk(target, s, i);
    }
  }

  lemma {:induction false} RunKeepsInv(target: string, first: System, events: seq<Event>)
    requires Initial(target, first)
    ensures Inv(target, first, Run(target, first, events))
  {
    if events == [] {
    } else {
      var before := events[..|events| - 1];
      RunKeepsInv(target, first, before);
      StepKeepsInv(target, first, Run(target, first, before), events[|events| - 1]);
    }
  }

  // ---------- uploads cut short ----------

  /** The event is an end of input before all data has arrived. */
  predicate CutsShort(s: System, e: Event) {
    e.EndOfData? && e.i < |s.writers| && s.writers[e.i].remote.Uploading?
    && s.writers[e.i].remote.sent < |s.writers[e.i].data|
  }

  /** An interrupted upload stops the chain instead. */
  ghost predicate NoneCutShort(target: string, first: System, events: seq<Event>) {
    events == [] ||
    var before, e := events[..|events| - 1], events[|events| - 1];
    NoneCutShort(target, first, before) && !CutsShort(Run(target, first, before), e)
  }

  predicate AllArrived(w: Writer) {
    w.remote.Uploaded? || w.remote.Protected? || w.remote.Renamed? ==> w.arrived == |w.data|
  }

  ghost predicate EveryWriterArrived(s: System) {
    forall i :: 0 <= i < |s.writers| ==> AllArrived(s.writers[i])
  }

  lemma StepKeepsArrived(target: string, first: System, s: System, e: Event)
    requires Inv(target, first, s) && EveryWriterArrived(s) && !CutsShort(s, e)
    ensures EveryWriterArrived(Step(target, s, e))
  {
    var s' := Step(target, s, e);
    forall i | 0 <= i < |s'.writers| ensures AllArrived(s'.writers[i]) {
      assert AllArrived(s.writers[i]) && WriterOk(target, s, i);
    }
  }

  lemma {:induction false} RunKeepsArrived(target: string, first: System, events: seq<Event>)
    requires Initial(target, first) && NoneCutShort(target, first, events)
    ensures EveryWriterArrived(Run(target, first, events))
  {
    if events == [] {
    } else {
      var before := events[..|events| - 1];
      RunKeepsArrived(target, first, before);
      RunKeepsInv(target, first, before);
      StepKeepsArrived(target, first, Run(target, first, before), events[|events| - 1]);
    }
  }

  /** At every reachable state the target is whole exactly when the upload renamed last was not cut short. */
  lemma WholeExactly(target: string, first: System, events: seq<Event>)
    requires Initial(target, first)
    ensures var s := Run(target, first, events);
      TargetWhole(target, first, s)
      <==> (LastRenamed(s).Some? ==> LastRenamed(s).value.arrived == |LastRenamed(s).value.data|)
  {
    RunKeepsInv(target, first, events);
    var s := Run(target, first, events);
    if s.renames != [] {
      var i := s.renames[|s.renames| - 1];
      assert i in s.renames && WriterOk(target, s, i);
      assert s.writers[i].arrived == |s.writers[i].data| <==> Arrived(s.writers[i]) == s.writers[i].data;
    }
  }

  function LastRenamed(s: System): Option<Writer> {
    if s.renames != [] && s.renames[|s.renames| - 1] < |s.writers| then Some(s.writers[s.renames[|s.renames| - 1]])
    else None
  }

  /**
   So if an interrupted upload stops the chain, the target holds in every interleaving its initial content or the
   complete data of the writer renamed last, with mode 600.
   */
  lemma EveryRunPublishesWholeFiles(target: string, first: System, events: seq<Event>)
    requires Initial(target, first) && NoneCutShort(target, first, events)
    ensures var s := Run(target, first, events);
      TargetWhole(target, first, s) && (s.renames == [] ==> Lookup(s.files, target) == Lookup(first.files, target))
  {
    EveryRunPublishes(target, first, events);
    RunKeepsArrived(target, first, events);
    WholeExactly(target, first, events);
    var s := Run(target, first, events);
    if s.renames != [] {
      RunKeepsInv(target, first, events);
      var i := s.renames[|s.renames| - 1];
      assert i in s.renames && WriterOk(target, s, i) && AllArrived(s.writers[i]);
    }
  }

  // ---------- what an undisturbed chain does, whatever the others do ----------

  /** The events of a writer's own chain and of its cleanup, in order. */
  function Own(events: seq<Event>, i: nat): seq<Event> {
    if events == [] then [] else
    var e := events[|events| - 1];
    Own(events[..|events| - 1], i) + (if e.i == i && !e.ReturnOk? && !e.GiveUp? then [e] else [])
  }

  function Sum(writes: seq<nat>): nat {
    if writes == [] then 0 else Sum(writes[..|writes| - 1]) + writes[|writes| - 1]
  }

  /** The data arrives in some pieces. */
  function Chain(i: nat, writes: seq<nat>): seq<Event> {
    [Open(i)] + seq(|writes|, k requires 0 <= k < |writes| => Write(i, writes[k])) + [EndOfData(i), Chmod(i), Rename(i)]
  }

  lemma {:induction false} SumOfPrefix(writes: seq<nat>, k: nat)
    requires k <= |writes|
    ensures Sum(writes[..k]) <= Sum(writes)
    ensures k < |writes| ==> Sum(writes[..k + 1]) == Sum(writes[..k]) + writes[k]
    decreases |writes|
  {
    if k < |writes| { assert writes[..k + 1][..k] == writes[..k]; }
    if k == |writes| {
      assert writes[..k] == writes;
    } else {
      var n := |writes| - 1;
      SumOfPrefix(writes[..n], k);
      assert writes[..n][..k] == writes[..k];
    }
  }

  /** How far a chain is after its first k events. */
  function RemoteAfter(writes: seq<nat>, k: nat): Remote {
    if k == 0 then NotStarted
    else if k <= |writes| + 1 then Uploading(Sum(writes[..k - 1]))
    else if k == |writes| + 2 then Uploaded
    else if k == |writes| + 3 then Protected
    else Renamed
  }

  ghost predicate Underway(target: string, s: System, i: nat, writes: seq<nat>, k: nat)
    requires i < |s.writers|
  {
    var w := s.writers[i];
    && w.remote == RemoteAfter(writes, k)
    && (0 < k <= |writes| + 3 ==> TempPath(target, w.suffix) in s.files)
    && (k > |writes| + 1 ==> w.arrived == Sum(writes))
  }

  lemma ChainWrite(target: string, s: System, i: nat, writes: seq<nat>, k: nat)
    requires i < |s.writers| && 0 < k <= |writes| && Underway(target, s, i, writes, k)
    requires Sum(writes) <= |s.writers[i].data|
    ensures Step(target, s, Write(i, writes[k - 1])).writers[i].data == s.writers[i].data
    ensures Underway(target, Step(target, s, Write(i, writes[k - 1])), i, writes, k + 1)
  {
    SumOfPrefix(writes, k - 1);
    SumOfPrefix(writes, k);
  }

  lemma ChainStep(target: string, s: System, i: nat, writes: seq<nat>, k: nat)
    requires i < |s.writers| && k < |Chain(i, writes)| && Underway(target, s, i, writes, k)
    requires Sum(writes) <= |s.writers[i].data|
    ensures Step(target, s, Chain(i, writes)[k]).writers[i].data == s.writers[i].data
    ensures Underway(target, Step(target, s, Chain(i, writes)[k]), i, writes, k + 1)
  {
    if 0 < k <= |writes| {
      assert Chain(i, writes)[k] == Write(i, writes[k - 1]);
      ChainWrite(target, s, i, writes, k);
    } else if k == |writes| + 1 {
      assert writes[..|writes|] == writes;
    }
  }

  lemma OtherStepKeepsUnderway(target: string, s: System, e: Event, i: nat, writes: seq<nat>, k: nat)
    requires i < |s.writers| && Underway(target, s, i, writes, k)
    requires e.i != i || e.ReturnOk? || e.GiveUp?
    requires e.i < |s.writers| && e.i != i ==> s.writers[e.i].suffix != s.writers[i].suffix
    ensures |Step(target, s, e).writers| == |s.writers| && Underway(target, Step(target, s, e), i, writes, k)
  {
    if e.i != i { StepIsLocal(target, s, e, i); }
  }

  lemma LastOfPrefix(a: seq<Event>, e: Event, chain: seq<Event>, k: nat)
    requires k <= |chain| && a + [e] == chain[..k]
    ensures k > 0 && a == chain[..k - 1] && e == chain[k - 1]
  {
    assert (a + [e])[..|a|] == a && (a + [e])[|a|] == e;
  }

  lemma {:induction false} RunUnderway(target: string, first: System, events: seq<Event>, i: nat, writes: seq<nat>,
                                       k: nat)
    requires Initial(target, first) && i < |first.writers| && Sum(writes) <= |first.writers[i].data|
    requires k <= |Chain(i, writes)| && Own(events, i) == Chain(i, writes)[..k]
    ensures var s := Run(target, first, events);
      |s.writers| == |first.writers| && Underway(target, s, i, writes, k)
  {
    if events == [] {
    } else {
      var before, e := events[..|events| - 1], events[|events| - 1];
      var s := Run(target, first, before);
      RunKeepsInv(target, first, before);
      if e.i == i && !e.ReturnOk? && !e.GiveUp? {
        LastOfPrefix(Own(before, i), e, Chain(i, writes), k);
        RunUnderway(target, first, before, i, writes, k - 1);
        ChainStep(target, s, i, writes, k - 1);
      } else {
        assert Own(events, i) == Own(before, i);
        RunUnderway(target, first, before, i, writes, k);
        OtherStepKeepsUnderway(target, s, e, i, writes, k);
      }
    }
  }

  /**
   An upload whose chain is not stopped, and whose file is not removed, succeeds in every interleaving: right after
   its rename the target is what arrived of its data - all of it, if all of it arrived - with mode 600, its temporary
   file is gone, and the call can return.
   */
  lemma ChainPublishes(target: string, first: System, events: seq<Event>, i: nat, writes: seq<nat>)
    requires Initial(target, first) && i < |first.writers| && Sum(writes) <= |first.writers[i].data|
    requires Own(events, i) == Chain(i, writes) && events[|events| - 1] == Rename(i)
    ensures var s, w := Run(target, first, events), first.writers[i];
      && |s.writers| == |first.writers|
      && Lookup(s.files, target) == Some(File(w.data[..Sum(writes)], OWNER_ONLY))
      && TempPath(target, w.suffix) !in s.files
      && (s.writers[i].local == Waiting ==> Step(target, s, ReturnOk(i)).writers[i].local == Succeeded)
  {
    var before, k := events[..|events| - 1], |Chain(i, writes)| - 1;
    assert Own(before, i) == Own(events, i)[..k] == Chain(i, writes)[..k];
    RunUnderway(target, first, before, i, writes, k);
    RunKeepsInv(target, first, before);
    RenamePublishes(target, Run(target, first, before), i, writes);
  }

  lemma RenamePublishes(target: string, s: System, i: nat, writes: seq<nat>)
    requires i < |s.writers| && WriterOk(target, s, i) && Sum(writes) <= |s.writers[i].data|
    requires Underway(target, s, i, writes, |writes| + 3)
    ensures var s', w := Step(target, s, Rename(i)), s.writers[i];
      && |s'.writers| == |s.writers|
      && Lookup(s'.files, target) == Some(File(w.data[..Sum(writes)], OWNER_ONLY))
      && TempPath(target, w.suffix) !in s'.files
      && (s'.writers[i].local == Waiting ==> Step(target, s', ReturnOk(i)).writers[i].local == Succeeded)
  {
    TempPathInjective(target, s.writers[i].suffix, s.writers[i].suffix);
  }

  // ---------- what is left of a stopped one ----------

  /** The chain is stopped; its caller has given up, if that is so, and its temporary file is gone, if that is. */
  ghost predicate StoppedWith(target: string, s: System, i: nat, gaveUp: bool, gone: bool) {
    && i < |s.writers| && s.writers[i].remote == Stopped && s.writers[i].local != Succeeded
    && (gaveUp ==> s.writers[i].local == GaveUp)
    && (gone ==> TempPath(target, s.writers[i].suffix) !in s.files)
  }

  lemma StepKeepsStopped(target: string, first: System, s: System, e: Event, i: nat, gaveUp: bool, gone: bool)
    requires Initial(target, first) && Inv(target, first, s) && StoppedWith(target, s, i, gaveUp, gone)
    ensures StoppedWith(target, Step(target, s, e), i, gaveUp || e == GiveUp(i), gone || (gaveUp && e == Remove(i)))
  {
    if e.i != i { StepIsLocal(target, s, e, i); }
  }

  lemma StopStops(target: string, first: System, s: System, i: nat)
    requires Inv(target, first, s) && CanStop(s, i)
    ensures StoppedWith(target, Step(target, s, Stop(i)), i, false, false)
  {
    assert WriterOk(target, s, i);
  }

  lemma StoppedOneMore(target: string, first: System, s: System, e: Event, i: nat, p: nat, q: nat, r: nat, n: nat)
    requires Initial(target, first) && Inv(target, first, s) && p < q < r && p <= n
    requires if n > p then StoppedWith(target, s, i, q < n, r < n) else e == Stop(i) && CanStop(s, i)
    requires (q == n ==> e == GiveUp(i)) && (r == n ==> e == Remove(i))
    ensures StoppedWith(target, Step(target, s, e), i, q <= n, r <= n)
  {
    if n > p {
      StepKeepsStopped(target, first, s, e, i, q < n, r < n);
    } else {
      StopStops(target, first, s, i);
    }
  }

  /** Event p stops the chain, q is its caller giving up and r the removal of its file. */
  lemma {:induction false} StoppedSince(target: string, first: System, events: seq<Event>, i: nat, p: nat, q: nat,
                                        r: nat)
    requires Initial(target, first) && i < |first.writers| && p < q < r && p < |events| && events[p] == Stop(i)
    requires q < |events| ==> events[q] == GiveUp(i)
    requires r < |events| ==> events[r] == Remove(i)
    requires CanStop(Run(target, first, events[..p]), i)
    ensures StoppedWith(target, Run(target, first, events), i, q < |events|, r < |events|)
  {
    var n := |events| - 1;
    var before, e := events[..n], events[n];
    var s, s' := Run(target, first, before), Run(target, first, events);
    assert s' == Step(target, s, e) && (q <= n <==> q < |events|) && (r <= n <==> r < |events|);
    RunKeepsInv(target, first, before);
    if n > p {
      assert before[..p] == events[..p];
      StoppedSince(target, first, before, i, p, q, r);
    }
    StoppedOneMore(target, first, s, e, i, p, q, r, n);
  }

  predicate CanStop(s: System, i: nat) {
    i < |s.writers| && s.writers[i].remote != NotStarted && s.writers[i].remote != Renamed
  }

  /**
   Once a chain that has begun is stopped, its caller gives up and its file is removed, however long after one
   another and whatever happens in between, nothing is left of it, now or later, and it is never renamed.
   */
  lemma StoppedLeavesNothing(target: string, first: System, events: seq<Event>, i: nat, p: nat, q: nat, r: nat)
    requires Initial(target, first) && i < |first.writers| && p < q < r < |events|
    requires events[p] == Stop(i) && events[q] == GiveUp(i) && events[r] == Remove(i)
    requires CanStop(Run(target, first, events[..p]), i)
    ensures var s := Run(target, first, events);
      TempPath(target, first.writers[i].suffix) !in s.files && i !in s.renames
  {
    StoppedSince(target, first, events, i, p, q, r);
    RunKeepsInv(target, first, events);
    assert WriterOk(target, Run(target, first, events), i);
  }
}
