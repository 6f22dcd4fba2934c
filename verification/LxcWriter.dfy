/**
 writeFileLXC and writeFileLXCChunked (proxmox/files.go), at the level of what each `sh -c` script
 does to the one file it redirects into.
 */
module LxcWriter {
  import opened Prelude
  import opened ShellText
  import Base64

  const MAX_ECHO_SIZE: nat := 65536
  const CHUNK_SIZE: nat := 49152

  datatype Redirect = Truncate | AppendTo

  /**
   How one exec ends. A script that fails may have opened the file (and, with `>`, emptied it) and written
   part of its output before it failed; an exec whose answer is lost may have done all of its work.
   */
  datatype Outcome = Done | Failed(redirected: bool, wrote: nat)

  function Min(a: int, b: int): int { if a < b then a else b }

  /** The end of chunk k, as a position in a content of length n. */
  function ChunkEnd(k: nat, n: nat): nat { Min((k + 1) * CHUNK_SIZE, n) }

  /** The number of scripts that write. */
  function Writes(n: nat): nat {
    if n <= MAX_ECHO_SIZE then 1 else (n + CHUNK_SIZE - 1) / CHUNK_SIZE
  }

  /** The position where write k starts, and where it ends. */
  function WriteStart(k: nat, n: nat): nat {
    if n <= MAX_ECHO_SIZE then 0 else Min(k * CHUNK_SIZE, n)
  }

  function WriteEnd(k: nat, n: nat): nat {
    if n <= MAX_ECHO_SIZE then n else ChunkEnd(k, n)
  }

  /** What the file holds when the first k writes succeeded. */
  function AfterWrites(held: Option<seq<Byte>>, content: seq<Byte>, k: nat): Option<seq<Byte>> {
    if k == 0 then held else Some(content[..Min(WriteEnd(k - 1, |content|), |content|)])
  }

  /** What the file holds when write k, the first that does not succeed, ended with the given outcome. */
  function AfterFailure(held: Option<seq<Byte>>, content: seq<Byte>, k: nat, outcome: Outcome): Option<seq<Byte>>
    requires outcome.Failed? && k < Writes(|content|)
  {
    if !outcome.redirected then AfterWrites(held, content, k)
    else Some(content[..Min(WriteStart(k, |content|) + outcome.wrote, WriteEnd(k, |content|))])
  }

  /** What one writing script does to the file, given what `base64 -d` makes of its input. */
  function ScriptEffect(held: Option<seq<Byte>>, op: Redirect, output: Option<seq<Byte>>, outcome: Outcome)
    : Option<seq<Byte>>
  {
    var base := if op == Truncate || held.None? then [] else held.value;
    var bytes := if output.Some? then output.value else [];
    match outcome
    case Done => Some(base + bytes)
    case Failed(redirected, wrote) =>
      if redirected then Some(base + bytes[..Min(wrote, |bytes|)]) else held
  }

  // ---------- the scripts as text ----------

  function Arrow(op: Redirect): string { if op == Truncate then ">" else ">>" }

  /** The script that writes a chunk. */
  function ScriptText(encoded: string, op: Redirect, path: string): string {
    "echo " + encoded + " | base64 -d " + Arrow(op) + " " + ShellQuote(path)
  }

  datatype Script = Script(encoded: string, op: Redirect, path: string)

  /** What the shell makes of a script: `echo` with at most one argument, piped into `base64 -d`, redirected. */
  function Interpret(text: string): Option<Script> {
    var tokens := Lex(text);
    if tokens.None? then None else
    var t := tokens.value;
    var args := |t| - 6;
    if (args == 0 || (args == 1 && t[1].Word?))
      && t[0] == Word("echo") && t[1 + args..4 + args] == [Operator("|"), Word("base64"), Word("-d")]
      && (t[4 + args] == Operator(">") || t[4 + args] == Operator(">>")) && t[5 + args].Word?
    then
      Some(Script(if args == 0 then "" else t[1].text,
                  if t[4 + args].text == ">" then Truncate else AppendTo,
                  t[5 + args].text))
    else None
  }

  function Pieces(encoded: string, op: Redirect, path: string): seq<Piece> {
    [Bare("echo"), Bare(encoded), Op("|"), Bare("base64"), Bare("-d"), Op(Arrow(op)), Quoted(path)]
  }

  lemma PiecesWellFormed(encoded: string, op: Redirect, path: string)
    requires '\0' !in path
    requires encoded != "" && forall i :: 0 <= i < |encoded| ==> Inert(encoded[i])
    ensures forall i :: 0 <= i < |Pieces(encoded, op, path)| ==> WellFormed(Pieces(encoded, op, path)[i])
  {
    EchoWord();
    DecodeWords();
    assert WellFormed(Bare(encoded)) && WellFormed(Quoted(path)) && WellFormed(Op("|")) && WellFormed(Op(Arrow(op)));
  }

  lemma EchoWord()
    ensures WellFormed(Bare("echo"))
  {
    var w := "echo";
    assert forall i :: 0 <= i < |w| ==> Inert(w[i]);
  }

  lemma DecodeWords()
    ensures WellFormed(Bare("base64")) && WellFormed(Bare("-d"))
  {
    var w, v := "base64", "-d";
    assert forall i :: 0 <= i < |w| ==> Inert(w[i]);
    assert forall i :: 0 <= i < |v| ==> Inert(v[i]);
  }

  lemma PiecesMean(encoded: string, op: Redirect, path: string)
    ensures Meanings(Pieces(encoded, op, path)) ==
      [Word("echo"), Word(encoded), Operator("|"), Word("base64"), Word("-d"), Operator(Arrow(op)), Word(path)]
    ensures Meanings(Pieces(encoded, op, path)[2..]) ==
      [Operator("|"), Word("base64"), Word("-d"), Operator(Arrow(op)), Word(path)]
  {
  }

  /** The part of the script from the pipe on. */
  function PipeText(op: Redirect, path: string): string {
    "| " + ("base64 " + ("-d " + (Arrow(op) + " " + ShellQuote(path))))
  }

  lemma PipeRendered(encoded: string, op: Redirect, path: string)
    ensures Render(Pieces(encoded, op, path)[2..]) == PipeText(op, path)
  {
    var ps, q := Pieces(encoded, op, path), ShellQuote(path);
    assert Render(ps[6..]) == q;
    RenderStep(ps, 5, Arrow(op) + " ", q);
    RenderStep(ps, 4, "-d ", Arrow(op) + " " + q);
    RenderStep(ps, 3, "base64 ", "-d " + (Arrow(op) + " " + q));
    RenderStep(ps, 2, "| ", "base64 " + ("-d " + (Arrow(op) + " " + q)));
  }

  lemma ScriptRendered(encoded: string, op: Redirect, path: string)
    ensures Render(Pieces(encoded, op, path)) == "echo " + (encoded + " " + PipeText(op, path))
  {
    var ps := Pieces(encoded, op, path);
    PipeRendered(encoded, op, path);
    RenderStep(ps, 1, encoded + " ", PipeText(op, path));
    RenderStep(ps, 0, "echo ", encoded + " " + PipeText(op, path));
    assert ps[0..] == ps;
  }

  lemma ScriptSplits(encoded: string, op: Redirect, path: string)
    ensures ScriptText(encoded, op, path) == "echo " + (encoded + " " + PipeText(op, path))
  {
    var tail := Arrow(op) + " " + ShellQuote(path);
    PipeSplits(tail);
    SplitAt("echo ", encoded, " | base64 -d ", Arrow(op), " ", ShellQuote(path));
    Regrouped("-d ", Arrow(op) + " ", ShellQuote(path));
    assert PipeText(op, path) == "| " + ("base64 " + ("-d " + tail)) by {
      Regrouped(Arrow(op), " ", ShellQuote(path));
    }
    SplitOnce("echo ", encoded, PipeText(op, path));
  }

  lemma PipeSplits(tail: string)
    ensures " | base64 -d " + tail == " " + ("| " + ("base64 " + ("-d " + tail)))
  {
  }

  lemma SplitAt(a: string, b: string, c: string, d: string, e: string, f: string)
    ensures a + b + c + d + e + f == a + b + (c + (d + e + f))
  {
  }

  lemma SplitOnce(a: string, b: string, c: string)
    ensures a + b + (" " + c) == a + (b + " " + c)
  {
  }

  /** Without an argument there are two blanks after `echo`, which read like one. */
  lemma EmptyScriptLexes(op: Redirect, path: string)
    requires '\0' !in path
    ensures Lex(ScriptText("", op, path)) == Some(
      [Word("echo"), Operator("|"), Word("base64"), Word("-d"), Operator(Arrow(op)), Word(path)])
  {
    var pipe, text := PipeText(op, path), ScriptText("", op, path);
    PipeLexes(op, path);
    ScriptSplits("", op, path);
    EchoNothing(pipe);
    FeedFrame(START, [Word("echo")], pipe);
    DelimitFrame(FeedAll(START, pipe), [Word("echo")]);
    assert [Word("echo")] + START.tokens == [Word("echo")];
    assert '\0' !in text;
    assert [Word("echo")] + Lex(pipe).value
        == [Word("echo"), Operator("|"), Word("base64"), Word("-d"), Operator(Arrow(op)), Word(path)];
  }

  lemma PipeLexes(op: Redirect, path: string)
    requires '\0' !in path
    ensures '\0' !in PipeText(op, path)
    ensures Lex(PipeText(op, path)) == Some([Operator("|"), Word("base64"), Word("-d"), Operator(Arrow(op)), Word(path)])
  {
    var ps := Pieces("x", op, path)[2..];
    PiecesWellFormed("x", op, path);
    PiecesMean("x", op, path);
    PipeRendered("x", op, path);
    assert forall i :: 0 <= i < |ps| ==> ps[i] == Pieces("x", op, path)[i + 2];
    RenderLexes(ps);
    RenderHasNoNul(ps);
  }

  lemma EchoNothing(rest: string)
    ensures FeedAll(START, "echo " + ("" + " " + rest)) == FeedAll(Reader([Word("echo")], Nothing, Plain), rest)
  {
    var echo := "echo";
    assert forall i :: 0 <= i < |echo| ==> Inert(echo[i]);
    assert "echo " + ("" + " " + rest) == echo + (" " + (" " + rest));
    FeedAllConcat(START, echo, " " + (" " + rest));
    FeedBare(START, echo);
    assert "" + echo == echo;
    FeedBlank(Reader([], InWord(echo), Plain), " " + rest);
    assert [] + [Word(echo)] == [Word(echo)];
    FeedBlank(Reader([Word(echo)], Nothing, Plain), rest);
  }

  lemma InterpretTokens(text: string, encoded: string, op: Redirect, path: string)
    requires Lex(text) == Some(
      if encoded == "" then
        [Word("echo"), Operator("|"), Word("base64"), Word("-d"), Operator(Arrow(op)), Word(path)]
      else
        [Word("echo"), Word(encoded), Operator("|"), Word("base64"), Word("-d"), Operator(Arrow(op)), Word(path)])
    ensures Interpret(text) == Some(Script(encoded, op, path))
  {
    var t := Lex(text).value;
    var args := |t| - 6;
    assert t[1 + args..4 + args] == [Operator("|"), Word("base64"), Word("-d")];
  }

  lemma ScriptLexes(encoded: string, op: Redirect, path: string)
    requires '\0' !in path
    requires encoded != "" && forall i :: 0 <= i < |encoded| ==> Inert(encoded[i])
    ensures Lex(ScriptText(encoded, op, path)) == Some(
      [Word("echo"), Word(encoded), Operator("|"), Word("base64"), Word("-d"), Operator(Arrow(op)), Word(path)])
  {
    PiecesWellFormed(encoded, op, path);
    RenderLexes(Pieces(encoded, op, path));
    PiecesMean(encoded, op, path);
    ScriptRendered(encoded, op, path);
    ScriptSplits(encoded, op, path);
  }

  lemma EncodingInert(chunk: seq<Byte>)
    ensures forall i :: 0 <= i < |Base64.Encode(chunk)| ==> Inert(Base64.Encode(chunk)[i])
  {
    Base64.EncodeSymbols(chunk);
  }

  /** The shell reads every script the writer sends as the intended content, redirection and path. */
  lemma ScriptMeaning(chunk: seq<Byte>, op: Redirect, path: string)
    requires '\0' !in path
    ensures Interpret(ScriptText(Base64.Encode(chunk), op, path)) == Some(Script(Base64.Encode(chunk), op, path))
  {
    var encoded := Base64.Encode(chunk);
    if encoded == "" {
      EmptyScriptLexes(op, path);
    } else {
      EncodingInert(chunk);
      ScriptLexes(encoded, op, path);
    }
    InterpretTokens(ScriptText(encoded, op, path), encoded, op, path);
  }

  // ---------- the script of the single-shot branch ----------

  function ShotText(encoded: string, path: string): string {
    "mkdir -p $(" + ("dirname " + ShellQuote(path)) + ") && " + ScriptText(encoded, Truncate, path)
  }

  /** A text cut in two. */
  datatype Cut = Cut(before: string, after: string)

  function Prepend(text: string, cut: Option<Cut>): Option<Cut> {
    if cut.None? then None else Some(Cut(text + cut.value.before, cut.value.after))
  }

  /** Cuts at the first unquoted `$(`, or fails where something else than plain words comes before. */
  function CutAtSubstitution(s: string): Option<Cut> {
    if "$(" <= s then Some(Cut("", s[2..]))
    else if s == "" || (!Inert(s[0]) && !Blank(s[0])) then None
    else Prepend([s[0]], CutAtSubstitution(s[1..]))
  }

  /**
   Cuts a command substitution at the parenthesis that ends it (section 2.6.3), past single quotes and escaped
   characters; nested expansions are refused.
   */
  function CutAtEnd(s: string, quoted: bool): Option<Cut>
    decreases |s|
  {
    if s == "" then None
    else if quoted then Prepend([s[0]], CutAtEnd(s[1..], s[0] != '\''))
    else if s[0] == ')' then Some(Cut("", s[1..]))
    else if s[0] == '\'' then Prepend([s[0]], CutAtEnd(s[1..], true))
    else if s[0] == '\\' then if |s| < 2 then None else Prepend(s[..2], CutAtEnd(s[2..], false))
    else if !Inert(s[0]) && !Blank(s[0]) then None
    else Prepend([s[0]], CutAtEnd(s[1..], false))
  }

  /** `mkdir -p` of the directory name of a path, and a script that runs if it succeeds. */
  datatype Shot = Shot(directoryOf: string, script: Script)

  function InterpretShot(text: string): Option<Shot> {
    var head := CutAtSubstitution(text);
    if head.None? || Lex(head.value.before) != Some([Word("mkdir"), Word("-p")]) then None else
    var sub := CutAtEnd(head.value.after, false);
    if sub.None? || !(" && " <= sub.value.after) then None else
    var dirname, script := Lex(sub.value.before), Interpret(sub.value.after[4..]);
    if dirname.Some? && |dirname.value| == 2 && dirname.value[0] == Word("dirname") && dirname.value[1].Word?
      && script.Some?
    then Some(Shot(dirname.value[1].text, script.value))
    else None
  }

  lemma {:induction false} CutPlain(w: string, s: string)
    requires forall i :: 0 <= i < |w| ==> Inert(w[i]) || Blank(w[i])
    ensures CutAtEnd(w + s, false) == Prepend(w, CutAtEnd(s, false))
    ensures "$(" <= s ==> CutAtSubstitution(w + s) == Some(Cut(w, s[2..]))
  {
    if w == "" {
      assert w + s == s;
      var cut := CutAtEnd(s, false);
      if cut.Some? { assert w + cut.value.before == cut.value.before; }
    } else {
      CutPlain(w[1..], s);
      assert (w + s)[1..] == w[1..] + s && [w[0]] + w[1..] == w;
      PrependTwice([w[0]], w[1..], CutAtEnd(s, false));
    }
  }

  /** A quoted path is passed as a whole, whatever quotes and parentheses are in it. */
  /** A quoted body is the quoting of its first character and the rest. */
  lemma BodyGrouped(p: string, s: string)
    requires p != ""
    ensures var head, rest := if p[0] == '\'' then "'\\''" else [p[0]], ReplaceAll(p[1..], '\'', "'\\''") + "'";
      && ReplaceAll(p, '\'', "'\\''") + "'" == head + rest
      && ReplaceAll(p, '\'', "'\\''") + "'" + s == head + (rest + s)
  {
  }

  lemma {:induction false} CutPastBody(p: string, s: string)
    ensures CutAtEnd(ReplaceAll(p, '\'', "'\\''") + "'" + s, true)
         == Prepend(ReplaceAll(p, '\'', "'\\''") + "'", CutAtEnd(s, false))
  {
    if p == "" {
      var text := ReplaceAll(p, '\'', "'\\''") + "'" + s;
      assert text == "'" + s && text[1..] == s;
    } else {
      var rest := ReplaceAll(p[1..], '\'', "'\\''") + "'";
      BodyGrouped(p, s);
      CutPastBody(p[1..], s);
      if p[0] == '\'' {
        CutPastEscape(rest + s);
        PrependTwice("'\\''", rest, CutAtEnd(s, false));
      } else {
        assert ([p[0]] + (rest + s))[1..] == rest + s;
        PrependTwice([p[0]], rest, CutAtEnd(s, false));
      }
    }
  }

  lemma PrependTwice(a: string, b: string, cut: Option<Cut>)
    ensures Prepend(a, Prepend(b, cut)) == Prepend(a + b, cut)
  {
    if cut.Some? { assert a + (b + cut.value.before) == a + b + cut.value.before; }
  }

  lemma CutPastEscape(s: string)
    ensures CutAtEnd("'\\''" + s, true) == Prepend("'\\''", CutAtEnd(s, true))
  {
    var open, escaped := "'" + s, "\\''" + s;
    assert open[1..] == s && open[..1] == "'";
    assert CutAtEnd(open, false) == Prepend("'", CutAtEnd(s, true));
    assert escaped[2..] == open && escaped[..2] == "\\'";
    assert CutAtEnd(escaped, false) == Prepend("\\'", CutAtEnd(open, false));
    PrependTwice("\\'", "'", CutAtEnd(s, true));
    var t := "'\\''" + s;
    assert t[1..] == escaped && t[..1] == "'";
    PrependTwice("'", "\\''", CutAtEnd(s, true));
    assert "\\'" + "'" == "\\''" && "'" + "\\''" == "'\\''";
  }

  lemma CutPastQuoted(p: string, s: string)
    ensures CutAtEnd(ShellQuote(p) + s, false) == Prepend(ShellQuote(p), CutAtEnd(s, false))
  {
    var body := ReplaceAll(p, '\'', "'\\''") + "'";
    assert ShellQuote(p) == "'" + body && (ShellQuote(p) + s)[1..] == body + s;
    CutPastBody(p, s);
    PrependTwice("'", body, CutAtEnd(s, false));
  }

  lemma DirnameLexes(path: string)
    requires '\0' !in path
    ensures Lex("dirname " + ShellQuote(path)) == Some([Word("dirname"), Word(path)])
  {
    var ps := [Bare("dirname"), Quoted(path)];
    var w := "dirname";
    assert forall i :: 0 <= i < |w| ==> Inert(w[i]);
    assert WellFormed(ps[0]) && WellFormed(ps[1]);
    RenderLexes(ps);
    assert ps[1..] == [Quoted(path)];
    assert Render(ps) == w + " " + ShellQuote(path) && w + " " == "dirname ";
    assert Meanings(ps) == [Word("dirname"), Word(path)];
  }

  lemma MkdirLexes()
    ensures Lex("mkdir -p ") == Some([Word("mkdir"), Word("-p")])
  {
    var ps := [Bare("mkdir"), Bare("-p")];
    MkdirRendered(ps);
    RenderHasNoNul(ps);
    FeedRender(START, ps);
    assert [] + Meanings(ps) == Meanings(ps);
    LexPastBlank("mkdir -p");
    MkdirSpaced("mkdir", "-p");
    assert "mkdir -p" + " " == "mkdir -p ";
  }

  /** A blank at the end of a command adds nothing. */
  lemma LexPastBlank(s: string)
    requires '\0' !in s && FeedAll(START, s).mode == Plain
    ensures Lex(s + " ") == Some(Delimit(FeedAll(START, s)).tokens)
  {
    var r := FeedAll(START, s);
    FeedAllConcat(START, s, " ");
    FeedBlank(r, "");
    assert " " + "" == " ";
    assert Delimit(Delimit(r)) == Delimit(r);
  }

  lemma MkdirWords()
    ensures WellFormed(Bare("mkdir")) && WellFormed(Bare("-p"))
  {
    var w, v := "mkdir", "-p";
    assert forall i :: 0 <= i < |w| ==> Inert(w[i]);
    assert forall i :: 0 <= i < |v| ==> Inert(v[i]);
  }

  lemma MkdirRendered(ps: seq<Piece>)
    requires ps == [Bare("mkdir"), Bare("-p")]
    ensures Render(ps) == "mkdir -p" && Meanings(ps) == [Word("mkdir"), Word("-p")]
    ensures forall i :: 0 <= i < |ps| ==> WellFormed(ps[i])
  {
    MkdirWords();
    assert ps[1..] == [Bare("-p")];
    MkdirSpaced("mkdir", "-p");
  }

  lemma MkdirSpaced(w: string, v: string)
    requires w == "mkdir" && v == "-p"
    ensures w + " " + v == "mkdir -p"
  {
  }

  /** The shell reads the single-shot script as `mkdir -p` of the path's directory and then the intended script. */
  lemma ShotMeaning(content: seq<Byte>, path: string)
    requires '\0' !in path
    ensures InterpretShot(ShotText(Base64.Encode(content), path))
         == Some(Shot(path, Script(Base64.Encode(content), Truncate, path)))
  {
    var script := ScriptText(Base64.Encode(content), Truncate, path);
    ShotCuts(Base64.Encode(content), path);
    MkdirLexes();
    DirnameLexes(path);
    ScriptMeaning(content, Truncate, path);
    var inside := "dirname " + ShellQuote(path);
    InterpretCut(ShotText(Base64.Encode(content), path), "mkdir -p ", inside + (") && " + script), inside, script, path);
  }

  lemma InterpretCut(text: string, head: string, sub: string, inside: string, rest: string, path: string)
    requires CutAtSubstitution(text) == Some(Cut(head, sub)) && Lex(head) == Some([Word("mkdir"), Word("-p")])
    requires CutAtEnd(sub, false) == Some(Cut(inside, " && " + rest))
    requires Lex(inside) == Some([Word("dirname"), Word(path)]) && Interpret(rest).Some?
    ensures InterpretShot(text) == Some(Shot(path, Interpret(rest).value))
  {
    assert (" && " + rest)[4..] == rest;
  }

  lemma ShotCuts(encoded: string, path: string)
    ensures var script, inside := ScriptText(encoded, Truncate, path), "dirname " + ShellQuote(path);
      var sub := inside + (") && " + script);
      && CutAtSubstitution(ShotText(encoded, path)) == Some(Cut("mkdir -p ", sub))
      && CutAtEnd(sub, false) == Some(Cut(inside, " && " + script))
  {
    var script := ScriptText(encoded, Truncate, path);
    var sub := "dirname " + ShellQuote(path) + (") && " + script);
    var head := "mkdir -p ";
    assert ShotText(encoded, path) == head + ("$(" + sub);
    assert forall i :: 0 <= i < |head| ==> Inert(head[i]) || Blank(head[i]);
    CutPlain(head, "$(" + sub);
    assert ("$(" + sub)[2..] == sub;
    SubstitutionEnds(path, script);
  }

  lemma SubstitutionEnds(path: string, script: string)
    ensures var inside := "dirname " + ShellQuote(path);
      CutAtEnd(inside + (") && " + script), false) == Some(Cut(inside, " && " + script))
  {
    var w, q, tail := "dirname ", ShellQuote(path), ") && " + script;
    DirnameInert();
    CutPlain(w, q + tail);
    CutPastQuoted(path, tail);
    CutAtParenthesis(script);
    Regrouped(w, q, tail);
    PrependBoth(w, q, " && " + script);
  }

  lemma DirnameInert()
    ensures var w := "dirname "; forall i :: 0 <= i < |w| ==> Inert(w[i]) || Blank(w[i])
  {
  }

  lemma CutAtParenthesis(script: string)
    ensures CutAtEnd(") && " + script, false) == Some(Cut("", " && " + script))
  {
    var tail := ") && " + script;
    assert tail[0] == ')' && tail[1..] == " && " + script;
  }

  lemma Regrouped(a: string, b: string, c: string)
    ensures a + b + c == a + (b + c)
  {
  }

  lemma PrependBoth(a: string, b: string, rest: string)
    ensures Prepend(a, Prepend(b, Some(Cut("", rest)))) == Some(Cut(a + b, rest))
  {
    assert b + "" == b;
  }

  // ---------- the writer ----------

  /** How the exec of a command ends: with an exit status, or without one. */
  datatype Exec = Exited(status: int) | CallFailed

  class RemoteFile {
    const path: string
    var held: Option<seq<Byte>>

    constructor (path: string, held: Option<seq<Byte>>)
      ensures this.path == path && this.held == held
    {
      this.path := path;
      this.held := held;
    }

    /** Runs a script that the shell has read and that writes to this file. */
    method RunScript(script: Script, outcome: Outcome) returns (ok: bool)
      requires script.path == path
      modifies this
      ensures var output := Base64.Decode(script.encoded + "\n");
        && (ok <==> outcome.Done? && output.Some?)
        && held == ScriptEffect(old(held), script.op, output, outcome)
    {
      var output := Base64.Decode(script.encoded + "\n");
      held := ScriptEffect(held, script.op, output, outcome);
      ok := outcome.Done? && output.Some?;
    }

    /** Encodes a piece of the content, builds its script and runs it. */
    method WritePiece(piece: seq<Byte>, op: Redirect, outcome: Outcome) returns (ok: bool)
      requires '\0' !in path
      modifies this
      ensures ok <==> outcome.Done?
      ensures held == ScriptEffect(old(held), op, Some(piece), outcome)
    {
      var encoded := Base64.Encode(piece);
      Base64.EchoDecodes(piece);
      ScriptMeaning(piece, op, path);
      ok := RunScript(Interpret(ScriptText(encoded, op, path)).value, outcome);
    }

    /** The single shot. When its mkdir fails, the exec fails without having opened the file. */
    method WriteShot(content: seq<Byte>, outcome: Outcome) returns (ok: bool)
      requires '\0' !in path
      modifies this
      ensures ok <==> outcome.Done?
      ensures held == ScriptEffect(old(held), Truncate, Some(content), outcome)
    {
      var encoded := Base64.Encode(content);
      Base64.EchoDecodes(content);
      ShotMeaning(content, path);
      ok := RunScript(InterpretShot(ShotText(encoded, path)).value.script, outcome);
    }

    /** outcomes(k) is how the k-th exec that writes ends; mkdir is how the exec before the chunks ends. */
    method WriteFileLXC(content: seq<Byte>, mkdir: Exec, outcomes: nat -> Outcome) returns (ok: bool)
      requires '\0' !in path // WriteFile has validated the path
      modifies this
      ensures ok ==> held == Some(content)
      ensures ok <==> Reached(content, mkdir) && FirstFailure(outcomes, Writes(|content|)) == Writes(|content|)
      ensures !Reached(content, mkdir) ==> held == old(held)
      ensures Reached(content, mkdir) && !ok ==>
        var k := FirstFailure(outcomes, Writes(|content|));
        held == AfterFailure(old(held), content, k, outcomes(k))
    {
      if |content| > MAX_ECHO_SIZE {
        ok := WriteFileLXCChunked(content, mkdir, outcomes);
        return;
      }
      ok := WriteShot(content, outcomes(0));
      WriteStep(old(held), content, 0, outcomes(0));
      assert content[..|content|] == content;
    }

    method WriteFileLXCChunked(content: seq<Byte>, mkdir: Exec, outcomes: nat -> Outcome) returns (ok: bool)
      requires '\0' !in path
      requires |content| > MAX_ECHO_SIZE
      modifies this
      ensures ok ==> held == Some(content)
      ensures ok <==> mkdir.Exited? && FirstFailure(outcomes, Writes(|content|)) == Writes(|content|)
      ensures mkdir.CallFailed? ==> held == old(held)
      ensures mkdir.Exited? && !ok ==>
        var k := FirstFailure(outcomes, Writes(|content|));
        held == AfterFailure(old(held), content, k, outcomes(k))
    {
      // the exit status of mkdir is not looked at
      if mkdir.CallFailed? { return false; }
      var first := true;
      var i := 0;
      ghost var k: nat := 0;
      while i < |content|
        invariant i == k * CHUNK_SIZE
        invariant k <= Writes(|content|)
        invariant i >= |content| ==> k == Writes(|content|)
        invariant first == (k == 0)
        invariant held == AfterWrites(old(held), content, k)
        invariant forall j: nat :: j < k ==> outcomes(j).Done?
      {
        var end := i + CHUNK_SIZE;
        if end > |content| { end := |content|; }
        ChunkCount(k, |content|);
        assert end == WriteEnd(k, |content|);
        var chunk := content[i..end];
        var op := AppendTo;
        if first { op := Truncate; first := false; }
        WriteStep(old(held), content, k, outcomes(k));
        FirstFailureIs(outcomes, Writes(|content|), k);
        var done := WritePiece(chunk, op, outcomes(i / CHUNK_SIZE));
        if !done { return false; }
        i := i + CHUNK_SIZE;
        k := k + 1;
      }
      FirstFailureIs(outcomes, Writes(|content|), k);
      assert content[..|content|] == content;
      return true;
    }
  }

  /** Whether the writing scripts are reached at all. */
  predicate Reached(content: seq<Byte>, mkdir: Exec) {
    |content| > MAX_ECHO_SIZE ==> mkdir.Exited?
  }

  /** The first of n execs that does not succeed, or n. */
  function FirstFailure(outcomes: nat -> Outcome, n: nat): (k: nat)
    ensures k <= n
    ensures forall j: nat :: j < k ==> outcomes(j).Done?
    ensures k < n ==> outcomes(k).Failed?
  {
    if n == 0 then 0
    else
      var k := FirstFailure(outcomes, n - 1);
      if k < n - 1 || outcomes(n - 1).Failed? then k else n
  }

  lemma FirstFailureIs(outcomes: nat -> Outcome, n: nat, k: nat)
    requires k <= n && (forall j: nat :: j < k ==> outcomes(j).Done?)
    ensures k == n || outcomes(k).Failed? ==> FirstFailure(outcomes, n) == k
  {
  }

  lemma ChunkCount(k: nat, n: nat)
    requires n > MAX_ECHO_SIZE && k * CHUNK_SIZE < n
    ensures k < Writes(n)
    ensures WriteStart(k, n) == k * CHUNK_SIZE && WriteEnd(k, n) == Min(k * CHUNK_SIZE + CHUNK_SIZE, n)
    ensures k * CHUNK_SIZE / CHUNK_SIZE == k
    ensures (k + 1) * CHUNK_SIZE >= n ==> k + 1 == Writes(n)
  {
  }

  /** One writing script, run on what its predecessors left. */
  lemma WriteStep(held: Option<seq<Byte>>, content: seq<Byte>, k: nat, outcome: Outcome)
    requires k < Writes(|content|)
    ensures WriteStart(k, |content|) <= WriteEnd(k, |content|) <= |content|
    ensures var chunk := content[WriteStart(k, |content|)..WriteEnd(k, |content|)];
      ScriptEffect(AfterWrites(held, content, k), if k == 0 then Truncate else AppendTo, Some(chunk), outcome)
      == if outcome.Done? then AfterWrites(held, content, k + 1) else AfterFailure(held, content, k, outcome)
  {
    var start, end := WriteStart(k, |content|), WriteEnd(k, |content|);
    var chunk := content[start..end];
    var base := if k == 0 then [] else content[..start];
    assert base + chunk == content[..end];
    assert forall m: nat :: m <= end - start ==> base + chunk[..m] == content[..start + m];
  }

  /** A content of up to 65536 bytes is one piece; a longer one is in as few as hold it, of 49152 bytes each. */
  lemma PiecesCover(n: nat)
    ensures Writes(n) == 1 <==> n <= 65536
    ensures n > 65536 ==> (Writes(n) - 1) * 49152 < n <= Writes(n) * 49152
  {
  }

  /** An encoded chunk has at most 65536 characters, a full one exactly that many, and a single shot at most 87384. */
  lemma EncodingFits(chunk: seq<Byte>)
    ensures |chunk| <= CHUNK_SIZE ==> |Base64.Encode(chunk)| <= 65536
    ensures |chunk| == CHUNK_SIZE ==> |Base64.Encode(chunk)| == 65536
    ensures |chunk| <= MAX_ECHO_SIZE ==> |Base64.Encode(chunk)| <= 87384
  {
    Base64.EncodeLength(chunk);
  }
}
