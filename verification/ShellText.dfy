/**
 Shell quoting (ssh/client.go, proxmox/files.go) against the shell's own reader.

 The reader is token recognition and quote removal of the Shell Command Language
 of IEEE Std 1003.1: section 2.2.1 (escape character), 2.2.2 (single-quotes),
 2.2.3 (double-quotes) and 2.3 (token recognition). Text that would need an
 expansion (section 2.6) is refused, so every word it yields is literal.
 */
module ShellText {
  import opened Prelude

  // ---------- the printer ----------

  /** strings.ReplaceAll for a one-character pattern. */
  function ReplaceAll(s: string, what: char, with: string): string {
    if s == [] then []
    else (if s[0] == what then with else [s[0]]) + ReplaceAll(s[1..], what, with)
  }

  function ShellQuote(s: string): string {
    "'" + ReplaceAll(s, '\'', "'\\''") + "'"
  }

  // ---------- the reader ----------

  datatype Token = Word(text: string) | Operator(text: string)

  /** The token being read. */
  datatype Partial = Nothing | InWord(text: string) | InOperator(text: string)

  datatype Mode = Plain | Escape | SingleQuotes | DoubleQuotes | DoubleEscape | Comment | Refused

  datatype Reader = Reader(tokens: seq<Token>, partial: Partial, mode: Mode)

  const START := Reader([], Nothing, Plain)

  const OPERATORS: set<string> :=
    {"&", "&&", "(", ")", ";", ";;", "\n", "|", "||", "<", "<<", "<&", "<>", "<<-", ">", ">>", ">&", ">|"}

  predicate Blank(c: char) { c == ' ' || c == '\t' }

  predicate StartsOperator(c: char) {
    c == '&' || c == '(' || c == ')' || c == ';' || c == '\n' || c == '|' || c == '<' || c == '>'
  }

  /** Unquoted characters that lead to an expansion. */
  predicate StartsExpansion(c: char) {
    c == '$' || c == '`' || c == '*' || c == '?' || c == '[' || c == '~'
  }

  /** Ends the token being read, if there is one. */
  function Delimit(r: Reader): Reader {
    match r.partial
    case Nothing => r
    case InWord(w) => r.(tokens := r.tokens + [Word(w)], partial := Nothing)
    case InOperator(o) => r.(tokens := r.tokens + [Operator(o)], partial := Nothing)
  }

  /** Starts a word, unless one is already being read. */
  function OpenWord(r: Reader): (o: Reader)
    ensures o.partial.InWord? && o.mode == r.mode
  {
    if r.partial.InWord? then r else Delimit(r).(partial := InWord(""))
  }

  function Append(r: Reader, text: string): Reader {
    var o := OpenWord(r);
    o.(partial := InWord(o.partial.text + text))
  }

  function FeedPlain(r: Reader, c: char): Reader {
    if r.partial.InOperator? && r.partial.text + [c] in OPERATORS then
      r.(partial := InOperator(r.partial.text + [c]))
    else if c == '\\' then r.(mode := Escape)
    else if c == '\'' then OpenWord(r).(mode := SingleQuotes)
    else if c == '"' then OpenWord(r).(mode := DoubleQuotes)
    else if StartsExpansion(c) then r.(mode := Refused)
    else if StartsOperator(c) then Delimit(r).(partial := InOperator([c]))
    else if Blank(c) then Delimit(r)
    else if c == '#' && !r.partial.InWord? then Delimit(r).(mode := Comment)
    else Append(r, [c])
  }

  function Feed(r: Reader, c: char): Reader {
    match r.mode
    case Plain => FeedPlain(r, c)
    case Escape =>
      // a backslash before a newline disappears with it
      if c == '\n' then r.(mode := Plain) else Append(r, [c]).(mode := Plain)
    case SingleQuotes =>
      if c == '\'' then r.(mode := Plain) else Append(r, [c])
    case DoubleQuotes =>
      if c == '"' then r.(mode := Plain)
      else if c == '\\' then r.(mode := DoubleEscape)
      else if c == '$' || c == '`' then r.(mode := Refused)
      else Append(r, [c])
    case DoubleEscape =>
      if c == '\n' then r.(mode := DoubleQuotes)
      else if c == '$' || c == '`' || c == '"' || c == '\\' then Append(r, [c]).(mode := DoubleQuotes)
      else Append(r, ['\\', c]).(mode := DoubleQuotes)
    case Comment =>
      if c == '\n' then FeedPlain(r.(mode := Plain), c) else r
    case Refused => r
  }

  function FeedAll(r: Reader, s: string): Reader
    decreases |s|
  {
    if s == [] then r else FeedAll(Feed(r, s[0]), s[1..])
  }

  /** What reaches the shell: a command is a C string, which ends at the first NUL. */
  function BeforeNul(s: string): (t: string)
    ensures '\0' !in s ==> t == s
    ensures '\0' in s ==> |t| < |s| && s[|t|] == '\0'
    ensures t <= s && '\0' !in t
  {
    if s == [] || s[0] == '\0' then [] else [s[0]] + BeforeNul(s[1..])
  }

  /** The tokens of a command, or None when a quote is left open or an expansion is met. */
  function Lex(command: string): Option<seq<Token>> {
    var r := FeedAll(START, BeforeNul(command));
    if r.mode == Plain || r.mode == Comment then Some(Delimit(r).tokens) else None
  }

  // ---------- reading what the printer wrote ----------

  lemma {:induction false} FeedAllConcat(r: Reader, a: string, b: string)
    ensures FeedAll(r, a + b) == FeedAll(FeedAll(r, a), b)
    decreases |a|
  {
    if a == [] {
      assert a + b == b;
    } else {
      assert (a + b)[1..] == a[1..] + b;
      FeedAllConcat(Feed(r, a[0]), a[1..], b);
    }
  }

  lemma FeedEscapedQuote(r: Reader)
    requires r.mode == SingleQuotes && r.partial.InWord?
    ensures FeedAll(r, "'\\''") == Append(r, "'")
  {
    var s := "'\\''";
    var r1 := Feed(r, s[0]);
    var r2 := Feed(r1, s[1]);
    var r3 := Feed(r2, s[2]);
    var r4 := Feed(r3, s[3]);
    assert s[1..][1..] == s[2..] && s[2..][1..] == s[3..] && s[3..][1..] == [];
    assert FeedAll(r3, s[3..]) == r4;
    assert FeedAll(r2, s[2..]) == FeedAll(r3, s[2..][1..]);
    assert FeedAll(r1, s[1..]) == FeedAll(r2, s[1..][1..]);
  }

  lemma {:induction false} FeedQuotedBody(r: Reader, s: string)
    requires r.mode == SingleQuotes && r.partial.InWord?
    ensures FeedAll(r, ReplaceAll(s, '\'', "'\\''")) == Append(r, s)
    decreases |s|
  {
    if s == [] {
    } else {
      var head := if s[0] == '\'' then "'\\''" else [s[0]];
      FeedAllConcat(r, head, ReplaceAll(s[1..], '\'', "'\\''"));
      if s[0] == '\'' { FeedEscapedQuote(r); }
      assert FeedAll(r, head) == Append(r, [s[0]]) by {
        if s[0] != '\'' { assert head[1..] == []; }
      }
      FeedQuotedBody(Append(r, [s[0]]), s[1..]);
      assert r.partial.text + [s[0]] + s[1..] == r.partial.text + s;
    }
  }

  /** A quoted string extends the word being read, or starts one, by exactly that string. */
  lemma FeedQuoted(r: Reader, s: string)
    requires r.mode == Plain
    ensures FeedAll(r, ShellQuote(s)) == Append(r, s)
  {
    var body := ReplaceAll(s, '\'', "'\\''");
    var quoting := OpenWord(r).(mode := SingleQuotes);
    var quote := "'";
    assert r.partial.InOperator? ==> r.partial.text + ['\''] !in OPERATORS by {
      if r.partial.InOperator? { NoOperatorEndsIn(r.partial.text, '\''); }
    }
    assert Feed(r, '\'') == quoting;
    assert FeedAll(r, quote) == quoting by { assert quote[1..] == []; }
    FeedAllConcat(r, quote + body, quote);
    FeedAllConcat(r, quote, body);
    FeedQuotedBody(quoting, s);
    var closed := Append(quoting, s);
    assert FeedAll(closed, quote) == closed.(mode := Plain) by { assert quote[1..] == []; }
  }

  lemma NoOperatorEndsIn(prefix: string, c: char)
    requires !StartsOperator(c) && c != '-'
    ensures prefix + [c] !in OPERATORS
  {
    var s := prefix + [c];
    assert s[|s| - 1] == c;
  }

  // ---------- whole command lines ----------

  /** The way the callers build a command: bare words, operators and quoted strings with a blank between. */
  datatype Piece = Bare(text: string) | Quoted(text: string) | Op(text: string)

  /** Characters that mean nothing to the reader outside quotes. */
  predicate Inert(c: char) {
    !StartsOperator(c) && !StartsExpansion(c) && !Blank(c)
    && c != '\\' && c != '\'' && c != '"' && c != '#' && c != '\0'
  }

  ghost predicate WellFormed(p: Piece) {
    match p
    case Bare(w) => w != "" && forall i :: 0 <= i < |w| ==> Inert(w[i])
    case Quoted(s) => '\0' !in s
    case Op(o) => o in {"&&", "|", ">", ">>"}
  }

  function Written(p: Piece): string {
    match p
    case Bare(w) => w
    case Quoted(s) => ShellQuote(s)
    case Op(o) => o
  }

  function Meaning(p: Piece): Token {
    if p.Op? then Operator(p.text) else Word(p.text)
  }

  function Render(ps: seq<Piece>): string {
    if ps == [] then ""
    else if |ps| == 1 then Written(ps[0])
    else Written(ps[0]) + " " + Render(ps[1..])
  }

  function Meanings(ps: seq<Piece>): seq<Token> {
    seq(|ps|, i requires 0 <= i < |ps| => Meaning(ps[i]))
  }

  /** Renders one more piece in front of a rendered tail. */
  lemma RenderStep(ps: seq<Piece>, i: nat, head: string, tail: string)
    requires i + 1 < |ps| && Written(ps[i]) + " " == head && Render(ps[i + 1..]) == tail
    ensures Render(ps[i..]) == head + tail
  {
    assert ps[i..][1..] == ps[i + 1..];
  }

  lemma {:induction false} FeedBare(r: Reader, w: string)
    requires r.mode == Plain && !r.partial.InOperator?
    requires w != "" && forall i :: 0 <= i < |w| ==> Inert(w[i])
    ensures FeedAll(r, w) == Append(r, w)
    decreases |w|
  {
    var next := Feed(r, w[0]);
    assert next == Append(r, [w[0]]);
    if |w| == 1 {
      assert w == [w[0]] && w[1..] == [];
    } else {
      FeedBare(next, w[1..]);
      assert next.partial.text + w[1..] == OpenWord(r).partial.text + w by {
        assert [w[0]] + w[1..] == w;
      }
    }
  }

  /** A blank ends the token being read, and a second blank changes nothing. */
  lemma FeedBlank(r: Reader, s: string)
    requires r.mode == Plain
    ensures FeedAll(r, " " + s) == FeedAll(Delimit(r), s)
  {
    if r.partial.InOperator? { NoOperatorEndsIn(r.partial.text, ' '); }
    assert (" " + s)[1..] == s;
  }

  lemma FeedOperator(r: Reader, o: string)
    requires r.mode == Plain && r.partial.Nothing?
    requires o in {"&&", "|", ">", ">>"}
    ensures FeedAll(r, o) == r.(partial := InOperator(o))
  {
    var first := Feed(r, o[0]);
    assert first == r.(partial := InOperator([o[0]]));
    if |o| == 2 {
      assert [o[0]] + [o[1]] == o;
      assert o[1..][1..] == [];
      assert FeedAll(first, o[1..]) == FeedAll(Feed(first, o[1]), []);
    } else {
      assert o == [o[0]] && o[1..] == [];
    }
  }

  /** Between tokens, one piece is read as its own token and nothing else. */
  lemma FeedPiece(r: Reader, p: Piece)
    requires r.mode == Plain && r.partial.Nothing?
    requires WellFormed(p)
    ensures FeedAll(r, Written(p)).mode == Plain
    ensures Delimit(FeedAll(r, Written(p))) == r.(tokens := r.tokens + [Meaning(p)])
    ensures p.Op? || FeedAll(r, Written(p)).partial == InWord(p.text)
  {
    match p
    case Bare(w) =>
      FeedBare(r, w);
      assert "" + w == w;
    case Quoted(s) =>
      FeedQuoted(r, s);
      assert "" + s == s;
    case Op(o) => FeedOperator(r, o);
  }

  lemma MeaningsFrom(tokens: seq<Token>, ps: seq<Piece>)
    requires ps != []
    ensures tokens + [Meaning(ps[0])] + Meanings(ps[1..]) == tokens + Meanings(ps)
  {
  }

  lemma RenderFirst(ps: seq<Piece>)
    requires |ps| > 1
    ensures Render(ps) == Written(ps[0]) + (" " + Render(ps[1..]))
  {
  }

  /** The first of several pieces and the blank after it add one token. */
  lemma FeedFirst(r: Reader, ps: seq<Piece>)
    requires r.mode == Plain && r.partial.Nothing?
    requires |ps| > 1 && WellFormed(ps[0])
    ensures FeedAll(r, Render(ps)) == FeedAll(r.(tokens := r.tokens + [Meaning(ps[0])]), Render(ps[1..]))
  {
    var first, rest := Written(ps[0]), Render(ps[1..]);
    FeedPiece(r, ps[0]);
    FeedAllConcat(r, first, " " + rest);
    RenderFirst(ps);
    FeedBlank(FeedAll(r, first), rest);
  }

  lemma {:induction false} FeedRender(r: Reader, ps: seq<Piece>)
    requires r.mode == Plain && r.partial.Nothing?
    requires forall i :: 0 <= i < |ps| ==> WellFormed(ps[i])
    ensures FeedAll(r, Render(ps)).mode == Plain
    ensures Delimit(FeedAll(r, Render(ps))) == r.(tokens := r.tokens + Meanings(ps))
    decreases |ps|
  {
    if ps == [] {
      assert r.tokens + Meanings(ps) == r.tokens;
    } else {
      if |ps| == 1 {
        FeedPiece(r, ps[0]);
        assert Meanings(ps) == [Meaning(ps[0])];
      } else {
        FeedFirst(r, ps);
        FeedRender(r.(tokens := r.tokens + [Meaning(ps[0])]), ps[1..]);
        MeaningsFrom(r.tokens, ps);
      }
    }
  }

  lemma {:induction false} QuoteKeepsNul(s: string)
    ensures '\0' in ReplaceAll(s, '\'', "'\\''") <==> '\0' in s
  {
    if s == [] {
    } else {
      QuoteKeepsNul(s[1..]);
      assert s == [s[0]] + s[1..];
    }
  }

  lemma {:induction false} RenderHasNoNul(ps: seq<Piece>)
    requires forall i :: 0 <= i < |ps| ==> WellFormed(ps[i])
    ensures '\0' !in Render(ps)
    decreases |ps|
  {
    if ps == [] {
    } else {
      if ps[0].Quoted? { QuoteKeepsNul(ps[0].text); }
      assert '\0' !in Written(ps[0]);
      if |ps| > 1 { RenderHasNoNul(ps[1..]); }
    }
  }

  /** Every command line built from such pieces is read as exactly the intended words and operators. */
  lemma RenderLexes(ps: seq<Piece>)
    requires forall i :: 0 <= i < |ps| ==> WellFormed(ps[i])
    ensures Lex(Render(ps)) == Some(Meanings(ps))
  {
    RenderHasNoNul(ps);
    FeedRender(START, ps);
    assert [] + Meanings(ps) == Meanings(ps);
  }

  // ---------- a quoted word in any context ----------

  /** Tokens already delimited never influence how the rest is read. */
  lemma {:induction false} FeedFrame(r: Reader, before: seq<Token>, s: string)
    ensures FeedAll(r.(tokens := before + r.tokens), s)
         == FeedAll(r, s).(tokens := before + FeedAll(r, s).tokens)
    decreases |s|
  {
    if s == [] {
    } else {
      var framed := r.(tokens := before + r.tokens);
      assert Feed(framed, s[0]) == Feed(r, s[0]).(tokens := before + Feed(r, s[0]).tokens) by {
        FeedOneFrame(r, before, s[0]);
      }
      FeedFrame(Feed(r, s[0]), before, s[1..]);
    }
  }

  lemma FeedOneFrame(r: Reader, before: seq<Token>, c: char)
    ensures Feed(r.(tokens := before + r.tokens), c)
         == Feed(r, c).(tokens := before + Feed(r, c).tokens)
  {
    var framed := r.(tokens := before + r.tokens);
    DelimitFrame(r, before);
    assert OpenWord(framed) == OpenWord(r).(tokens := before + OpenWord(r).tokens);
  }

  lemma DelimitFrame(r: Reader, before: seq<Token>)
    ensures Delimit(r.(tokens := before + r.tokens)) == Delimit(r).(tokens := before + Delimit(r).tokens)
  {
    match r.partial
    case Nothing =>
    case InWord(w) => assert before + r.tokens + [Word(w)] == before + (r.tokens + [Word(w)]);
    case InOperator(o) => assert before + r.tokens + [Operator(o)] == before + (r.tokens + [Operator(o)]);
  }

  /** Text before which a token may start: reading it leaves no word or quote open. */
  ghost predicate EndsBetweenTokens(before: string) {
    var r := FeedAll(START, before);
    r.mode == Plain && !r.partial.InWord?
  }

  /** Text at which a word ends. */
  predicate StartsWithDelimiter(after: string) {
    after == "" || Blank(after[0]) || StartsOperator(after[0])
  }

  lemma DelimiterEndsWord(before: seq<Token>, s: string, c: char)
    requires Blank(c) || StartsOperator(c)
    ensures Feed(START, c).tokens == []
    ensures Feed(Reader(before, InWord(s), Plain), c) == Feed(START, c).(tokens := before + [Word(s)])
  {
  }

  /**
   Wherever a word may start and end, the quoted string is one word equal to the string, and it changes
   nothing about how the text on either side is read.
   */
  lemma QuotedWordInContext(before: string, s: string, after: string)
    requires '\0' !in before && '\0' !in s && '\0' !in after
    requires EndsBetweenTokens(before) && StartsWithDelimiter(after)
    ensures Lex(before).Some?
    ensures Lex(before + ShellQuote(s) + after)
         == if Lex(after).None? then None else Some(Lex(before).value + [Word(s)] + Lex(after).value)
  {
    QuoteKeepsNul(s);
    var r := FeedAll(START, before);
    FeedAllConcat(START, before + ShellQuote(s), after);
    FeedAllConcat(START, before, ShellQuote(s));
    FeedQuoted(r, s);
    var word := Append(r, s);
    assert "" + s == s;
    assert word == Delimit(r).(partial := InWord(s));
    var done := Delimit(r).tokens + [Word(s)];
    if after == "" {
      assert Lex(after) == Some([]);
      assert done + [] == done;
    } else {
      assert word == Reader(Delimit(r).tokens, InWord(s), Plain);
      WordThenRest(Delimit(r).tokens, s, after);
    }
  }

  /** Reading on after a word, where the text starts with something that ends it. */
  lemma WordThenRest(before: seq<Token>, s: string, after: string)
    requires after != "" && StartsWithDelimiter(after)
    ensures var end, alone := FeedAll(Reader(before, InWord(s), Plain), after), FeedAll(START, after);
      end.mode == alone.mode && Delimit(end).tokens == before + [Word(s)] + Delimit(alone).tokens
  {
    var next, done := Feed(START, after[0]), before + [Word(s)];
    DelimiterEndsWord(before, s, after[0]);
    assert done + next.tokens == done;
    FeedFrame(next, done, after[1..]);
    DelimitFrame(FeedAll(START, after), done);
  }

  /** Quoting round-trips through the shell for exactly the strings CopyTo and CopyFrom let through. */
  lemma QuoteRoundTrip(s: string)
    ensures Lex(ShellQuote(s)) == Some([Word(s)]) <==> '\0' !in s
  {
    if '\0' !in s {
      assert "" + ShellQuote(s) + "" == ShellQuote(s);
      QuotedWordInContext("", s, "");
      assert Lex("") == Some([]);
      assert [] + [Word(s)] + [] == [Word(s)];
    } else {
      NulLeavesQuoteOpen(s);
    }
  }

  lemma {:induction false} BeforeNulConcat(a: string, b: string)
    requires '\0' !in a
    ensures BeforeNul(a + b) == a + BeforeNul(b)
  {
    if a == [] {
      assert a + b == b;
    } else {
      assert (a + b)[1..] == a[1..] + b;
      BeforeNulConcat(a[1..], b);
    }
  }

  lemma {:induction false} ReplaceAllConcat(a: string, b: string, what: char, with: string)
    ensures ReplaceAll(a + b, what, with) == ReplaceAll(a, what, with) + ReplaceAll(b, what, with)
  {
    if a == [] {
      assert a + b == b;
    } else {
      assert (a + b)[1..] == a[1..] + b;
      ReplaceAllConcat(a[1..], b, what, with);
    }
  }

  lemma FeedOpenedQuote(head: string)
    ensures FeedAll(START, "'" + ReplaceAll(head, '\'', "'\\''")).mode == SingleQuotes
  {
    var quote := "'";
    var inside := Reader([], InWord(""), SingleQuotes);
    assert FeedAll(START, quote) == inside by { assert quote[1..] == []; }
    FeedAllConcat(START, quote, ReplaceAll(head, '\'', "'\\''"));
    FeedQuotedBody(inside, head);
  }

  lemma NulLeavesQuoteOpen(s: string)
    requires '\0' in s
    ensures Lex(ShellQuote(s)) == None
  {
    var head := BeforeNul(s);
    var rest := s[|head|..];
    var body := ReplaceAll(head, '\'', "'\\''");
    var tail := ReplaceAll(rest, '\'', "'\\''") + "'";
    assert BeforeNul(ShellQuote(s)) == "'" + body by {
      ReplaceAllConcat(head, rest, '\'', "'\\''");
      assert s == head + rest;
      assert ShellQuote(s) == ("'" + body) + tail;
      QuoteKeepsNul(head);
      assert tail[0] == '\0';
      BeforeNulConcat("'" + body, tail);
      assert BeforeNul(tail) == [];
      assert "'" + body + [] == "'" + body;
    }
    FeedOpenedQuote(head);
  }
}
