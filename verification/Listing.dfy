/**
 ParseDirectoryListing and parseLsLine (proxmox/files.go) against a printer of
 `ls -la --time-style=long-iso`.
 */
module Listing {
  import opened Prelude

  // ---------- the string functions of Go the parser uses ----------

  /** unicode.IsSpace */
  predicate IsSpace(c: char) {
    c == '\t' || c == '\n' || c == '\U{0B}' || c == '\U{0C}' || c == '\r' || c == ' '
    || c == '\U{85}' || c == '\U{A0}' || c == '\U{1680}' || '\U{2000}' <= c <= '\U{200A}'
    || c == '\U{2028}' || c == '\U{2029}' || c == '\U{202F}' || c == '\U{205F}' || c == '\U{3000}'
  }

  /** What the index scan of parseLsLine takes for a separator. */
  predicate IsBlank(c: char) { c == ' ' || c == '\t' }

  function TrimLeft(s: string): string {
    if s != "" && IsSpace(s[0]) then TrimLeft(s[1..]) else s
  }

  function TrimRight(s: string): string {
    if s != "" && IsSpace(s[|s| - 1]) then TrimRight(s[..|s| - 1]) else s
  }

  function TrimSpace(s: string): string { TrimRight(TrimLeft(s)) }

  /** The length of the longest prefix without white space. */
  function WordLength(s: string): (n: nat)
    ensures n <= |s| && (forall i :: 0 <= i < n ==> !IsSpace(s[i])) && (n < |s| ==> IsSpace(s[n]))
  {
    if s == "" || IsSpace(s[0]) then 0 else 1 + WordLength(s[1..])
  }

  /** strings.Fields */
  function Fields(s: string): (fields: seq<string>)
    ensures forall i :: 0 <= i < |fields| ==> fields[i] != ""
    decreases |s|
  {
    if s == "" then []
    else if IsSpace(s[0]) then Fields(s[1..])
    else [s[..WordLength(s)]] + Fields(s[WordLength(s)..])
  }

  /** The position of the first occurrence of a pattern, or None. */
  function IndexOf(s: string, pattern: string): (at: Option<nat>)
    ensures at.Some? ==> at.value <= |s| && pattern <= s[at.value..]
    ensures forall i :: 0 <= i <= |s| && (at.None? || i < at.value) ==> !(pattern <= s[i..])
  {
    if pattern <= s then Some(0)
    else if s == "" then None
    else
      var rest := IndexOf(s[1..], pattern);
      assert forall i :: 0 < i <= |s| ==> s[i..] == s[1..][i - 1..];
      if rest.None? then None else Some(rest.value + 1)
  }

  /** strings.Split at newlines. */
  function SplitLines(s: string): (lines: seq<string>)
    ensures |lines| > 0
  {
    if s == "" then [""]
    else
      var rest := SplitLines(s[1..]);
      if s[0] == '\n' then [""] + rest else [[s[0]] + rest[0]] + rest[1..]
  }

  function DigitRun(s: string): (run: string)
    ensures forall i :: 0 <= i < |run| ==> IsDigit(run[i])
  {
    if s != "" && IsDigit(s[0]) then [s[0]] + DigitRun(s[1..]) else ""
  }

  const INT64_LIMIT: int := 0x8000_0000_0000_0000

  /** The number some digits stand for, or 0 if there are none or an int64 cannot hold it. */
  function Int64Of(digits: string, negative: bool): int
    requires forall i :: 0 <= i < |digits| ==> IsDigit(digits[i])
  {
    var v := if negative then -DigitValue(digits) else DigitValue(digits);
    if digits == "" || v < -INT64_LIMIT || v >= INT64_LIMIT then 0 else v
  }

  /** fmt.Sscanf with %d into an int64 that starts as 0. */
  function ScanDecimal(s: string): int {
    if s != "" && (s[0] == '-' || s[0] == '+') then Int64Of(DigitRun(s[1..]), s[0] == '-')
    else Int64Of(DigitRun(s), false)
  }

  // ---------- the parser ----------

  datatype FileEntry = FileEntry(
    name: string, kind: string, permissions: string, owner: string, group: string,
    size: int, modified: string, linkTarget: string)

  /** How many blank-separated fields end before position n. */
  function FieldEnds(line: string, n: nat): nat
    requires n <= |line|
  {
    if n == 0 then 0
    else FieldEnds(line, n - 1)
         + (if n >= 2 && IsBlank(line[n - 1]) && !IsBlank(line[n - 2]) then 1 else 0)
  }

  /** The position just after the blank that ends the seventh field, or 0 when seven fields never end. */
  function NameStart(line: string): (n: nat)
    ensures n <= |line|
    ensures n == 0 <==> FieldEnds(line, |line|) < 7
    ensures n > 0 ==> FieldEnds(line, n) == 7 && FieldEnds(line, n - 1) == 6
  {
    FirstReach(line, |line|, 7)
  }

  function FirstReach(line: string, n: nat, k: nat): (m: nat)
    requires n <= |line| && k > 0
    ensures m <= n
    ensures m == 0 <==> FieldEnds(line, n) < k
    ensures m > 0 ==> FieldEnds(line, m) == k && FieldEnds(line, m - 1) == k - 1
  {
    if n == 0 || FieldEnds(line, n) < k then 0
    else if FieldEnds(line, n - 1) < k then n
    else FirstReach(line, n - 1, k)
  }

  lemma {:induction false} FieldEndsMonotone(line: string, m: nat, n: nat)
    requires m <= n <= |line|
    ensures FieldEnds(line, m) <= FieldEnds(line, n)
  {
    if m >= n {
    } else {
      FieldEndsMonotone(line, m, n - 1);
    }
  }

  /** The position NameStart finds is the only one. */
  lemma NameStartUnique(line: string, n: nat)
    requires 0 < n <= |line| && FieldEnds(line, n) == 7 && FieldEnds(line, n - 1) == 6
    ensures NameStart(line) == n
  {
    var m := NameStart(line);
    FieldEndsMonotone(line, n, |line|);
    if m < n { FieldEndsMonotone(line, m, n - 1); }
    if n < m { FieldEndsMonotone(line, n, m - 1); }
  }

  function Kind(perms: string): string
    requires perms != ""
  {
    if perms[0] == 'd' then "directory"
    else if perms[0] == 'l' then "symlink"
    else if perms[0] == '-' then "file"
    else "other"
  }

  const ARROW := " -> "

  /** The entry of one line, or None. */
  function LineEntry(line: string): (entry: Option<FileEntry>)
    ensures |Fields(line)| < 8 ==> entry.None?
  {
    var fields := Fields(line);
    var start := NameStart(line);
    if |fields| < 8 || start == 0 || start >= |line| then None
    else
      var name := TrimSpace(line[start..]);
      var at := IndexOf(name, ARROW);
      var linked := fields[0][0] == 'l' && at.Some?;
      Some(FileEntry(
        if linked then name[..at.value] else name, Kind(fields[0]), fields[0], fields[2], fields[3],
        ScanDecimal(fields[4]), fields[5] + " " + fields[6],
        if linked then name[at.value + 4..] else ""))
  }

  function LineEntries(line: string): seq<FileEntry> {
    var trimmed := TrimSpace(line);
    if trimmed == "" || "total " <= trimmed then [] else
    var entry := LineEntry(trimmed);
    if entry.Some? && entry.value.name != "." && entry.value.name != ".." then [entry.value] else []
  }

  function Entries(lines: seq<string>): seq<FileEntry> {
    if lines == [] then []
    else Entries(lines[..|lines| - 1]) + LineEntries(lines[|lines| - 1])
  }

  method ParseLsLine(line: string) returns (entry: Option<FileEntry>)
    ensures entry == LineEntry(line)
  {
    var fields := Fields(line);
    if |fields| < 8 { return None; }
    var perms := fields[0];

    var nameStart := 0;
    var fieldCount := 0;
    var i := 0;
    while i < |line|
      invariant i <= |line|
      invariant nameStart == 0 && fieldCount == FieldEnds(line, i) < 7
    {
      if IsBlank(line[i]) {
        if i > 0 && line[i - 1] != ' ' && line[i - 1] != '\t' {
          fieldCount := fieldCount + 1;
        }
        if fieldCount >= 7 {
          nameStart := i + 1;
          NameStartUnique(line, i + 1);
          break;
        }
      }
      i := i + 1;
    }
    if nameStart == 0 || nameStart >= |line| { return None; }

    var name := TrimSpace(line[nameStart..]);
    var fileType, linkTarget := "file", "";
    if perms[0] == 'd' {
      fileType := "directory";
    } else if perms[0] == 'l' {
      fileType := "symlink";
      var at := IndexOf(name, ARROW);
      if at.Some? {
        linkTarget := name[at.value + 4..];
        name := name[..at.value];
      }
    } else if perms[0] == '-' {
      fileType := "file";
    } else {
      fileType := "other";
    }
    return Some(FileEntry(name, fileType, perms, fields[2], fields[3],
                          ScanDecimal(fields[4]), fields[5] + " " + fields[6], linkTarget));
  }

  method ParseDirectoryListing(output: string) returns (entries: seq<FileEntry>)
    ensures entries == Entries(SplitLines(TrimSpace(output)))
  {
    var lines := SplitLines(TrimSpace(output));
    entries := [];
    for i := 0 to |lines|
      invariant entries == Entries(lines[..i])
    {
      assert lines[..i + 1][..i] == lines[..i];
      var line := TrimSpace(lines[i]);
      if line == "" || "total " <= line { continue; }
      var entry := ParseLsLine(line);
      if entry.Some? && entry.value.name != "." && entry.value.name != ".." {
        entries := entries + [entry.value];
      }
    }
    assert lines[..|lines|] == lines;
  }

  // ---------- the printer ----------

  function Columns(fields: seq<string>, gaps: seq<string>): string
    requires |fields| == |gaps|
  {
    if fields == [] then "" else fields[0] + gaps[0] + Columns(fields[1..], gaps[1..])
  }

  /** What `ls` shows as the first letter of the permissions; Special has any of the others. */
  datatype FileType = Directory | Symlink | Regular | Special(letter: char)

  function Letter(t: FileType): char {
    match t case Directory => 'd' case Symlink => 'l' case Regular => '-' case Special(letter) => letter
  }

  function TypeName(t: FileType): string {
    match t case Directory => "directory" case Symlink => "symlink" case Regular => "file" case Special(_) => "other"
  }

  /** One line of a listing; the gaps are what follows each of the seven columns. Links also have a target. */
  datatype Row = Row(
    fileType: FileType, mode: string, links: string, owner: string, group: string, size: nat, date: string,
    time: string, name: string, target: string, gaps: seq<string>)

  function Perms(r: Row): string { [Letter(r.fileType)] + r.mode }

  predicate IsLink(r: Row) { r.fileType == Symlink }

  function Shown(r: Row): string {
    if IsLink(r) then r.name + ARROW + r.target else r.name
  }

  ghost predicate IsWord(s: string) { s != "" && forall i :: 0 <= i < |s| ==> !IsSpace(s[i]) }

  ghost predicate IsGap(s: string) { s != "" && forall i :: 0 <= i < |s| ==> IsBlank(s[i]) }

  /** A text without white space at either end and without a newline. */
  ghost predicate IsEdged(s: string) {
    s != "" && !IsSpace(s[0]) && !IsSpace(s[|s| - 1]) && '\n' !in s
  }

  ghost predicate GoodColumns(fields: seq<string>, gaps: seq<string>) {
    && |fields| == |gaps|
    && (forall i :: 0 <= i < |fields| ==> IsWord(fields[i]))
    && (forall i :: 0 <= i < |gaps| ==> IsGap(gaps[i]))
  }

  function RowFields(r: Row): seq<string> {
    [Perms(r), r.links, r.owner, r.group, Decimal(r.size), r.date, r.time]
  }

  ghost predicate GoodRow(r: Row) {
    && GoodColumns(RowFields(r), r.gaps)
    && (r.fileType.Special? ==> r.fileType.letter !in ['d', 'l', '-'])
    && Perms(r) != "total" && r.size < INT64_LIMIT
    && IsEdged(r.name)
    && (IsLink(r) ==> r.target != "" && !IsSpace(r.target[|r.target| - 1]) && '\n' !in r.target)
  }

  function RowText(r: Row): string
    requires |r.gaps| == 7
  {
    Columns(RowFields(r), r.gaps) + Shown(r)
  }

  function EntryOf(r: Row): FileEntry {
    FileEntry(r.name, TypeName(r.fileType), Perms(r), r.owner, r.group, r.size, r.date + " " + r.time,
              if IsLink(r) then r.target else "")
  }

  function RowLines(rows: seq<Row>): string
    requires forall i :: 0 <= i < |rows| ==> |rows[i].gaps| == 7
  {
    if rows == [] then "" else RowLines(rows[..|rows| - 1]) + "\n" + RowText(rows[|rows| - 1])
  }

  /** The output of `ls`: a total, then one line per row, each ended by a newline. */
  function Print(total: string, rows: seq<Row>): string
    requires forall i :: 0 <= i < |rows| ==> |rows[i].gaps| == 7
  {
    "total " + total + RowLines(rows) + "\n"
  }

  function RowEntries(rows: seq<Row>): seq<FileEntry> {
    if rows == [] then [] else
    var last := rows[|rows| - 1];
    RowEntries(rows[..|rows| - 1]) + (if last.name == "." || last.name == ".." then [] else [EntryOf(last)])
  }

  // ---------- lemmas about white space ----------

  lemma TrimEdged(s: string)
    requires s != "" && !IsSpace(s[0]) && !IsSpace(s[|s| - 1])
    ensures TrimSpace(s) == s
  {
  }

  lemma {:induction false} TrimLeftGap(gap: string, s: string)
    requires forall i :: 0 <= i < |gap| ==> IsSpace(gap[i])
    requires s == "" || !IsSpace(s[0])
    ensures TrimLeft(gap + s) == s
  {
    if gap == "" {
      assert gap + s == s;
    } else {
      assert (gap + s)[1..] == gap[1..] + s;
      TrimLeftGap(gap[1..], s);
    }
  }

  lemma {:induction false} FieldsSkipGap(gap: string, s: string)
    requires forall i :: 0 <= i < |gap| ==> IsSpace(gap[i])
    ensures Fields(gap + s) == Fields(s)
    decreases |gap|
  {
    if gap == "" {
      assert gap + s == s;
    } else {
      assert (gap + s)[1..] == gap[1..] + s;
      FieldsSkipGap(gap[1..], s);
    }
  }

  lemma {:induction false} WordLengthIs(s: string, n: nat)
    requires n <= |s| && (forall i :: 0 <= i < n ==> !IsSpace(s[i])) && (n < |s| ==> IsSpace(s[n]))
    ensures WordLength(s) == n
  {
    if n == 0 {
    } else {
      WordLengthIs(s[1..], n - 1);
    }
  }

  lemma FieldsStep(f: string, g: string, x: string)
    requires IsWord(f) && IsGap(g)
    ensures Fields(f + (g + x)) == [f] + Fields(x)
  {
    var s := f + (g + x);
    assert s[|f|] == g[0];
    assert forall i :: 0 <= i < |f| ==> s[i] == f[i];
    WordLengthIs(s, |f|);
    assert s[..|f|] == f && s[|f|..] == g + x;
    FieldsSkipGap(g, x);
  }

  /** strings.Fields takes the columns apart again. */
  lemma HeadInFront(s: seq<string>, t: seq<string>)
    requires s != []
    ensures [s[0]] + (s[1..] + t) == s + t
  {
  }

  lemma FirstColumn(fields: seq<string>, gaps: seq<string>, rest: string)
    requires GoodColumns(fields, gaps) && fields != []
    ensures Columns(fields, gaps) + rest == fields[0] + (gaps[0] + (Columns(fields[1..], gaps[1..]) + rest))
  {
  }

  lemma {:induction false} FieldsOfColumns(fields: seq<string>, gaps: seq<string>, rest: string)
    requires GoodColumns(fields, gaps)
    ensures Fields(Columns(fields, gaps) + rest) == fields + Fields(rest)
    decreases |fields|
  {
    if fields == [] {
      assert "" + rest == rest;
    } else {
      var f, g, x := fields[0], gaps[0], Columns(fields[1..], gaps[1..]) + rest;
      FirstColumn(fields, gaps, rest);
      assert IsWord(f) && IsGap(g);
      FieldsStep(f, g, x);
      FieldsOfColumns(fields[1..], gaps[1..], rest);
      HeadInFront(fields, Fields(rest));
    }
  }

  // ---------- lemmas about the index scan ----------

  lemma {:induction false} FieldEndsFirst(f: string, g: string, x: string, n: nat)
    requires IsWord(f) && IsGap(g) && n <= |f| + |g|
    ensures FieldEnds(f + g + x, n) == if n <= |f| then 0 else 1
  {
    if n == 0 {
    } else {
      FieldEndsFirst(f, g, x, n - 1);
      var s := f + g + x;
      assert n - 1 < |f| ==> s[n - 1] == f[n - 1];
      assert n - 1 >= |f| ==> s[n - 1] == g[n - 1 - |f|];
      assert n >= 2 && n - 2 < |f| ==> s[n - 2] == f[n - 2];
      assert n >= 2 && n - 2 >= |f| ==> s[n - 2] == g[n - 2 - |f|];
    }
  }

  /** One field and its gap in front raise the count by one from there on. */
  lemma {:induction false} FieldEndsShift(f: string, g: string, x: string, m: nat)
    requires IsWord(f) && IsGap(g) && m <= |x| && x != "" && !IsBlank(x[0])
    ensures FieldEnds(f + g + x, |f| + |g| + m) == 1 + FieldEnds(x, m)
  {
    if m == 0 {
      FieldEndsFirst(f, g, x, |f| + |g|);
    } else {
      FieldEndsShift(f, g, x, m - 1);
      var s, at := f + g + x, |f| + |g| + m;
      assert s[at - 1] == x[m - 1];
      assert m >= 2 ==> s[at - 2] == x[m - 2];
    }
  }

  /** The scan stops just after the first blank of the last gap. */
  lemma {:induction false} FieldEndsOfColumns(fields: seq<string>, gaps: seq<string>, rest: string)
    requires GoodColumns(fields, gaps) && |fields| > 0 && rest != "" && !IsSpace(rest[0])
    ensures var stop := |Columns(fields, gaps)| - |gaps[|gaps| - 1]| + 1;
      && 0 < stop <= |Columns(fields, gaps)|
      && FieldEnds(Columns(fields, gaps) + rest, stop) == |fields|
      && FieldEnds(Columns(fields, gaps) + rest, stop - 1) == |fields| - 1
    decreases |fields|
  {
    var f, g, x := fields[0], gaps[0], Columns(fields[1..], gaps[1..]) + rest;
    assert Columns(fields, gaps) + rest == f + g + x;
    assert IsWord(f) && IsGap(g);
    if |fields| == 1 {
      assert Columns(fields[1..], gaps[1..]) == "";
      FieldEndsFirst(f, g, x, |f| + 1);
      FieldEndsFirst(f, g, x, |f|);
    } else {
      assert IsWord(fields[1]);
      assert x[0] == fields[1][0];
      FieldEndsOfColumns(fields[1..], gaps[1..], rest);
      var last := gaps[|gaps| - 1];
      assert gaps[1..][|gaps[1..]| - 1] == last;
      var stop := |Columns(fields[1..], gaps[1..])| - |last| + 1;
      FieldEndsShift(f, g, x, stop);
      FieldEndsShift(f, g, x, stop - 1);
    }
  }

  lemma {:induction false} ColumnsEnd(fields: seq<string>, gaps: seq<string>)
    requires |fields| == |gaps| && |fields| > 0
    ensures |gaps[|gaps| - 1]| <= |Columns(fields, gaps)|
    ensures Columns(fields, gaps)[|Columns(fields, gaps)| - |gaps[|gaps| - 1]|..] == gaps[|gaps| - 1]
    decreases |fields|
  {
    if |fields| > 1 {
      ColumnsEnd(fields[1..], gaps[1..]);
    } else {
      assert Columns(fields[1..], gaps[1..]) == "";
    }
  }

  /** A line of seven columns and a tail: both ways of finding the seventh field agree, and the name is the tail. */
  lemma LineOfColumns(fields: seq<string>, gaps: seq<string>, tail: string)
    requires GoodColumns(fields, gaps) && |fields| == 7 && IsEdged(tail)
    ensures var line := Columns(fields, gaps) + tail;
      && |Fields(line)| >= 8 && Fields(line)[..7] == fields
      && 0 < NameStart(line) < |line|
      && TrimSpace(line[NameStart(line)..]) == tail
  {
    var columns := Columns(fields, gaps);
    var line := columns + tail;
    FieldsOfColumns(fields, gaps, tail);
    assert Fields(tail) != [];
    FieldEndsOfColumns(fields, gaps, tail);
    ColumnsEnd(fields, gaps);
    var gap := gaps[6];
    assert IsGap(gap);
    var stop := |columns| - |gap| + 1;
    NameStartUnique(line, stop);
    assert line[stop..] == gap[1..] + tail;
    TrimLeftGap(gap[1..], tail);
    TrimEdged(tail);
  }

  // ---------- numbers ----------

  lemma ScanDecimalOfDecimal(n: nat, rest: string)
    requires n < INT64_LIMIT && (rest == "" || !IsDigit(rest[0]))
    ensures ScanDecimal(Decimal(n) + rest) == n
  {
    ScannedNumber("", n, rest);
    assert "" + Decimal(n) + rest == Decimal(n) + rest;
  }

  lemma DigitsScanned(sign: string, digits: string, rest: string)
    requires sign == "" || sign == "+" || sign == "-"
    requires digits != "" && (forall i :: 0 <= i < |digits| ==> IsDigit(digits[i]))
    requires rest == "" || !IsDigit(rest[0])
    ensures ScanDecimal(sign + digits + rest) == Int64Of(digits, sign == "-")
  {
    var t := digits + rest;
    DigitRunStops(digits, rest);
    assert sign + digits + rest == sign + t && t[0] == digits[0];
    if sign == "" {
      assert sign + t == t;
    } else {
      assert (sign + t)[0] == sign[0] && (sign + t)[1..] == t;
    }
  }

  /** A printed number is read with its sign, up to what follows its digits, or as 0 if an int64 cannot hold it. */
  lemma ScannedNumber(sign: string, n: nat, rest: string)
    requires sign == "" || sign == "+" || sign == "-"
    requires rest == "" || !IsDigit(rest[0])
    ensures var v := if sign == "-" then -(n as int) else n as int;
      ScanDecimal(sign + Decimal(n) + rest) == if -9223372036854775808 <= v <= 9223372036854775807 then v else 0
  {
    DigitValueDecimal(n);
    DigitsScanned(sign, Decimal(n), rest);
  }

  /** A text without a number is read as 0. */
  lemma NoNumber(sign: string, rest: string)
    requires sign == "" || sign == "+" || sign == "-"
    requires rest == "" || (!IsDigit(rest[0]) && (sign == "" ==> rest[0] != '+' && rest[0] != '-'))
    ensures ScanDecimal(sign + rest) == 0
  {
    if sign != "" {
      assert (sign + rest)[1..] == rest;
    } else {
      assert sign + rest == rest;
    }
  }

  lemma {:induction false} DigitRunStops(s: string, rest: string)
    requires forall i :: 0 <= i < |s| ==> IsDigit(s[i])
    requires rest == "" || !IsDigit(rest[0])
    ensures DigitRun(s + rest) == s
  {
    if s == "" {
      assert s + rest == rest;
    } else {
      assert (s + rest)[1..] == s[1..] + rest;
      DigitRunStops(s[1..], rest);
    }
  }

  // ---------- symbolic links ----------

  lemma ArrowAt(s: string, i: nat)
    requires i <= |s|
    ensures ARROW <= s[i..] <==> i + 4 <= |s| && s[i] == ' ' && s[i + 1] == '-' && s[i + 2] == '>' && s[i + 3] == ' '
  {
    if i + 4 <= |s| {
      assert s[i..][0] == s[i] && s[i..][1] == s[i + 1] && s[i..][2] == s[i + 2] && s[i..][3] == s[i + 3];
    }
  }

  /** Before the separator itself, an arrow can only be one that lies in the name and the blank after it. */
  lemma ArrowBeforeSeparator(name: string, target: string, i: nat)
    requires i < |name|
    ensures ARROW <= (name + ARROW + target)[i..] <==> ARROW <= (name + " ")[i..]
  {
    var s, short := name + ARROW + target, name + " ";
    ArrowAt(s, i);
    ArrowAt(short, i);
    assert forall k :: 0 <= k < |short| ==> s[k] == short[k];
    assert s[|name|] == ' ' && s[|name| + 1] == '-';
  }

  lemma ArrowAfterName(name: string, target: string)
    requires IndexOf(name + " ", ARROW).None?
    ensures IndexOf(name + ARROW + target, ARROW) == Some(|name|)
  {
    var s := name + ARROW + target;
    forall k | 0 <= k < |name| ensures !(ARROW <= s[k..]) {
      ArrowBeforeSeparator(name, target, k);
    }
    assert s[|name|..] == ARROW + target;
    FoundFirst(s, ARROW, |name|);
  }

  lemma FoundFirst(s: string, pattern: string, i: nat)
    requires i <= |s| && pattern <= s[i..] && forall k :: 0 <= k < i ==> !(pattern <= s[k..])
    ensures IndexOf(s, pattern) == Some(i)
  {
  }

  lemma ArrowInName(name: string, target: string)
    requires IndexOf(name + " ", ARROW).Some?
    ensures var at := IndexOf(name + ARROW + target, ARROW); at.Some? && at.value < |name|
  {
    var i := IndexOf(name + " ", ARROW).value;
    ArrowAt(name + " ", i);
    ArrowBeforeSeparator(name, target, i);
  }

  /** Whether the first arrow of a printed link is its separator. */
  lemma FirstArrow(name: string, target: string)
    ensures IndexOf(name + " ", ARROW).None? ==> IndexOf(name + ARROW + target, ARROW) == Some(|name|)
    ensures IndexOf(name + " ", ARROW).Some? ==>
      var at := IndexOf(name + ARROW + target, ARROW); at.Some? && at.value < |name|
  {
    if IndexOf(name + " ", ARROW).None? {
      ArrowAfterName(name, target);
    } else {
      ArrowInName(name, target);
    }
  }

  lemma ShownIsEdged(r: Row)
    requires GoodRow(r)
    ensures IsEdged(Shown(r))
  {
    var s := Shown(r);
    if IsLink(r) {
      assert s[|s| - 1] == r.target[|r.target| - 1];
      assert s[0] == r.name[0];
    }
  }

  /**
   Parsing one printed line gives its entry back, except for a link whose name has the arrow in it
   (or ends in " ->", which the separator completes to one).
   */
  lemma RowRoundTrip(r: Row)
    requires GoodRow(r)
    ensures LineEntry(RowText(r)) == Some(EntryOf(r)) <==> (IsLink(r) ==> IndexOf(r.name + " ", ARROW).None?)
  {
    RowParts(r);
    TypeOfPerms(r);
    if IsLink(r) {
      FirstArrow(r.name, r.target);
      LinkSplits(r.name, r.target);
    }
  }

  lemma TypeOfPerms(r: Row)
    requires r.fileType.Special? ==> r.fileType.letter !in ['d', 'l', '-']
    ensures Kind(Perms(r)) == TypeName(r.fileType)
    ensures Perms(r)[0] == 'l' <==> IsLink(r)
  {
  }

  /** The parts of a printed line that the parser looks at. */
  lemma RowParts(r: Row)
    requires GoodRow(r)
    ensures var line := RowText(r);
      var fields := Fields(line);
      && |fields| >= 8 && fields[0] == Perms(r) && fields[2] == r.owner && fields[3] == r.group
      && fields[5] == r.date && fields[6] == r.time && ScanDecimal(fields[4]) == r.size
      && 0 < NameStart(line) < |line| && TrimSpace(line[NameStart(line)..]) == Shown(r)
  {
    ShownIsEdged(r);
    LineOfColumns(RowFields(r), r.gaps, Shown(r));
    var fields := Fields(RowText(r));
    forall i | 0 <= i < 7 ensures fields[i] == RowFields(r)[i] {
      assert fields[i] == fields[..7][i];
    }
    ScanDecimalOfDecimal(r.size, "");
    assert Decimal(r.size) + "" == Decimal(r.size);
  }

  lemma LinkSplits(name: string, target: string)
    ensures var s := name + ARROW + target; s[..|name|] == name && s[|name| + 4..] == target
  {
  }

  // ---------- device files ----------

  /** `ls -l` shows a block or character device with its major and minor numbers in place of a size. */
  function DeviceText(r: Row, major: nat, minor: nat): string
    requires |r.gaps| == 7
  {
    Columns(DeviceFields(r, major, minor), r.gaps) + r.time + " " + r.name
  }

  function DeviceFields(r: Row, major: nat, minor: nat): seq<string> {
    [Perms(r), r.links, r.owner, r.group, Decimal(major) + ",", Decimal(minor), r.date]
  }

  /**
   Every device line is misread: the time becomes part of the name, the minor number takes the place of the
   date, and the major number is reported as the size.
   */
  lemma DeviceMisread(r: Row, major: nat, minor: nat)
    requires GoodRow(r) && !IsLink(r) && major < INT64_LIMIT
    ensures LineEntry(DeviceText(r, major, minor)) == Some(FileEntry(
      r.time + " " + r.name, TypeName(r.fileType), Perms(r), r.owner, r.group,
      major, Decimal(minor) + " " + r.date, ""))
    ensures LineEntry(DeviceText(r, major, minor)).value.name != r.name
  {
    TypeOfPerms(r);
    DeviceParts(r, major, minor);
  }

  lemma TextOfDevice(r: Row, major: nat, minor: nat)
    requires |r.gaps| == 7
    ensures DeviceText(r, major, minor) == Columns(DeviceFields(r, major, minor), r.gaps) + (r.time + " " + r.name)
  {
  }

  /** The parts of a device line that the parser looks at. */
  lemma DeviceParts(r: Row, major: nat, minor: nat)
    requires GoodRow(r) && major < INT64_LIMIT
    ensures var line := DeviceText(r, major, minor);
      var fields := Fields(line);
      && |fields| >= 8 && fields[0] == Perms(r) && fields[2] == r.owner && fields[3] == r.group
      && fields[5] == Decimal(minor) && fields[6] == r.date && ScanDecimal(fields[4]) == major
      && 0 < NameStart(line) < |line| && TrimSpace(line[NameStart(line)..]) == r.time + " " + r.name
  {
    DeviceColumns(r, major, minor);
    TextOfDevice(r, major, minor);
    LineOfColumns(DeviceFields(r, major, minor), r.gaps, r.time + " " + r.name);
    var fields := Fields(DeviceText(r, major, minor));
    forall i | 0 <= i < 7 ensures fields[i] == DeviceFields(r, major, minor)[i] {
      assert fields[i] == fields[..7][i];
    }
    ScanDecimalOfDecimal(major, ",");
  }

  lemma DeviceColumns(r: Row, major: nat, minor: nat)
    requires GoodRow(r)
    ensures GoodColumns(DeviceFields(r, major, minor), r.gaps)
    ensures IsEdged(r.time + " " + r.name)
  {
    var rf, tail := RowFields(r), r.time + " " + r.name;
    assert IsWord(rf[0]) && IsWord(rf[1]) && IsWord(rf[2]) && IsWord(rf[3]) && IsWord(rf[5]) && IsWord(rf[6]);
    DigitValueDecimal(major);
    DigitValueDecimal(minor);
    assert tail[|tail| - 1] == r.name[|r.name| - 1];
    assert tail[0] == r.time[0];
  }

  // ---------- whole listings ----------

  /** SplitLines of a first character and the rest, from the lines of the rest. */
  function WithFirst(c: char, lines: seq<string>): seq<string>
    requires |lines| > 0
  {
    if c == '\n' then [""] + lines else [[c] + lines[0]] + lines[1..]
  }

  lemma SplitLinesFirst(c: char, rest: string)
    ensures SplitLines([c] + rest) == WithFirst(c, SplitLines(rest))
  {
    assert ([c] + rest)[1..] == rest;
  }

  lemma WithFirstAppend(c: char, lines: seq<string>, more: seq<string>)
    requires |lines| > 0
    ensures WithFirst(c, lines + more) == WithFirst(c, lines) + more
  {
    assert (lines + more)[0] == lines[0];
    assert (lines + more)[1..] == lines[1..] + more;
  }

  lemma {:induction false} SplitLinesConcat(a: string, b: string)
    ensures SplitLines(a + "\n" + b) == SplitLines(a) + SplitLines(b)
  {
    var s := a + "\n" + b;
    if a == "" {
      assert s[1..] == b;
    } else {
      assert s[1..] == a[1..] + "\n" + b;
      SplitLinesConcat(a[1..], b);
      WithFirstAppend(a[0], SplitLines(a[1..]), SplitLines(b));
      SplitLinesFirst(a[0], a[1..]);
      assert [a[0]] + a[1..] == a;
      assert [a[0]] + (a[1..] + "\n" + b) == s;
      SplitLinesFirst(a[0], a[1..] + "\n" + b);
    }
  }

  lemma {:induction false} SplitLinesOne(a: string)
    requires '\n' !in a
    ensures SplitLines(a) == [a]
  {
    if a == "" {
    } else {
      SplitLinesOne(a[1..]);
      assert [a[0]] + a[1..] == a;
    }
  }

  lemma {:induction false} ColumnsChars(fields: seq<string>, gaps: seq<string>)
    requires GoodColumns(fields, gaps)
    ensures '\n' !in Columns(fields, gaps)
    ensures fields != [] ==> Columns(fields, gaps) != "" && fields[0] + gaps[0] <= Columns(fields, gaps)
    decreases |fields|
  {
    if fields == [] {
    } else {
      ColumnsChars(fields[1..], gaps[1..]);
      assert IsWord(fields[0]) && IsGap(gaps[0]);
    }
  }

  lemma RowTextChars(r: Row)
    requires GoodRow(r)
    ensures IsEdged(RowText(r))
    ensures !("total " <= RowText(r))
  {
    var text := RowText(r);
    ColumnsChars(RowFields(r), r.gaps);
    ShownIsEdged(r);
    assert IsWord(RowFields(r)[0]) && IsGap(r.gaps[0]);
    assert text[|text| - 1] == Shown(r)[|Shown(r)| - 1];
    var start := Perms(r) + r.gaps[0];
    assert forall i :: 0 <= i < |start| ==> text[i] == start[i];
    assert |Perms(r)| < 6 ==> IsBlank(text[|Perms(r)|]);
    assert |Perms(r)| >= 6 ==> text[5] == Perms(r)[5] && !IsSpace(Perms(r)[5]);
    assert |Perms(r)| == 5 ==> Perms(r) == text[..5];
    TotalPrefix(text);
  }

  lemma TotalPrefix(text: string)
    ensures "total " <= text ==> text[..5] == "total" && IsSpace(text[5])
    ensures "total " <= text ==> forall i :: 0 <= i < 5 ==> !IsBlank(text[i])
  {
    var total := "total ";
    assert total <= text ==> forall i :: 0 <= i < 6 ==> text[i] == total[i];
  }

  lemma RowLineEntries(r: Row)
    requires GoodRow(r) && (IsLink(r) ==> IndexOf(r.name + " ", ARROW).None?)
    ensures LineEntries(RowText(r)) == if r.name == "." || r.name == ".." then [] else [EntryOf(r)]
  {
    RowTextChars(r);
    TrimEdged(RowText(r));
    RowRoundTrip(r);
  }

  ghost predicate GoodRows(rows: seq<Row>) {
    forall i :: 0 <= i < |rows| ==>
      GoodRow(rows[i]) && (IsLink(rows[i]) ==> IndexOf(rows[i].name + " ", ARROW).None?)
  }

  lemma EntriesSnoc(lines: seq<string>, last: string)
    ensures Entries(lines + [last]) == Entries(lines) + LineEntries(last)
  {
    assert (lines + [last])[..|lines|] == lines;
  }

  lemma LineAppended(start: string, text: string)
    requires '\n' !in text
    ensures Entries(SplitLines(start + "\n" + text)) == Entries(SplitLines(start)) + LineEntries(text)
  {
    SplitLinesConcat(start, text);
    SplitLinesOne(text);
    EntriesSnoc(SplitLines(start), text);
  }

  lemma Regrouped(a: string, b: string, c: string, d: string)
    ensures a + (b + c + d) == a + b + c + d
  {
  }

  lemma RowAppended(head: string, rows: seq<Row>)
    requires GoodRows(rows) && rows != []
    ensures var last := rows[|rows| - 1];
      Entries(SplitLines(head + RowLines(rows)))
      == Entries(SplitLines(head + RowLines(rows[..|rows| - 1])))
         + (if last.name == "." || last.name == ".." then [] else [EntryOf(last)])
  {
    var start, last := head + RowLines(rows[..|rows| - 1]), rows[|rows| - 1];
    assert GoodRow(last);
    RowTextChars(last);
    Regrouped(head, RowLines(rows[..|rows| - 1]), "\n", RowText(last));
    LineAppended(start, RowText(last));
    RowLineEntries(last);
  }

  lemma HeadEntries(head: string)
    requires IsEdged(head) && "total " <= head
    ensures Entries(SplitLines(head)) == []
  {
    SplitLinesOne(head);
    TrimEdged(head);
    EntriesSnoc([], head);
    assert [] + [head] == [head];
  }

  lemma {:induction false} RowLinesEntries(head: string, rows: seq<Row>)
    requires GoodRows(rows) && IsEdged(head) && "total " <= head
    ensures Entries(SplitLines(head + RowLines(rows))) == RowEntries(rows)
  {
    if rows == [] {
      assert head + "" == head;
      HeadEntries(head);
    } else {
      RowLinesEntries(head, rows[..|rows| - 1]);
      RowAppended(head, rows);
    }
  }

  lemma RowLinesEdges(head: string, rows: seq<Row>)
    requires GoodRows(rows) && IsEdged(head)
    ensures var s := head + RowLines(rows); s != "" && !IsSpace(s[0]) && !IsSpace(s[|s| - 1])
  {
    var s := head + RowLines(rows);
    assert s[0] == head[0];
    if rows == [] {
      assert s == head;
    } else {
      var text := RowText(rows[|rows| - 1]);
      RowTextChars(rows[|rows| - 1]);
      assert s[|s| - 1] == text[|text| - 1];
    }
  }

  /**
   Parsing a printed listing gives its entries back, in order, without the total and the two dot entries:
   for every list of rows, whatever runs of blanks stand between the columns.
   */
  lemma ListingRoundTrip(total: string, rows: seq<Row>)
    requires GoodRows(rows) && IsEdged(total)
    ensures Entries(SplitLines(TrimSpace(Print(total, rows)))) == RowEntries(rows)
  {
    PrintTrims(total, rows);
    TotalLine(total);
    RowLinesEntries("total " + total, rows);
  }

  lemma PrintTrims(total: string, rows: seq<Row>)
    requires GoodRows(rows) && IsEdged(total)
    ensures TrimSpace(Print(total, rows)) == "total " + total + RowLines(rows)
  {
    TotalLine(total);
    RowLinesEdges("total " + total, rows);
    TrimNewline("total " + total + RowLines(rows));
  }

  lemma TotalLine(total: string)
    requires IsEdged(total)
    ensures IsEdged("total " + total) && "total " <= "total " + total
  {
    var head := "total " + total;
    assert head[|head| - 1] == total[|total| - 1];
    assert head[0] == 't';
  }

  lemma TrimNewline(body: string)
    requires body != "" && !IsSpace(body[0]) && !IsSpace(body[|body| - 1])
    ensures TrimSpace(body + "\n") == body
  {
    var s := body + "\n";
    assert s[0] == body[0];
    assert s[..|s| - 1] == body;
    assert TrimRight(s) == TrimRight(body);
  }
}
