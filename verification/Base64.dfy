/** Base 64 with padding, section 4 of RFC 4648, and its inverse as `base64 -d` applies it to `echo`'s output. */
module Base64 {
  import opened Prelude

  function Symbol(v: int): (c: char)
    requires 0 <= v < 64
  {
    if v < 26 then (v + 'A' as int) as char
    else if v < 52 then (v - 26 + 'a' as int) as char
    else if v < 62 then (v - 52 + '0' as int) as char
    else if v == 62 then '+' else '/'
  }

  function Value(c: char): (v: Option<int>)
    ensures v.Some? ==> 0 <= v.value < 64
  {
    if 'A' <= c <= 'Z' then Some(c as int - 'A' as int)
    else if 'a' <= c <= 'z' then Some(c as int - 'a' as int + 26)
    else if '0' <= c <= '9' then Some(c as int - '0' as int + 52)
    else if c == '+' then Some(62)
    else if c == '/' then Some(63)
    else None
  }

  function Three(b0: Byte, b1: Byte, b2: Byte): string {
    [Symbol(b0 / 4), Symbol(b0 % 4 * 16 + b1 / 16), Symbol(b1 % 16 * 4 + b2 / 64), Symbol(b2 % 64)]
  }

  function Two(b0: Byte, b1: Byte): string {
    [Symbol(b0 / 4), Symbol(b0 % 4 * 16 + b1 / 16), Symbol(b1 % 16 * 4), '=']
  }

  function One(b0: Byte): string {
    [Symbol(b0 / 4), Symbol(b0 % 4 * 16), '=', '=']
  }

  function Encode(b: seq<Byte>): string {
    if |b| == 0 then ""
    else if |b| == 1 then One(b[0])
    else if |b| == 2 then Two(b[0], b[1])
    else Three(b[0], b[1], b[2]) + Encode(b[3..])
  }

  /** One group of four symbols. Padding is for the last group, and the bits it leaves over are zero. */
  function DecodeGroup(c0: char, c1: char, c2: char, c3: char, last: bool): Option<seq<Byte>> {
    var v0, v1, v2, v3 := Value(c0), Value(c1), Value(c2), Value(c3);
    if v0.None? || v1.None? then None
    else if c2 == '=' && c3 == '=' then
      if last && v1.value % 16 == 0 then Some([v0.value * 4 + v1.value / 16]) else None
    else if v2.None? then None
    else if c3 == '=' then
      if last && v2.value % 4 == 0 then
        Some([v0.value * 4 + v1.value / 16, v1.value % 16 * 16 + v2.value / 4])
      else None
    else if v3.None? then None
    else Some([v0.value * 4 + v1.value / 16, v1.value % 16 * 16 + v2.value / 4, v2.value % 4 * 64 + v3.value])
  }

  function Joined(a: Option<seq<Byte>>, b: Option<seq<Byte>>): Option<seq<Byte>> {
    if a.None? || b.None? then None else Some(a.value + b.value)
  }

  function DecodeGroups(s: string): Option<seq<Byte>> {
    if s == "" then Some([])
    else if |s| < 4 then None
    else Joined(DecodeGroup(s[0], s[1], s[2], s[3], |s| == 4), DecodeGroups(s[4..]))
  }

  function WithoutNewlines(s: string): string {
    if s == "" then "" else (if s[0] == '\n' then "" else [s[0]]) + WithoutNewlines(s[1..])
  }

  function Decode(s: string): Option<seq<Byte>> {
    DecodeGroups(WithoutNewlines(s))
  }

  lemma SymbolValue(v: int)
    requires 0 <= v < 64
    ensures Value(Symbol(v)) == Some(v)
  {
  }

  /** The alphabet of table 1 of RFC 4648: capitals, small letters, digits, plus and slash, in order. */
  lemma SymbolsAreAlphabet(v: int)
    requires 0 <= v < 64
    ensures Symbol(0) == 'A' && Symbol(25) == 'Z' && Symbol(26) == 'a' && Symbol(51) == 'z'
    ensures Symbol(52) == '0' && Symbol(61) == '9' && Symbol(62) == '+' && Symbol(63) == '/'
    ensures v < 61 && v != 25 && v != 51 ==> Symbol(v + 1) as int == Symbol(v) as int + 1
  {
  }

  /** Four symbols and three bytes are the same number, to the bases 64 and 256. */
  lemma GroupIsNumber(b0: Byte, b1: Byte, b2: Byte)
    ensures var s := Three(b0, b1, b2);
      exists v0, v1, v2, v3 :: 0 <= v0 < 64 && 0 <= v1 < 64 && 0 <= v2 < 64 && 0 <= v3 < 64
        && s == [Symbol(v0), Symbol(v1), Symbol(v2), Symbol(v3)]
        && ((v0 * 64 + v1) * 64 + v2) * 64 + v3 == (b0 * 256 + b1) * 256 + b2
  {
    var v0, v1, v2, v3 := b0 / 4, b0 % 4 * 16 + b1 / 16, b1 % 16 * 4 + b2 / 64, b2 % 64;
    assert Three(b0, b1, b2) == [Symbol(v0), Symbol(v1), Symbol(v2), Symbol(v3)];
  }

  lemma DecodeOne(b0: Byte)
    ensures var s := One(b0); DecodeGroup(s[0], s[1], s[2], s[3], true) == Some([b0])
  {
    SymbolValue(b0 / 4);
    SymbolValue(b0 % 4 * 16);
  }

  lemma DecodeTwo(b0: Byte, b1: Byte)
    ensures var s := Two(b0, b1); DecodeGroup(s[0], s[1], s[2], s[3], true) == Some([b0, b1])
  {
    SymbolValue(b0 / 4);
    SymbolValue(b0 % 4 * 16 + b1 / 16);
    SymbolValue(b1 % 16 * 4);
  }

  /** Three bytes cut into four six-bit values and joined again. */
  lemma ThreeJoined(b0: Byte, b1: Byte, b2: Byte)
    ensures b0 / 4 * 4 + (b0 % 4 * 16 + b1 / 16) / 16 == b0
    ensures (b0 % 4 * 16 + b1 / 16) % 16 * 16 + (b1 % 16 * 4 + b2 / 64) / 4 == b1
    ensures (b1 % 16 * 4 + b2 / 64) % 4 * 64 + b2 % 64 == b2
  {
  }

  lemma DecodeThree(b0: Byte, b1: Byte, b2: Byte, last: bool)
    ensures var s := Three(b0, b1, b2); DecodeGroup(s[0], s[1], s[2], s[3], last) == Some([b0, b1, b2])
  {
    ThreeJoined(b0, b1, b2);
    SymbolValue(b0 / 4);
    SymbolValue(b0 % 4 * 16 + b1 / 16);
    SymbolValue(b1 % 16 * 4 + b2 / 64);
    SymbolValue(b2 % 64);
  }

  lemma DecodeFirstGroup(group: string, tail: string)
    requires |group| == 4
    ensures DecodeGroups(group + tail)
         == Joined(DecodeGroup(group[0], group[1], group[2], group[3], tail == ""), DecodeGroups(tail))
  {
    var s := group + tail;
    assert s[4..] == tail && s[0] == group[0] && s[1] == group[1] && s[2] == group[2] && s[3] == group[3];
    assert |s| == 4 <==> tail == "";
  }

  lemma DecodeShort(b: seq<Byte>)
    requires |b| == 1 || |b| == 2
    ensures DecodeGroups(Encode(b)) == Some(b)
  {
    if |b| == 1 {
      DecodeOne(b[0]);
      DecodeFirstGroup(One(b[0]), "");
      assert One(b[0]) + "" == Encode(b);
      assert [b[0]] + [] == b;
    } else {
      DecodeTwo(b[0], b[1]);
      DecodeFirstGroup(Two(b[0], b[1]), "");
      assert Two(b[0], b[1]) + "" == Encode(b);
      assert [b[0], b[1]] + [] == b;
    }
  }

  lemma {:induction false} DecodeGroupsEncode(b: seq<Byte>)
    ensures DecodeGroups(Encode(b)) == Some(b)
  {
    if |b| == 0 {
    } else if |b| < 3 {
      DecodeShort(b);
    } else {
      DecodeGroupsEncode(b[3..]);
      DecodeLong(b);
    }
  }

  lemma DecodeLong(b: seq<Byte>)
    requires |b| >= 3 && DecodeGroups(Encode(b[3..])) == Some(b[3..])
    ensures DecodeGroups(Encode(b)) == Some(b)
  {
    var tail := Encode(b[3..]);
    DecodeThree(b[0], b[1], b[2], tail == "");
    DecodeFirstGroup(Three(b[0], b[1], b[2]), tail);
    FirstThree(b);
  }

  lemma FirstThree<T>(b: seq<T>)
    requires |b| >= 3
    ensures b == [b[0], b[1], b[2]] + b[3..]
  {
  }

  /** Every symbol means nothing to the shell, and none is a newline. */
  predicate IsSymbol(c: char) { Value(c).Some? || c == '=' }

  lemma ThreeSymbols(b0: Byte, b1: Byte, b2: Byte)
    ensures forall i :: 0 <= i < 4 ==> IsSymbol(Three(b0, b1, b2)[i])
  {
    SymbolValue(b0 / 4);
    SymbolValue(b0 % 4 * 16 + b1 / 16);
    SymbolValue(b1 % 16 * 4 + b2 / 64);
    SymbolValue(b2 % 64);
  }

  lemma ShortSymbols(b: seq<Byte>)
    requires |b| < 3
    ensures forall i :: 0 <= i < |Encode(b)| ==> IsSymbol(Encode(b)[i])
  {
    if |b| == 1 {
      SymbolValue(b[0] / 4);
      SymbolValue(b[0] % 4 * 16);
    } else if |b| == 2 {
      SymbolValue(b[0] / 4);
      SymbolValue(b[0] % 4 * 16 + b[1] / 16);
      SymbolValue(b[1] % 16 * 4);
    }
  }

  lemma {:induction false} EncodeSymbols(b: seq<Byte>)
    ensures forall i :: 0 <= i < |Encode(b)| ==> IsSymbol(Encode(b)[i])
  {
    if |b| < 3 {
      ShortSymbols(b);
    } else {
      ThreeSymbols(b[0], b[1], b[2]);
      EncodeSymbols(b[3..]);
    }
  }

  /** Four characters for every three bytes, started ones included. */
  lemma {:induction false} EncodeLength(b: seq<Byte>)
    ensures |Encode(b)| == (|b| + 2) / 3 * 4
  {
    if |b| < 3 {
    } else {
      EncodeLength(b[3..]);
      OneMoreGroup(|b| - 3);
    }
  }

  lemma OneMoreGroup(n: nat)
    ensures (n + 5) / 3 * 4 == 4 + (n + 2) / 3 * 4
  {
  }

  lemma {:induction false} WithoutNewlinesOfSymbols(s: string)
    requires forall i :: 0 <= i < |s| ==> IsSymbol(s[i])
    ensures WithoutNewlines(s + "\n") == s
  {
    if s == "" {
    } else {
      assert (s + "\n")[1..] == s[1..] + "\n";
      WithoutNewlinesOfSymbols(s[1..]);
    }
  }

  /** `echo`-ing an encoding into `base64 -d` gives the bytes back, for every content. */
  lemma EchoDecodes(b: seq<Byte>)
    ensures Decode(Encode(b) + "\n") == Some(b)
  {
    EncodeSymbols(b);
    WithoutNewlinesOfSymbols(Encode(b));
    DecodeGroupsEncode(b);
  }
}
