/**
 The text form in which the backend sends a time (RFC 3339 with up to nine fraction digits, trailing zeros
 dropped, in UTC), and the order in which the frontend compares such texts.
 */
module Timestamps {
  import opened Prelude

  /** The comparison of two strings by their first difference. */
  predicate Less(a: string, b: string) {
    b != "" && (a == "" || a[0] < b[0] || (a[0] == b[0] && Less(a[1..], b[1..])))
  }

  lemma {:induction false} LessTransitive(a: string, b: string, c: string)
    requires Less(a, b) && Less(b, c)
    ensures Less(a, c)
  {
    if a == "" {
    } else if a[0] == b[0] && b[0] == c[0] {
      LessTransitive(a[1..], b[1..], c[1..]);
    }
  }

  lemma {:induction false} LessIsTotal(a: string, b: string)
    ensures Less(a, b) || a == b || Less(b, a)
    ensures !(Less(a, b) && Less(b, a)) && !Less(a, a)
  {
    if a == "" {
    } else if b == "" {
      LessIsTotal(a[1..], a[1..]);
    } else {
      LessIsTotal(a[1..], b[1..]);
      assert a == [a[0]] + a[1..] && b == [b[0]] + b[1..];
      if a[0] != b[0] { LessIsTotal(a[1..], a[1..]); }
    }
  }

  lemma {:induction false} LessAfterSame(p: string, a: string, b: string)
    ensures Less(p + a, p + b) <==> Less(a, b)
  {
    if p == "" {
      assert p + a == a && p + b == b;
    } else {
      LessAfterSame(p[1..], a, b);
      assert (p + a)[1..] == p[1..] + a && (p + b)[1..] == p[1..] + b;
    }
  }

  /** Different texts of one length decide the order of whatever follows them. */
  lemma {:induction false} LessByHead(p: string, q: string, a: string, b: string)
    requires |p| == |q| && p != q
    ensures Less(p + a, q + b) <==> Less(p, q)
  {
    assert p == [p[0]] + p[1..] && q == [q[0]] + q[1..];
    assert (p + a)[1..] == p[1..] + a && (q + b)[1..] == q[1..] + b;
    if p[0] == q[0] {
      LessByHead(p[1..], q[1..], a, b);
    }
  }

  // ---------- times and their text ----------

  function Pow10(w: nat): (r: nat)
    ensures r > 0
  {
    if w == 0 then 1 else 10 * Pow10(w - 1)
  }

  /** The first of the w digits of n, and the number that the other digits form. */
  function Lead(n: nat, w: nat): (d: nat)
    requires n < Pow10(w) && w > 0
    ensures d < 10
  {
    TimesMonotone(10, n / Pow10(w - 1), Pow10(w - 1));
    n / Pow10(w - 1)
  }

  function Rest(n: nat, w: nat): (r: nat)
    requires n < Pow10(w) && w > 0
    ensures r < Pow10(w - 1)
  {
    n % Pow10(w - 1)
  }

  /** The digits of n / 10^w after the decimal point, up to the last that is not zero. */
  function Fraction(n: nat, w: nat): string
    requires n < Pow10(w)
    decreases w
  {
    if n == 0 then "" else [Digit(Lead(n, w))] + Fraction(Rest(n, w), w - 1)
  }

  lemma {:induction false} DigitValueFirst(c: char, s: string)
    requires IsDigit(c) && forall i :: 0 <= i < |s| ==> IsDigit(s[i])
    ensures forall i :: 0 <= i < |[c] + s| ==> IsDigit(([c] + s)[i])
    ensures DigitValue([c] + s) == (c as int - '0' as int) * Pow10(|s|) + DigitValue(s)
  {
    var t := [c] + s;
    if s == "" {
      assert t[..0] == "";
    } else {
      var n := |s| - 1;
      DigitValueFirst(c, s[..n]);
      assert t[..|t| - 1] == [c] + s[..n];
      Shifted(c as int - '0' as int, Pow10(n), DigitValue(s[..n]), 10);
    }
  }

  lemma Shifted(lead: int, a: int, d: int, p: int)
    ensures (lead * a + d) * p == lead * (a * p) + d * p
  {
  }

  /** As a decimal number, padded with zeros to w digits, it is n; it does not end in a zero. */
  lemma {:induction false} FractionIsNumber(n: nat, w: nat)
    requires n < Pow10(w)
    ensures var f := Fraction(n, w);
      && |f| <= w && (forall i :: 0 <= i < |f| ==> IsDigit(f[i]))
      && DigitValue(f) * Pow10(w - |f|) == n && (f != "" ==> f[|f| - 1] != '0')
    decreases w
  {
    if n == 0 {
    } else {
      var lead, f := Lead(n, w), Fraction(Rest(n, w), w - 1);
      FractionIsNumber(Rest(n, w), w - 1);
      assert Fraction(n, w) == [Digit(lead)] + f;
      DigitValueFirst(Digit(lead), f);
      DivMod(n, Pow10(w - 1));
      Pow10Sum(|f|, w - 1 - |f|);
      Shifted(lead, Pow10(|f|), DigitValue(f), Pow10(w - 1 - |f|));
    }
  }

  lemma {:induction false} Pow10Sum(a: nat, b: nat)
    ensures Pow10(a) * Pow10(b) == Pow10(a + b)
  {
    if a == 0 {
    } else {
      Pow10Sum(a - 1, b);
      assert 10 * Pow10(a - 1) * Pow10(b) == 10 * (Pow10(a - 1) * Pow10(b));
    }
  }

  /** The order of two numbers is that of their leading digits, then that of the rests. */
  lemma DigitOrder(m: nat, n: nat, w: nat)
    requires m < n < Pow10(w) && w > 0
    ensures Lead(m, w) < Lead(n, w) || (Lead(m, w) == Lead(n, w) && Rest(m, w) < Rest(n, w))
  {
    var p := Pow10(w - 1);
    DivMod(m, p);
    DivMod(n, p);
    PartsOrder(m / p, m % p, n / p, n % p, p);
  }

  lemma PartsOrder(a: int, r: int, b: int, q: int, p: int)
    requires 0 <= r < p && 0 <= q < p && a * p + r < b * p + q
    ensures a < b || (a == b && r < q)
  {
    TimesMonotone(b + 1, a, p);
    assert (b + 1) * p == b * p + p;
  }

  const SECOND_LENGTH := 19

  /** The date and time to the second, as 19 characters of fixed meaning, and the nanoseconds after it. */
  datatype Instant = Instant(second: string, nanos: nat) {
    predicate Valid() { |second| == SECOND_LENGTH && nanos < Pow10(9) }
  }

  /** x is earlier than y; the fields of a second have fixed width, the most significant first. */
  predicate Earlier(x: Instant, y: Instant) {
    Less(x.second, y.second) || (x.second == y.second && x.nanos < y.nanos)
  }

  function Text(x: Instant): string
    requires x.Valid()
  {
    x.second + (if x.nanos == 0 then "Z" else "." + Fraction(x.nanos, 9) + "Z")
  }

  /** Within one second the shorter fraction starts the longer one. */
  predicate Misordered(x: Instant, y: Instant)
    requires x.Valid() && y.Valid()
  {
    x.second == y.second && Fraction(x.nanos, 9) <= Fraction(y.nanos, 9)
  }

  lemma ConsOrder(c: char, f: string, d: char, g: string)
    ensures Less([c] + f + "Z", [d] + g + "Z") <==> c < d || (c == d && Less(f + "Z", g + "Z"))
    ensures [c] + f <= [d] + g <==> c == d && f <= g
  {
    assert ([c] + f + "Z")[1..] == f + "Z" && ([d] + g + "Z")[1..] == g + "Z";
    if [c] + f <= [d] + g {
      assert ([c] + f)[0] == ([d] + g)[0] && ([c] + f)[1..] == f && ([d] + g)[1..] == g;
    }
  }

  lemma {:induction false} FractionOrder(m: nat, n: nat, w: nat)
    requires m < n < Pow10(w)
    decreases w
    ensures Less(Fraction(m, w) + "Z", Fraction(n, w) + "Z") <==> !(Fraction(m, w) <= Fraction(n, w))
  {
    if m == 0 {
    } else {
      DigitOrder(m, n, w);
      ConsOrder(Digit(Lead(m, w)), Fraction(Rest(m, w), w - 1), Digit(Lead(n, w)), Fraction(Rest(n, w), w - 1));
      if Lead(m, w) == Lead(n, w) {
        FractionOrder(Rest(m, w), Rest(n, w), w - 1);
      }
    }
  }

  /**
   Comparing the texts of two times agrees with their order exactly when they do not fall into one second
   with the earlier fraction starting the later one ("05.1Z" sorts after "05.12Z", "05Z" after "05.5Z").
   */
  lemma TextOrder(x: Instant, y: Instant)
    requires x.Valid() && y.Valid() && Earlier(x, y)
    ensures Less(Text(x), Text(y)) <==> !Misordered(x, y)
  {
    LessIsTotal(x.second, y.second);
    var s := Text(x)[SECOND_LENGTH..];
    var t := Text(y)[SECOND_LENGTH..];
    assert Text(x) == x.second + s && Text(y) == y.second + t;
    if x.second != y.second {
      LessByHead(x.second, y.second, s, t);
    } else {
      LessAfterSame(x.second, s, t);
      FractionOrder(x.nanos, y.nanos, 9);
      if x.nanos > 0 {
        LessAfterSame(".", Fraction(x.nanos, 9) + "Z", Fraction(y.nanos, 9) + "Z");
        assert s == "." + (Fraction(x.nanos, 9) + "Z") && t == "." + (Fraction(y.nanos, 9) + "Z");
      }
    }
  }

  /** The first and the middle nanosecond of any second are such times. */
  lemma MisorderedTimes(second: string)
    requires |second| == SECOND_LENGTH
    ensures var x, y := Instant(second, 0), Instant(second, 500_000_000);
      && x.Valid() && y.Valid() && Earlier(x, y) && Misordered(x, y)
      && Less(Text(y), Text(x))
  {
    var x, y := Instant(second, 0), Instant(second, 500_000_000);
    assert Pow10(3) == 1000 && Pow10(6) == 1000 * Pow10(3) && Pow10(9) == 1000 * Pow10(6);
    TextOrder(x, y);
    LessIsTotal(Text(x), Text(y));
    assert Text(x)[|Text(x)| - 1] == 'Z' && Text(x)[SECOND_LENGTH] == 'Z' && Text(y)[SECOND_LENGTH] == '.';
  }
}
