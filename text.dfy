/**
 * The string operations the cards apply to record fields: upper-casing
 * before a case-insensitive comparison, the decimal rendering of numbers
 * inside template-string keys, and the ordering of date strings.
 */
module Text {

  predicate IsDigit(c: char)
  {
    '0' <= c <= '9'
  }

  function UpperChar(c: char): char
  {
    if 'a' <= c <= 'z' then (c as int - 32) as char else c
  }

  /** `s.toUpperCase()`, on the ASCII letters. */
  function ToUpper(s: string): (u: string)
    ensures |u| == |s|
    ensures forall i | 0 <= i < |s| :: u[i] == UpperChar(s[i])
  {
    if s == [] then [] else [UpperChar(s[0])] + ToUpper(s[1..])
  }

  /** Upper-casing twice is upper-casing once, so comparisons against upper-case constants are case-insensitive. */
  lemma {:induction false} ToUpperIdempotent(s: string)
    ensures ToUpper(ToUpper(s)) == ToUpper(s)
  {
    if s != [] {
      ToUpperIdempotent(s[1..]);
    }
  }

  function DigitChar(d: nat): (c: char)
    requires d < 10
    ensures IsDigit(c)
  {
    ('0' as int + d) as char
  }

  /** The decimal digits of `n`, most significant first, without leading zeros. */
  function NatToString(n: nat): (s: string)
    ensures |s| >= 1
    ensures forall i | 0 <= i < |s| :: IsDigit(s[i])
  {
    if n < 10 then [DigitChar(n)] else NatToString(n / 10) + [DigitChar(n % 10)]
  }

  /** The rendering of an integer in a template string: `${n}`. */
  function IntToString(n: int): string
  {
    if n < 0 then "-" + NatToString(-n) else NatToString(n)
  }

  lemma {:induction false} NatToStringInjective(a: nat, b: nat)
    requires NatToString(a) == NatToString(b)
    ensures a == b
  {
    var sa, sb := NatToString(a), NatToString(b);
    if a < 10 && b < 10 {
      assert sa[0] == sb[0];
    } else if a >= 10 && b >= 10 {
      var pa, pb := NatToString(a / 10), NatToString(b / 10);
      assert sa[|sa| - 1] == sb[|sb| - 1];
      assert a % 10 == b % 10;
      assert pa == sa[..|sa| - 1] == sb[..|sb| - 1] == pb;
      NatToStringInjective(a / 10, b / 10);
    }
  }

  /** The position of the first dash in `s`, or `|s|`. */
  function DashIndex(s: string): (i: nat)
    ensures i <= |s|
  {
    if s == [] then 0 else if s[0] == '-' then 0 else 1 + DashIndex(s[1..])
  }

  lemma {:induction false} DashAfterDigits(d: string, r: string)
    requires forall i | 0 <= i < |d| :: IsDigit(d[i])
    ensures DashIndex(d + "-" + r) == |d|
  {
    if d != [] {
      assert (d + "-" + r)[1..] == d[1..] + "-" + r;
      DashAfterDigits(d[1..], r);
    }
  }

  /** Two digit strings followed by a dash cannot overlap unless they are equal. */
  lemma DigitsThenDash(d1: string, r1: string, d2: string, r2: string)
    requires forall i | 0 <= i < |d1| :: IsDigit(d1[i])
    requires forall i | 0 <= i < |d2| :: IsDigit(d2[i])
    requires d1 + "-" + r1 == d2 + "-" + r2
    ensures d1 == d2 && r1 == r2
  {
    var s := d1 + "-" + r1;
    DashAfterDigits(d1, r1);
    DashAfterDigits(d2, r2);
    assert d1 == s[..|d1|];
    assert d2 == (d2 + "-" + r2)[..|d2|];
    assert r1 == s[|d1| + 1..];
    assert r2 == (d2 + "-" + r2)[|d2| + 1..];
  }

  /** A template key starts with a dash exactly when its number is negative. */
  lemma KeyShape(n: int, r: string)
    ensures n < 0 ==> IntToString(n) + "-" + r == "-" + (NatToString(-n) + "-" + r)
    ensures n >= 0 ==> IntToString(n) + "-" + r == NatToString(n) + "-" + r
    ensures (IntToString(n) + "-" + r)[0] == '-' <==> n < 0
  {
    if n >= 0 {
      assert (IntToString(n) + "-" + r)[0] == NatToString(n)[0];
    }
  }

  /**
   * A template key `${n}-${rest}` with an integer `n` determines both `n`
   * and `rest`: the first dash after an optional minus sign ends the number.
   */
  lemma IntKeyInjective(n1: int, r1: string, n2: int, r2: string)
    requires IntToString(n1) + "-" + r1 == IntToString(n2) + "-" + r2
    ensures n1 == n2 && r1 == r2
  {
    KeyShape(n1, r1);
    KeyShape(n2, r2);
    if n1 < 0 {
      var t1, t2 := NatToString(-n1) + "-" + r1, NatToString(-n2) + "-" + r2;
      assert t1 == ("-" + t1)[1..] == ("-" + t2)[1..] == t2;
      DigitsThenDash(NatToString(-n1), r1, NatToString(-n2), r2);
      NatToStringInjective(-n1, -n2);
    } else {
      DigitsThenDash(NatToString(n1), r1, NatToString(n2), r2);
      NatToStringInjective(n1, n2);
    }
  }

  /** Strict lexicographic order on strings (the order `localeCompare` gives ISO dates). */
  predicate Below(a: string, b: string)
  {
    if a == [] then b != []
    else if b == [] then false
    else if a[0] == b[0] then Below(a[1..], b[1..])
    else a[0] < b[0]
  }

  lemma {:induction false} BelowIrreflexive(a: string)
    ensures !Below(a, a)
  {
    if a != [] {
      BelowIrreflexive(a[1..]);
    }
  }

  lemma {:induction false} BelowTransitive(a: string, b: string, c: string)
    requires Below(a, b) && Below(b, c)
    ensures Below(a, c)
  {
    if a != [] && b != [] && c != [] && a[0] == b[0] && b[0] == c[0] {
      BelowTransitive(a[1..], b[1..], c[1..]);
    }
  }

  lemma {:induction false} BelowTotal(a: string, b: string)
    requires a != b
    ensures Below(a, b) || Below(b, a)
  {
    if a != [] && b != [] && a[0] == b[0] {
      assert a == [a[0]] + a[1..] && b == [b[0]] + b[1..];
      BelowTotal(a[1..], b[1..]);
    }
  }
}
