/** Natural numbers as strings of decimal digits, most significant digit first. */
module Decimal {

  predicate Digit(c: char) {
    '0' <= c <= '9'
  }

  predicate Digits(s: string) {
    forall i :: 0 <= i < |s| ==> Digit(s[i])
  }

  function DigitValue(c: char): nat
    requires Digit(c)
  {
    c as int - '0' as int
  }

  function DigitChar(d: nat): (c: char)
    requires d < 10
    ensures Digit(c) && DigitValue(c) == d
  {
    (d + '0' as int) as char
  }

  /** The number a digit string stands for. */
  ghost function Val(s: string): nat
    requires Digits(s)
  {
    if s == "" then 0 else 10 * Val(s[..|s| - 1]) + DigitValue(s[|s| - 1])
  }

  /** No leading zero, and at least one digit. */
  ghost predicate Canonical(s: string) {
    Digits(s) && s != "" && (|s| > 1 ==> s[0] != '0')
  }

  ghost function Pow10(n: nat): (p: nat)
    ensures p >= 1
  {
    if n == 0 then 1 else 10 * Pow10(n - 1)
  }

  lemma {:induction false} Pow10Monotone(m: nat, n: nat)
    requires m <= n
    ensures Pow10(m) <= Pow10(n)
  {
    if m == n {
    } else {
      Pow10Monotone(m, n - 1);
    }
  }

  lemma {:induction false} ValJoin(a: string, b: string)
    requires Digits(a) && Digits(b)
    ensures Digits(a + b) && Val(a + b) == Val(a) * Pow10(|b|) + Val(b)
  {
    if b == "" {
      assert a + b == a;
    } else {
      var n := |b| - 1;
      assert (a + b)[..|a + b| - 1] == a + b[..n];
      ValJoin(a, b[..n]);
      Times10(Val(a), Pow10(n), Val(b[..n]));
    }
  }

  lemma Times10(x: nat, p: nat, y: nat)
    ensures 10 * (x * p + y) == x * (10 * p) + 10 * y
  {
  }

  lemma {:induction false} ValBelow(s: string)
    requires Digits(s)
    ensures Val(s) < Pow10(|s|)
  {
    if s == "" {
    } else {
      ValBelow(s[..|s| - 1]);
    }
  }

  /** A canonical string longer than one digit reaches its highest power of ten. */
  lemma {:induction false} CanonicalAbove(s: string)
    requires Canonical(s) && s != "0"
    ensures Pow10(|s| - 1) <= Val(s)
  {
    if |s| > 1 {
      assert s[..|s| - 1] != "0" by { assert s[0] != '0'; }
      CanonicalAbove(s[..|s| - 1]);
    } else {
      assert s == [s[0]];
    }
  }

  /** Without its leading zeros, down to one digit. */
  ghost function Stripped(s: string): string {
    if |s| > 1 && s[0] == '0' then Stripped(s[1..]) else s
  }

  /** Stripping keeps the number and makes a nonempty string canonical. */
  lemma {:induction false} StrippedIsCanonical(s: string)
    requires Digits(s)
    ensures Digits(Stripped(s)) && Val(Stripped(s)) == Val(s)
    ensures s != "" ==> Canonical(Stripped(s))
  {
    if |s| <= 1 || s[0] != '0' {
    } else {
      StrippedIsCanonical(s[1..]);
      assert s == ['0'] + s[1..];
      ValJoin("0", s[1..]);
    }
  }

  // ----- order -----

  /** The order of std::string on strings of one length. */
  predicate LexLess(a: string, b: string)
    requires |a| == |b|
  {
    a != "" && (a[0] < b[0] || (a[0] == b[0] && LexLess(a[1..], b[1..])))
  }

  lemma {:induction false} LexIsNumeric(a: string, b: string)
    requires Digits(a) && Digits(b) && |a| == |b|
    ensures LexLess(a, b) <==> Val(a) < Val(b)
    ensures a == b <==> Val(a) == Val(b)
  {
    if a == "" {
    } else {
      assert a == [a[0]] + a[1..] && b == [b[0]] + b[1..];
      ValJoin([a[0]], a[1..]);
      ValJoin([b[0]], b[1..]);
      ValBelow(a[1..]);
      ValBelow(b[1..]);
      LexIsNumeric(a[1..], b[1..]);
      assert Val([a[0]]) == DigitValue(a[0]) && Val([b[0]]) == DigitValue(b[0]);
      HighDigitDecides(Val([a[0]]), Val([b[0]]), Pow10(|a| - 1), Val(a[1..]), Val(b[1..]));
    }
  }

  lemma HighDigitDecides(x: nat, y: nat, p: nat, r: nat, s: nat)
    requires r < p && s < p
    ensures x < y ==> x * p + r < y * p + s
    ensures y < x ==> y * p + s < x * p + r
  {
    if x < y {
      assert (x + 1) * p <= y * p;
    }
    if y < x {
      assert (y + 1) * p <= x * p;
    }
  }

  /** Length first, then lexicographic: the comparison of the bigint class. */
  predicate Shorter(a: string, b: string) {
    if |a| != |b| then |a| < |b| else LexLess(a, b)
  }

  /** On canonical strings that comparison is the order of the numbers. */
  lemma ComparisonIsNumeric(a: string, b: string)
    requires Canonical(a) && Canonical(b)
    ensures Shorter(a, b) <==> Val(a) < Val(b)
    ensures a == b <==> Val(a) == Val(b)
  {
    if |a| == |b| {
      LexIsNumeric(a, b);
    } else if |a| < |b| {
      LongerIsLarger(a, b);
    } else {
      LongerIsLarger(b, a);
    }
  }

  lemma LongerIsLarger(a: string, b: string)
    requires Canonical(a) && Canonical(b) && |a| < |b|
    ensures Val(a) < Val(b)
  {
    ValBelow(a);
    CanonicalAbove(b);
    Pow10Monotone(|a|, |b| - 1);
  }

  // ----- shifts -----

  function Zeros(n: nat): (z: string)
    ensures |z| == n && Digits(z)
  {
    seq(n, _ => '0')
  }

  lemma {:induction false} ValZeros(n: nat)
    ensures Val(Zeros(n)) == 0
  {
    if n == 0 {
    } else {
      assert Zeros(n)[..n - 1] == Zeros(n - 1);
      ValZeros(n - 1);
    }
  }

  ghost function ShiftedLeft(s: string, n: nat): string {
    if s == "0" then s else s + Zeros(n)
  }

  ghost function ShiftedRight(s: string, n: nat): string {
    if n >= |s| then "0" else Stripped(s[..|s| - n])
  }

  /** A left shift multiplies by a power of ten and stays canonical. */
  lemma LeftShiftMultiplies(s: string, n: nat)
    requires Canonical(s)
    ensures Canonical(ShiftedLeft(s, n)) && Val(ShiftedLeft(s, n)) == Val(s) * Pow10(n)
  {
    ValZeros(n);
    ValJoin(s, Zeros(n));
  }

  /** A right shift divides by a power of ten and stays canonical. */
  lemma RightShiftDivides(s: string, n: nat)
    requires Canonical(s)
    ensures Canonical(ShiftedRight(s, n)) && Val(ShiftedRight(s, n)) == Val(s) / Pow10(n)
  {
    if n >= |s| {
      ValBelow(s);
      Pow10Monotone(|s|, n);
      QuotientIs(Val(s), Pow10(n), 0, Val(s));
    } else {
      var high, low := s[..|s| - n], s[|s| - n..];
      assert s == high + low;
      ValJoin(high, low);
      ValBelow(low);
      StrippedIsCanonical(high);
      QuotientIs(Val(s), Pow10(n), Val(high), Val(low));
    }
  }

  lemma QuotientIs(x: nat, p: nat, q: nat, r: nat)
    requires x == q * p + r && r < p
    ensures x / p == q
  {
    var d, m := x / p, x % p;
    assert x == d * p + m && 0 <= m < p;
    if d < q {
      HighDigitDecides(d, q, p, m, r);
    }
    if q < d {
      HighDigitDecides(q, d, p, r, m);
    }
  }

  /** Shifting left and back right by the same amount restores the string. */
  lemma ShiftsCancel(s: string, n: nat)
    requires Canonical(s)
    ensures ShiftedRight(ShiftedLeft(s, n), n) == s
  {
    var t := ShiftedLeft(s, n);
    LeftShiftMultiplies(s, n);
    RightShiftDivides(t, n);
    QuotientIs(Val(t), Pow10(n), Val(s), 0);
    ComparisonIsNumeric(ShiftedRight(t, n), s);
  }
}
