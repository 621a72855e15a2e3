/** The bigint class that adds from the right with one running carry
    (pracprac/exam/bigint/bigint.cpp). */
module Bigint {
  import opened Decimal

  const INT_MAX := 0x7fff_ffff

  method RemoveLeadingZeros(s: string) returns (str: string)
    ensures str == Stripped(s)
  {
    str := s;
    while |str| > 1 && str[0] == '0'
      invariant Stripped(str) == Stripped(s)
    {
      str := str[1..];
    }
  }

  /** What is still to be added, and what has been written, make up the sum. */
  ghost predicate SumSoFar(a: string, b: string, i: int, j: int, carry: int, res: string)
    requires Digits(a) && Digits(b) && Digits(res) && -1 <= i < |a| && -1 <= j < |b|
  {
    (Val(a[..i + 1]) + Val(b[..j + 1]) + carry) * Pow10(|res|) + Val(res) == Val(a) + Val(b)
  }

  /** Adds two digit strings of any lengths. */
  method AddStrings(a: string, b: string) returns (sum: string)
    requires Digits(a) && Digits(b)
    ensures Digits(sum) && Val(sum) == Val(a) + Val(b)
    ensures (a != "" || b != "") ==> Canonical(sum)
  {
    var res := "";
    var i, j, carry := |a| - 1, |b| - 1, 0;
    assert a[..i + 1] == a && b[..j + 1] == b;
    while i >= 0 || j >= 0 || carry != 0
      invariant -1 <= i < |a| && -1 <= j < |b| && 0 <= carry <= 1 && Digits(res)
      invariant SumSoFar(a, b, i, j, carry, res)
      invariant res == "" ==> i == |a| - 1 && j == |b| - 1 && carry == 0
      decreases i + j + 2, carry
    {
      var s := carry;
      ghost var i0, j0 := i, j;
      if i >= 0 {
        s := s + DigitValue(a[i]);
        i := i - 1;
      }
      if j >= 0 {
        s := s + DigitValue(b[j]);
        j := j - 1;
      }
      OneColumn(a, b, i0, j0, carry, res, s);
      res := [DigitChar(s % 10)] + res;
      carry := s / 10;
    }
    StrippedIsCanonical(res);
    sum := RemoveLeadingZeros(res);
  }

  lemma OneColumn(a: string, b: string, i: int, j: int, carry: int, res: string, s: int)
    requires Digits(a) && Digits(b) && Digits(res) && -1 <= i < |a| && -1 <= j < |b| && 0 <= carry <= 1
    requires s == carry + (if i >= 0 then DigitValue(a[i]) else 0) + (if j >= 0 then DigitValue(b[j]) else 0)
    requires SumSoFar(a, b, i, j, carry, res)
    ensures SumSoFar(a, b, if i >= 0 then i - 1 else i, if j >= 0 then j - 1 else j, s / 10, [DigitChar(s % 10)] + res)
  {
    var i', j' := if i >= 0 then i - 1 else i, if j >= 0 then j - 1 else j;
    LastDigit(a, i);
    LastDigit(b, j);
    var d := [DigitChar(s % 10)];
    ValJoin(d, res);
    assert Val(d) == s % 10;
    ColumnArithmetic(Val(a[..i' + 1]), Val(b[..j' + 1]), s, Pow10(|res|), Val(res),
                     Val(a[..i + 1]) + Val(b[..j + 1]) + carry);
  }

  lemma LastDigit(a: string, i: int)
    requires Digits(a) && -1 <= i < |a|
    ensures Val(a[..i + 1]) == if i >= 0 then 10 * Val(a[..i]) + DigitValue(a[i]) else 0
  {
    if i >= 0 {
      assert a[..i + 1][..i] == a[..i];
    }
  }

  lemma ColumnArithmetic(x: nat, y: nat, s: nat, p: nat, r: nat, left: nat)
    requires left == 10 * x + 10 * y + s
    ensures (x + y + s / 10) * (10 * p) + ((s % 10) * p + r) == left * p + r
  {
    var q := x + y + s / 10;
    assert left == 10 * q + s % 10;
    assert q * (10 * p) == (10 * q) * p;
  }

  /** The digits of a number, as std::to_string writes them. */
  function ToString(n: nat): (s: string)
    ensures Canonical(s) && Val(s) == n
  {
    if n < 10 then [DigitChar(n)]
    else
      var s := ToString(n / 10);
      assert (s + [DigitChar(n % 10)])[..|s|] == s;
      assert Val("0") == 0;
      s + [DigitChar(n % 10)]
  }

  class Number {
    var big: string

    ghost predicate Valid()
      reads this
    {
      Canonical(big)
    }

    ghost function Value(): nat
      requires Valid()
      reads this
    {
      Val(big)
    }

    constructor (n: nat)
      ensures Valid() && Value() == n
    {
      big := ToString(n);
    }

    constructor Copy(other: Number)
      requires other.Valid()
      ensures Valid() && big == other.big
    {
      big := other.big;
    }

    method AddAssign(other: Number)
      requires Valid() && other.Valid()
      modifies this
      ensures Valid() && Value() == old(Value()) + old(other.Value())
    {
      big := AddStrings(big, other.big);
    }

    method Plus(other: Number) returns (sum: Number)
      requires Valid() && other.Valid()
      ensures fresh(sum) && sum.Valid() && sum.Value() == Value() + other.Value()
    {
      sum := new Number.Copy(this);
      sum.AddAssign(other);
    }

    /** ++x */
    method Increment()
      requires Valid()
      modifies this
      ensures Valid() && Value() == old(Value()) + 1
    {
      var one := new Number(1);
      AddAssign(one);
    }

    /** x++ returns the number before. */
    method PostIncrement() returns (before: Number)
      requires Valid()
      modifies this
      ensures fresh(before) && before.Valid() && before.Value() == old(Value())
      ensures Valid() && Value() == old(Value()) + 1
    {
      before := new Number.Copy(this);
      Increment();
    }

    /** x <<= shift. The conversion of the shift to an int fails beyond the int
        range; the number is then left alone. */
    method ShiftLeftAssign(shift: Number) returns (converted: bool)
      requires Valid() && shift.Valid()
      modifies this
      ensures converted <==> old(shift.Value()) <= INT_MAX
      ensures Valid() && big == if converted then ShiftedLeft(old(big), old(shift.Value())) else old(big)
      ensures Value() == if converted then old(Value()) * Pow10(old(shift.Value())) else old(Value())
    {
      LeftShiftMultiplies(big, shift.Value());
      var n;
      converted, n := ToInt(shift.big);
      if !converted || big == "0" {
        return;
      }
      var count := n;
      while count != 0
        invariant 0 <= count <= n && big == old(big) + Zeros(n - count)
        decreases count
      {
        count := count - 1;
        assert Zeros(n - count) == Zeros(n - count - 1) + "0";
        big := big + "0";
      }
    }

    /** x >>= shift, with the same conversion. */
    method ShiftRightAssign(shift: Number) returns (converted: bool)
      requires Valid() && shift.Valid()
      modifies this
      ensures converted <==> old(shift.Value()) <= INT_MAX
      ensures Valid() && big == if converted then ShiftedRight(old(big), old(shift.Value())) else old(big)
      ensures Value() == if converted then old(Value()) / Pow10(old(shift.Value())) else old(Value())
    {
      RightShiftDivides(big, shift.Value());
      var n;
      converted, n := ToInt(shift.big);
      if !converted {
        return;
      }
      if n >= |big| {
        big := "0";
      } else {
        big := big[..|big| - n];
      }
      big := RemoveLeadingZeros(big);
    }

    predicate Less(other: Number)
      reads this, other
    {
      Shorter(big, other.big)
    }

    /** All six comparisons of the class are those of the numbers. */
    method Compare(other: Number) returns (lt: bool, le: bool, gt: bool, ge: bool, eq: bool, ne: bool)
      requires Valid() && other.Valid()
      ensures lt == (Value() < other.Value()) && le == (Value() <= other.Value())
      ensures gt == (Value() > other.Value()) && ge == (Value() >= other.Value())
      ensures eq == (Value() == other.Value()) && ne == (Value() != other.Value())
    {
      ComparisonIsNumeric(big, other.big);
      ComparisonIsNumeric(other.big, big);
      lt, gt := Less(other), other.Less(this);
      le, ge := !gt, !lt;
      eq := big == other.big;
      ne := !eq;
    }
  }

  /** std::stoi on a canonical digit string. */
  method ToInt(s: string) returns (fits: bool, n: nat)
    requires Canonical(s)
    ensures fits <==> Val(s) <= 2147483647
    ensures fits ==> n == Val(s)
  {
    n := 0;
    var i := 0;
    while i < |s|
      invariant 0 <= i <= |s| && n == Val(s[..i]) && n <= INT_MAX
    {
      LastDigit(s, i);
      n := 10 * n + DigitValue(s[i]);
      i := i + 1;
      if n > INT_MAX {
        PrefixIsSmaller(s, i);
        return false, 0;
      }
    }
    assert s[..i] == s;
    return true, n;
  }

  lemma {:induction false} PrefixIsSmaller(s: string, i: nat)
    requires Digits(s) && i <= |s|
    ensures Val(s[..i]) <= Val(s)
  {
    if i < |s| {
      PrefixIsSmaller(s[..|s| - 1], i);
      assert s[..|s| - 1][..i] == s[..i];
    } else {
      assert s[..i] == s;
    }
  }
}
