/** The adder that reverses its operands, pads the shorter one and never clears
    its carry (pracprac/practice05/level0/bigint/bigint.cpp): what it computes,
    and the exact operands on which that is the sum. */
module PaddedAdder {
  import opened Common
  import opened Decimal

  ghost function Reversed(s: string): (r: string)
    ensures |r| == |s| && forall k :: 0 <= k < |s| ==> r[k] == s[|s| - 1 - k]
  {
    seq(|s|, k requires 0 <= k < |s| => s[|s| - 1 - k])
  }

  /** The number a digit string stands for when its first digit counts least. */
  ghost function LowFirst(x: string): nat
    requires Digits(x)
  {
    if x == "" then 0 else DigitValue(x[0]) + 10 * LowFirst(x[1..])
  }

  /** What the column loop writes. After a column beyond nine the carry stays set,
      also when a later column produces none. */
  ghost function Columns(x: string, y: string, carry: nat): (out: string)
    requires Digits(x) && Digits(y) && |x| == |y| && carry <= 1
    ensures Digits(out)
  {
    if x == "" then
      if carry != 0 then [DigitChar(carry)] else ""
    else
      var res := DigitValue(x[0]) + DigitValue(y[0]) + carry;
      if res > 9 then [DigitChar(res % 10)] + Columns(x[1..], y[1..], res / 10)
      else [DigitChar(res)] + Columns(x[1..], y[1..], carry)
  }

  /** By how much the columns exceed the sum: one unit above every column that
      the carry entered and that did not produce one. */
  ghost function Excess(x: string, y: string, carry: nat): nat
    requires Digits(x) && Digits(y) && |x| == |y| && carry <= 1
  {
    if x == "" then 0
    else if DigitValue(x[0]) + DigitValue(y[0]) + carry > 9 then 10 * Excess(x[1..], y[1..], 1)
    else 10 * (carry + Excess(x[1..], y[1..], carry))
  }

  lemma {:induction false} ColumnsValue(x: string, y: string, carry: nat)
    requires Digits(x) && Digits(y) && |x| == |y| && carry <= 1
    ensures LowFirst(Columns(x, y, carry)) == LowFirst(x) + LowFirst(y) + carry + Excess(x, y, carry)
  {
    if x != "" {
      var res := DigitValue(x[0]) + DigitValue(y[0]) + carry;
      var next := if res > 9 then 1 else carry;
      ColumnsValue(x[1..], y[1..], next);
      assert Columns(x, y, carry)[1..] == Columns(x[1..], y[1..], next);
    } else if carry != 0 {
      assert Columns(x, y, carry)[1..] == "";
    }
  }

  /** Column `i` of the addition, without a carry. */
  ghost function ColumnSum(x: string, y: string, i: nat): nat
    requires Digits(x) && Digits(y) && |x| == |y| && i < |x|
  {
    DigitValue(x[i]) + DigitValue(y[i])
  }

  /** Once a column goes beyond nine, every later one is at least nine. */
  ghost predicate CarriesNeverStop(x: string, y: string)
    requires Digits(x) && Digits(y) && |x| == |y|
  {
    forall i, m :: 0 <= i < m < |x| && ColumnSum(x, y, i) > 9 ==> ColumnSum(x, y, m) >= 9
  }

  lemma {:induction false} NoExcessWithCarry(x: string, y: string)
    requires Digits(x) && Digits(y) && |x| == |y|
    ensures Excess(x, y, 1) == 0 <==> forall m :: 0 <= m < |x| ==> ColumnSum(x, y, m) >= 9
  {
    if x == "" {
    } else {
      var x1, y1 := x[1..], y[1..];
      NoExcessWithCarry(x1, y1);
      assert forall m :: 0 <= m < |x1| ==> ColumnSum(x1, y1, m) == ColumnSum(x, y, m + 1);
      assert forall m :: 1 <= m < |x| ==> ColumnSum(x, y, m) == ColumnSum(x1, y1, m - 1);
      assert ColumnSum(x, y, 0) == DigitValue(x[0]) + DigitValue(y[0]);
    }
  }

  lemma {:induction false} NoExcessIff(x: string, y: string)
    requires Digits(x) && Digits(y) && |x| == |y|
    ensures Excess(x, y, 0) == 0 <==> CarriesNeverStop(x, y)
  {
    if x == "" {
    } else {
      NoExcessIff(x[1..], y[1..]);
      NoExcessWithCarry(x[1..], y[1..]);
      ShiftColumns(x, y);
    }
  }

  lemma ShiftColumns(x: string, y: string)
    requires Digits(x) && Digits(y) && |x| == |y| && x != ""
    ensures CarriesNeverStop(x, y) <==>
      && CarriesNeverStop(x[1..], y[1..])
      && (ColumnSum(x, y, 0) > 9 ==> forall m :: 0 <= m < |x| - 1 ==> ColumnSum(x[1..], y[1..], m) >= 9)
  {
    var x1, y1 := x[1..], y[1..];
    assert forall m :: 0 <= m < |x1| ==> ColumnSum(x1, y1, m) == ColumnSum(x, y, m + 1);
    if CarriesNeverStop(x, y) {
      forall i, m | 0 <= i < m < |x1| && ColumnSum(x1, y1, i) > 9 ensures ColumnSum(x1, y1, m) >= 9 {
        assert ColumnSum(x, y, i + 1) > 9 && ColumnSum(x, y, m + 1) >= 9;
      }
    }
    if CarriesNeverStop(x1, y1) &&
        (ColumnSum(x, y, 0) > 9 ==> forall m :: 0 <= m < |x1| ==> ColumnSum(x1, y1, m) >= 9) {
      forall i, m | 0 <= i < m < |x| && ColumnSum(x, y, i) > 9 ensures ColumnSum(x, y, m) >= 9 {
        assert ColumnSum(x, y, m) == ColumnSum(x1, y1, m - 1);
        if i > 0 {
          assert ColumnSum(x, y, i) == ColumnSum(x1, y1, i - 1);
        }
      }
    }
  }

  // ----- from the right end of the operands -----

  lemma {:induction false} LowFirstIsVal(s: string)
    requires Digits(s)
    ensures Digits(Reversed(s)) && LowFirst(Reversed(s)) == Val(s)
  {
    if s == "" {
    } else {
      LowFirstIsVal(s[..|s| - 1]);
      assert Reversed(s)[1..] == Reversed(s[..|s| - 1]);
    }
  }

  lemma {:induction false} PaddingKeepsValue(x: string, n: nat)
    requires Digits(x)
    ensures LowFirst(x + Zeros(n)) == LowFirst(x)
  {
    if x != "" {
      assert (x + Zeros(n))[1..] == x[1..] + Zeros(n);
      PaddingKeepsValue(x[1..], n);
    } else {
      assert x + Zeros(n) == Zeros(n);
      if n > 0 {
        assert Zeros(n)[1..] == "" + Zeros(n - 1);
        PaddingKeepsValue("", n - 1);
      }
    }
  }

  function Longer(a: string, b: string): nat {
    if |a| >= |b| then |a| else |b|
  }

  /** An operand as the loop sees it: reversed and padded to the longer length. */
  ghost function Operand(s: string, len: nat): (x: string)
    requires Digits(s) && |s| <= len
    ensures Digits(x) && |x| == len
  {
    Reversed(s) + Zeros(len - |s|)
  }

  lemma OperandValue(s: string, len: nat)
    requires Digits(s) && |s| <= len
    ensures LowFirst(Operand(s, len)) == Val(s)
  {
    LowFirstIsVal(s);
    PaddingKeepsValue(Reversed(s), len - |s|);
  }

  lemma ReversedValue(out: string)
    requires Digits(out)
    ensures Val(Reversed(out)) == LowFirst(out)
  {
    LowFirstIsVal(Reversed(out));
    assert Reversed(Reversed(out)) == out;
  }

  /** The string the adder returns. */
  ghost function Added(a: string, b: string): (s: string)
    requires Digits(a) && Digits(b)
    ensures Digits(s)
  {
    Reversed(Columns(Operand(a, Longer(a, b)), Operand(b, Longer(a, b)), 0))
  }

  ghost predicate AddsRight(a: string, b: string)
    requires Digits(a) && Digits(b)
  {
    CarriesNeverStop(Operand(a, Longer(a, b)), Operand(b, Longer(a, b)))
  }

  /** The result is the sum plus the excess, for all operands. */
  lemma AddedValue(a: string, b: string)
    requires Digits(a) && Digits(b)
    ensures Val(Added(a, b)) == Val(a) + Val(b) + Excess(Operand(a, Longer(a, b)), Operand(b, Longer(a, b)), 0)
  {
    var len := Longer(a, b);
    OperandValue(a, len);
    OperandValue(b, len);
    ColumnsValue(Operand(a, len), Operand(b, len), 0);
    ReversedValue(Columns(Operand(a, len), Operand(b, len), 0));
  }

  /** The adder never falls short, and it is right exactly when carries never stop. */
  lemma RightIff(a: string, b: string)
    requires Digits(a) && Digits(b)
    ensures Val(Added(a, b)) >= Val(a) + Val(b)
    ensures Val(Added(a, b)) == Val(a) + Val(b) <==> AddsRight(a, b)
  {
    AddedValue(a, b);
    NoExcessIff(Operand(a, Longer(a, b)), Operand(b, Longer(a, b)));
  }

  lemma {:induction false} LastColumn(x: string, y: string, carry: nat)
    requires Digits(x) && Digits(y) && |x| == |y| && carry <= 1 && x != ""
    requires DigitValue(x[|x| - 1]) + DigitValue(y[|y| - 1]) > 0
    ensures var out := Columns(x, y, carry); out != "" && out[|out| - 1] != '0'
  {
    var res := DigitValue(x[0]) + DigitValue(y[0]) + carry;
    var next := if res > 9 then 1 else carry;
    var rest := Columns(x[1..], y[1..], next);
    assert Columns(x, y, carry)[1..] == rest;
    if |x| > 1 {
      LastColumn(x[1..], y[1..], next);
    } else if next == 0 {
      assert rest == "";
    }
  }

  /** On canonical operands the result has no leading zero either. */
  lemma AddedIsCanonical(a: string, b: string)
    requires Canonical(a) && Canonical(b)
    ensures Canonical(Added(a, b))
  {
    var len := Longer(a, b);
    var x, y := Operand(a, len), Operand(b, len);
    var out := Columns(x, y, 0);
    assert |a| == len ==> x[len - 1] == a[0];
    assert |b| == len ==> y[len - 1] == b[0];
    if len > 1 {
      LastColumn(x, y, 0);
    } else {
      assert x[1..] == "" && y[1..] == "";
      if DigitValue(x[0]) + DigitValue(y[0]) > 0 {
        LastColumn(x, y, 0);
      } else {
        assert Columns(x[1..], y[1..], 0) == "";
      }
    }
  }

  /** On canonical operands the adder returns the same string as any adder that is
      right, such as the one of the other bigint class, exactly when carries never stop. */
  lemma SameStringIff(a: string, b: string, sum: string)
    requires Canonical(a) && Canonical(b)
    requires Canonical(sum) && Val(sum) == Val(a) + Val(b)
    ensures Added(a, b) == sum <==> AddsRight(a, b)
  {
    AddedIsCanonical(a, b);
    RightIff(a, b);
    ComparisonIsNumeric(Added(a, b), sum);
  }

  /** Fifteen and twenty-seven: the second column keeps the carry of the first one. */
  lemma WrongExample()
    ensures Val("15") + Val("27") == 42 && Val(Added("15", "27")) == 142
  {
    WrongExampleColumns();
    assert Operand("15", 2) == "51" && Operand("27", 2) == "72";
    AddedValue("15", "27");
    assert "15"[..1] == "1" && "27"[..1] == "2" && "1"[..0] == "" && "2"[..0] == "";
    assert Val("1") == 1 && Val("2") == 2;
  }

  lemma WrongExampleColumns()
    ensures Excess("51", "72", 0) == 100
  {
    assert "51"[1..] == "1" && "72"[1..] == "2" && "1"[1..] == "" && "2"[1..] == "";
    assert Excess("1", "2", 1) == 10 * (1 + Excess("", "", 1));
  }

  // ----- the program -----

  method Reverse(s: string) returns (revStr: string)
    ensures revStr == Reversed(s)
  {
    revStr := "";
    var i := |s|;
    while i > 0
      invariant 0 <= i <= |s|
      invariant |revStr| == |s| - i && forall k :: 0 <= k < |revStr| ==> revStr[k] == s[|s| - 1 - k]
    {
      revStr := revStr + [s[i - 1]];
      i := i - 1;
    }
  }

  method Pad(s: string, diff: nat) returns (t: string)
    ensures t == s + Zeros(diff)
  {
    t := s;
    var d := diff;
    while d > 0
      invariant 0 <= d <= diff && t == s + Zeros(diff - d)
    {
      d := d - 1;
      assert Zeros(diff - d) == Zeros(diff - d - 1) + "0";
      t := t + "0";
    }
  }

  method Addition(a: string, b: string) returns (sum: string)
    requires Digits(a) && Digits(b)
    ensures sum == Added(a, b)
  {
    var str1 := Reverse(a);
    var str2 := Reverse(b);
    if |str1| > |str2| {
      str2 := Pad(str2, |str1| - |str2|);
    } else if |str2| > |str1| {
      str1 := Pad(str1, |str2| - |str1|);
    }
    assert str1 == Operand(a, Longer(a, b)) && str2 == Operand(b, Longer(a, b));
    var result := AddColumns(str1, str2);
    sum := Reverse(result);
  }

  /** The column loop, and the last carry behind it. */
  method AddColumns(str1: string, str2: string) returns (result: string)
    requires Digits(str1) && Digits(str2) && |str1| == |str2|
    ensures result == Columns(str1, str2, 0)
  {
    result := "";
    var carry := 0;
    var i := 0;
    assert str1[0..] == str1 && str2[0..] == str2;
    while i < |str1|
      invariant 0 <= i <= |str1| && 0 <= carry <= 1
      invariant result + Columns(str1[i..], str2[i..], carry) == Columns(str1, str2, 0)
    {
      var res := DigitValue(str1[i]) + DigitValue(str2[i]) + carry;
      ghost var x, y := str1[i..], str2[i..];
      assert x[1..] == str1[i + 1..] && y[1..] == str2[i + 1..] && x[0] == str1[i] && y[0] == str2[i];
      if res > 9 {
        Assoc(result, [DigitChar(res % 10)], Columns(x[1..], y[1..], res / 10));
        carry := res / 10;
        result := result + [DigitChar(res % 10)];
      } else {
        Assoc(result, [DigitChar(res)], Columns(x[1..], y[1..], carry));
        result := result + [DigitChar(res)];
      }
      i := i + 1;
    }
    if carry != 0 {
      result := result + [DigitChar(carry)];
    }
  }
}
