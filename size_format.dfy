/**
 * `sizeof_fmt` of ls.py: a byte count scaled by powers of 1024 and written
 * with one decimal digit, a unit letter and a suffix ("1536" gives "1.5KB").
 */
module SizeFormat {
  import opened Text

  /** The units walked through, one per division by 1024; "Y" follows them all. */
  const Units: seq<string> := ["", "K", "M", "G", "T", "P"]

  function Pow1024(k: nat): (p: nat)
    ensures p >= 1
    decreases k
  {
    if k == 0 then 1 else 1024 * Pow1024(k - 1)
  }

  lemma {:induction false} Pow1024Monotone(j: nat, k: nat)
    requires j <= k
    ensures Pow1024(j) <= Pow1024(k)
    decreases k
  {
    if j < k {
      Pow1024Monotone(j, k - 1);
    }
  }

  function Abs(n: int): nat {
    if n < 0 then -n else n
  }

  function AbsReal(x: real): real {
    if x < 0.0 then -x else x
  }

  /** The unit after `k` divisions. */
  function UnitName(k: nat): string {
    if k < |Units| then Units[k] else "Y"
  }

  /** The divisions still to come once `k` have been made. */
  function DivisionsFrom(n: int, k: nat): (d: nat)
    requires k <= |Units|
    ensures k <= d <= |Units|
    decreases |Units| - k
  {
    if k == |Units| || Abs(n) < Pow1024(k + 1) then k else DivisionsFrom(n, k + 1)
  }

  /**
   * How many times `sizeof_fmt` divides `n` by 1024 before it formats it:
   * |n| lies in [1024^d, 1024^(d+1)), except that the bytes have no lower
   * bound and "Y" no upper one.
   */
  function Divisions(n: int): (d: nat)
    ensures d <= |Units|
    ensures d < |Units| ==> Abs(n) < Pow1024(d + 1)
    ensures d > 0 ==> Abs(n) >= Pow1024(d)
  {
    DivisionsFromLeast(n, 0);
    DivisionsFrom(n, 0)
  }

  lemma {:induction false} DivisionsFromLeast(n: int, k: nat)
    requires k <= |Units|
    requires forall j :: 1 <= j <= k ==> Abs(n) >= Pow1024(j)
    ensures var d := DivisionsFrom(n, k);
      (d < |Units| ==> Abs(n) < Pow1024(d + 1)) &&
      forall j :: 1 <= j <= d ==> Abs(n) >= Pow1024(j)
    decreases |Units| - k
  {
    if k < |Units| && Abs(n) >= Pow1024(k + 1) {
      DivisionsFromLeast(n, k + 1);
    }
  }

  /**
   * The number of divisions is the least k below 6 with |n / 1024^k| < 1024,
   * and 6 (unit "Y") when there is none.
   */
  lemma DivisionsLeast(n: int)
    ensures var d := Divisions(n);
      d <= |Units| &&
      (d < |Units| ==> Abs(n) < Pow1024(d + 1)) &&
      forall j :: 1 <= j <= d ==> Abs(n) >= Pow1024(j)
  {
    DivisionsFromLeast(n, 0);
  }

  /** The same fact as a characterisation: a k is the number of divisions iff it brackets |n|. */
  lemma DivisionsCharacterised(n: int, k: nat)
    ensures Divisions(n) == k <==>
      k <= |Units| && (k < |Units| ==> Abs(n) < Pow1024(k + 1)) && (k > 0 ==> Abs(n) >= Pow1024(k))
  {
    DivisionsLeast(n);
    var d := Divisions(n);
    if k <= |Units| && (k < |Units| ==> Abs(n) < Pow1024(k + 1)) && (k > 0 ==> Abs(n) >= Pow1024(k)) {
      if d < k {
        Pow1024Monotone(d + 1, k);
      }
    }
  }

  /** The number `sizeof_fmt` formats: n / 1024^k for the number k of divisions. */
  function Scaled(n: int): real {
    n as real / Pow1024(Divisions(n)) as real
  }

  lemma ScaledBelow(n: int, p: nat)
    requires p >= 1
    ensures AbsReal(n as real / p as real) < 1024.0 <==> Abs(n) < 1024 * p
    ensures AbsReal(n as real / p as real) >= 1.0 <==> Abs(n) >= p
  {
    var x := n as real / p as real;
    var a := Abs(n) as real;
    var q := p as real;
    assert AbsReal(x) == a / q;
    DivBelow(a, q, 1024.0);
    DivBelow(a, q, 1.0);
  }

  lemma DivBelow(a: real, q: real, c: real)
    requires q > 0.0
    ensures a / q < c <==> a < c * q
  {
    assert (a / q) * q == a;
    if a / q < c {
      assert (a / q) * q < c * q;
    } else {
      assert (a / q) * q >= c * q;
    }
  }

  /** The formatted number lies in [1, 1024), except that bytes may be below 1 and "Y" has no bound. */
  lemma ScaledRange(n: int)
    ensures Divisions(n) < |Units| ==> AbsReal(Scaled(n)) < 1024.0
    ensures Divisions(n) > 0 ==> AbsReal(Scaled(n)) >= 1.0
  {
    DivisionsLeast(n);
    var d := Divisions(n);
    ScaledBelow(n, Pow1024(d));
  }

  /** The integer nearest to 10 * v, ties to the even one: what Python's ".1f" keeps. */
  function TenthsRounded(v: real): (t: int)
    ensures AbsReal(10.0 * v - t as real) <= 0.5
    ensures AbsReal(10.0 * v - t as real) == 0.5 ==> t % 2 == 0
  {
    var y := 10.0 * v;
    var f := y.Floor;
    var frac := y - f as real;
    if frac < 0.5 then f else if frac > 0.5 then f + 1 else if f % 2 == 0 then f else f + 1
  }

  /** `f"{v:.1f}"`: sign, integer digits, a point and one digit. */
  function FixedOne(v: real): (s: string)
    ensures |s| >= 3 && s[|s| - 2] == '.' && IsDigit(s[|s| - 1])
    ensures (s[0] == '-') == (v < 0.0)
    ensures forall i :: (if v < 0.0 then 1 else 0) <= i < |s| - 2 ==> IsDigit(s[i])
    ensures var d := if v < 0.0 then 1 else 0; s[d] == '0' ==> d + 1 == |s| - 2
  {
    var m := Abs(TenthsRounded(v));
    var sign := if v < 0.0 then "-" else "";
    var whole := NatText(m / 10);
    assert (sign + whole + "." + [DigitChar(m % 10)])[|sign|] == whole[0];
    assert whole[0] == '0' ==> whole == "0";
    sign + whole + "." + [DigitChar(m % 10)]
  }

  /** The digits of `FixedOne(v)`, read as a decimal, are the rounded tenths of |v|. */
  lemma FixedOneDenotes(v: real)
    ensures var s := FixedOne(v);
      var digits := if v < 0.0 then s[1..] else s;
      10 * DigitsValue(digits[..|digits| - 2]) + DigitsValue(digits[|digits| - 1..]) ==
        Abs(TenthsRounded(v))
  {
    var m := Abs(TenthsRounded(v));
    var s := FixedOne(v);
    var digits := if v < 0.0 then s[1..] else s;
    assert digits == NatText(m / 10) + "." + [DigitChar(m % 10)];
    assert digits[..|digits| - 2] == NatText(m / 10);
    assert digits[|digits| - 1..] == [DigitChar(m % 10)];
    DigitsValueOfNatText(m / 10);
    assert [DigitChar(m % 10)][..0] == [];
  }

  /**
   * What `sizeof_fmt(n, suffix)` returns: a number with one decimal digit,
   * then the chosen unit and the suffix.
   */
  function SizeText(n: int, suffix: string): (s: string)
    ensures var tail := UnitName(Divisions(n)) + suffix;
      |s| >= |tail| + 3 && s[|s| - |tail|..] == tail &&
      s[|s| - |tail| - 2] == '.' && IsDigit(s[|s| - |tail| - 1])
  {
    FixedOne(Scaled(n)) + UnitName(Divisions(n)) + suffix
  }

  /** 0 and 1023 bytes stay in bytes. */
  lemma SizeTextBytes()
    ensures SizeText(0, "B") == "0.0B"
    ensures SizeText(1023, "B") == "1023.0B"
  {
    assert Divisions(0) == 0 && Scaled(0) == 0.0;
    assert TenthsRounded(0.0) == 0;
    assert FixedOne(0.0) == "0.0";
    assert Divisions(1023) == 0 && Scaled(1023) == 1023.0;
    assert TenthsRounded(1023.0) == 10230;
    assert NatText(1023) == "1023";
    assert FixedOne(1023.0) == "1023.0";
  }

  /** 1024 and 1536 bytes are shown in KB. */
  lemma SizeTextKilo()
    ensures SizeText(1024, "B") == "1.0KB"
    ensures SizeText(1536, "B") == "1.5KB"
  {
    assert Divisions(1024) == 1 && Scaled(1024) == 1.0;
    assert TenthsRounded(1.0) == 10;
    assert FixedOne(1.0) == "1.0";
    assert Divisions(1536) == 1 && Scaled(1536) == 1.5;
    assert TenthsRounded(1.5) == 15;
    assert FixedOne(1.5) == "1.5";
  }

  /** 1024^4 bytes is one TB. */
  lemma SizeTextTera()
    ensures SizeText(1099511627776, "B") == "1.0TB"
  {
    var n := 1099511627776;
    assert Pow1024(2) == 1048576 by {
      assert Pow1024(1) == 1024;
    }
    assert Pow1024(4) == n by {
      assert Pow1024(3) == 1073741824;
    }
    assert Pow1024(5) == 1024 * n;
    DivisionsCharacterised(n, 4);
    assert Scaled(n) == 1.0;
    assert TenthsRounded(1.0) == 10;
    assert FixedOne(1.0) == "1.0";
    assert UnitName(4) == "T";
  }

  /**
   * The bound of `ScaledRange` is on the unrounded number: 1048575 bytes stay
   * in KB, where 1048575 / 1024 = 1023.999..., which `:.1f` rounds up.
   */
  lemma SizeTextRoundsUp(n: int)
    requires n == 1048575
    ensures Divisions(n) == 1 && AbsReal(Scaled(n)) < 1024.0
    ensures SizeText(n, "B") == "1024.0KB"
  {
    assert Pow1024(2) == 1048576 by {
      assert Pow1024(1) == 1024;
    }
    DivisionsCharacterised(n, 1);
    var x := Scaled(n);
    assert x == 1048575.0 / 1024.0;
    ScaledRange(n);
    var y := 10.0 * x;
    assert 10239.0 < y < 10240.0;
    assert y.Floor == 10239;
    assert TenthsRounded(x) == 10240;
    assert NatText(1024) == "1024" by {
      assert NatText(102) == "102" by {
        assert NatText(10) == "10";
      }
    }
    assert FixedOne(x) == "1024.0";
    assert UnitName(1) == "K";
  }

  /** Dividing n / 1024^k once more by 1024 gives n / 1024^(k+1). */
  lemma DivideOnce(n: int, k: nat)
    ensures (n as real / Pow1024(k) as real) / 1024.0 == n as real / Pow1024(k + 1) as real
  {
    var p := Pow1024(k) as real;
    var y := n as real / p;
    assert Pow1024(k + 1) as real == 1024.0 * p;
    assert y * p == n as real;
    assert (y / 1024.0) * (1024.0 * p) == y * p;
  }

  /** A loop of `sizeof_fmt` that stops at unit k formats exactly `SizeText`. */
  lemma StopAt(num: int, k: nat, suffix: string)
    requires k < |Units| && DivisionsFrom(num, k) == Divisions(num)
    requires AbsReal(num as real / Pow1024(k) as real) < 1024.0
    ensures FixedOne(num as real / Pow1024(k) as real) + Units[k] + suffix == SizeText(num, suffix)
  {
    ScaledBelow(num, Pow1024(k));
    assert Pow1024(k + 1) == 1024 * Pow1024(k);
    assert DivisionsFrom(num, k) == k;
  }

  /** A loop of `sizeof_fmt` that goes past unit k has one more division still to come. */
  lemma GoPast(num: int, k: nat)
    requires k < |Units| && DivisionsFrom(num, k) == Divisions(num)
    requires AbsReal(num as real / Pow1024(k) as real) >= 1024.0
    ensures DivisionsFrom(num, k + 1) == Divisions(num)
    ensures (num as real / Pow1024(k) as real) / 1024.0 == num as real / Pow1024(k + 1) as real
  {
    ScaledBelow(num, Pow1024(k));
    assert Pow1024(k + 1) == 1024 * Pow1024(k);
    DivideOnce(num, k);
  }

  /** After all six units the number is formatted with "Y". */
  lemma PastAll(num: int, suffix: string)
    requires DivisionsFrom(num, |Units|) == Divisions(num)
    ensures FixedOne(num as real / Pow1024(|Units|) as real) + "Y" + suffix == SizeText(num, suffix)
  {
  }

  /**
   * `sizeof_fmt`: divide by 1024 while the magnitude is at least 1024 and a
   * unit remains, then format. Exact for |num| <= 2^53, the range in which the
   * division of a Python float by 1024 is exact.
   */
  method SizeOf(num: int, suffix: string) returns (text: string)
    ensures text == SizeText(num, suffix)
  {
    var x := num as real;
    for i := 0 to |Units|
      invariant x == num as real / Pow1024(i) as real
      invariant DivisionsFrom(num, i) == Divisions(num)
    {
      if AbsReal(x) < 1024.0 {
        StopAt(num, i, suffix);
        text := FixedOne(x) + Units[i] + suffix;
        return;
      }
      GoPast(num, i);
      x := x / 1024.0;
    }
    PastAll(num, suffix);
    text := FixedOne(x) + "Y" + suffix;
  }
}
