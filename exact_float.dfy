/** `ExactFloat` and `ExactFloatComparer`: a decimal price or volume string held as an integer
    and a count of scaled-down decimal places, compared without rounding. */
module ExactFloats {
  import opened Wrappers
  import opened Numbers
  import opened Text

  /** The value is `integer / 10^negativeExponent`. */
  datatype ExactFloat = ExactFloat(integer: int, negativeExponent: nat)

  /** The exponent the constructor stores: the length of the text from the point onwards,
      which is one more than the number of fractional digits; zero for a point at index 0,
      and one more than the length for text with no point at all. */
  function ExponentOf(s: string): (e: nat)
    ensures IndexOf(s, '.') >= 1 ==> e == |s[IndexOf(s, '.') + 1..]| + 1
    ensures '.' !in s ==> e == |s| + 1
  {
    var pos := IndexOf(s, '.');
    if pos == 0 then 0 else |s| - pos
  }

  /** `new ExactFloat(value)`: the digits with every point dropped, read as an integer;
      `Failure` where `long.Parse` throws. */
  function Parse(s: string): (r: Result<ExactFloat>)
    ensures r.Success? <==> IsIntegerText(RemoveAll(s, '.'))
    ensures r.Success? ==> '.' !in s ==> r.value.negativeExponent == |s| + 1
    ensures r.Success? && IndexOf(s, '.') == 0 ==> r.value.negativeExponent == 0
  {
    match ParseLong(RemoveAll(s, '.'))
    case None => Failure("long.Parse")
    case Some(n) => Success(ExactFloat(n, ExponentOf(s)))
  }

  /** `IntPow`: exponentiation by squaring. The loop halts only for a non-negative exponent,
      which is all the comparer passes it. */
  method IntPow(x: int, pow: int) returns (r: int)
    requires pow >= 0
    ensures r == Pow(x, pow)
  {
    r := 1;
    var base := x;
    var p := pow;
    while p != 0
      invariant p >= 0
      invariant r * Pow(base, p) == Pow(x, pow)
      decreases p
    {
      PowSquare(base, p);
      var odd := if p % 2 == 1 then base else 1;
      assert r * Pow(base, p) == (r * odd) * Pow(base * base, p / 2);
      if p % 2 == 1 {
        r := r * base;
      }
      base := base * base;
      p := p / 2;
    }
  }

  /** `long.CompareTo` and `int.CompareTo`. */
  function CompareInt(a: int, b: int): (r: int)
    ensures r == -1 <==> a < b
    ensures r == 0 <==> a == b
    ensures r == 1 <==> a > b
  {
    if a < b then -1 else if a == b then 0 else 1
  }

  /** `ExactFloatComparer.Compare`: scale the operand with fewer decimal places up to the
      other's exponent and compare the integers. The result is the sign of the cross product,
      which is how two fractions over positive denominators are ordered. */
  function Compare(x: ExactFloat, y: ExactFloat): (r: int)
    ensures r == CompareInt(x.integer * Pow(10, y.negativeExponent), y.integer * Pow(10, x.negativeExponent))
  {
    var ex := x.negativeExponent;
    var ey := y.negativeExponent;
    match CompareInt(ey, ex)
    case 1 =>
      ScaledCross(x.integer, y.integer, ex, ey - ex);
      CompareInt(x.integer * Pow(10, ey - ex), y.integer)
    case -1 =>
      ScaledCross(y.integer, x.integer, ey, ex - ey);
      CompareInt(x.integer, y.integer * Pow(10, ex - ey))
    case _ =>
      PowOfTenPositive(ex);
      MulPositive(x.integer, y.integer, Pow(10, ex));
      CompareInt(x.integer, y.integer)
  }

  /** Multiplying both sides of a comparison by the same positive power of ten keeps it. */
  lemma ScaledCross(a: int, b: int, e: nat, d: nat)
    ensures CompareInt(a * Pow(10, e + d), b * Pow(10, e)) == CompareInt(a * Pow(10, d), b)
    ensures CompareInt(b * Pow(10, e), a * Pow(10, e + d)) == CompareInt(b, a * Pow(10, d))
  {
    PowAdd(10, e, d);
    PowOfTenPositive(e);
    var p := Pow(10, e);
    assert a * Pow(10, e + d) == (a * Pow(10, d)) * p;
    assert b * p == b * p;
    MulPositive(a * Pow(10, d), b, p);
  }

  lemma MulPositive(a: int, b: int, p: int)
    requires p > 0
    ensures a * p < b * p <==> a < b
    ensures a * p == b * p <==> a == b
  {
    if a < b {
      assert b * p - a * p == (b - a) * p;
    } else if a > b {
      assert a * p - b * p == (a - b) * p;
    }
  }

  /** The rational number an `ExactFloat` stands for. */
  function Value(x: ExactFloat): real
  {
    PowOfTenPositive(x.negativeExponent);
    x.integer as real / Pow(10, x.negativeExponent) as real
  }

  lemma RealCross(a: int, b: int, p: int, q: int)
    requires p > 0 && q > 0
    ensures (a as real / p as real < b as real / q as real) <==> a * q < b * p
    ensures (a as real / p as real == b as real / q as real) <==> a * q == b * p
  {
    var x := a as real / p as real;
    var y := b as real / q as real;
    assert x * p as real == a as real;
    assert y * q as real == b as real;
    assert (a * q) as real == x * (p as real * q as real);
    assert (b * p) as real == y * (p as real * q as real);
  }

  /** The comparer orders exactly as the rational values do: it is exact. */
  lemma CompareIsValueOrder(x: ExactFloat, y: ExactFloat)
    ensures Compare(x, y) == -1 <==> Value(x) < Value(y)
    ensures Compare(x, y) == 0 <==> Value(x) == Value(y)
    ensures Compare(x, y) == 1 <==> Value(x) > Value(y)
  {
    PowOfTenPositive(x.negativeExponent);
    PowOfTenPositive(y.negativeExponent);
    RealCross(x.integer, y.integer, Pow(10, x.negativeExponent), Pow(10, y.negativeExponent));
    RealCross(y.integer, x.integer, Pow(10, y.negativeExponent), Pow(10, x.negativeExponent));
  }

  /** Every value equals itself under the comparer. */
  lemma CompareReflexive(x: ExactFloat)
    ensures Compare(x, x) == 0
  {
  }

  lemma CompareAntisymmetric(x: ExactFloat, y: ExactFloat)
    ensures Compare(x, y) == -Compare(y, x)
  {
    CompareIsValueOrder(x, y);
    CompareIsValueOrder(y, x);
  }

  lemma CompareTransitive(x: ExactFloat, y: ExactFloat, z: ExactFloat)
    requires Compare(x, y) <= 0 && Compare(y, z) <= 0
    ensures Compare(x, z) <= 0
    ensures Compare(x, y) < 0 || Compare(y, z) < 0 ==> Compare(x, z) < 0
  {
    CompareIsValueOrder(x, y);
    CompareIsValueOrder(y, z);
    CompareIsValueOrder(x, z);
  }

  /** The value a decimal text `i.f` denotes. */
  function DecimalValue(i: string, f: string): real
    requires AllDigits(i) && AllDigits(f)
  {
    PowOfTenPositive(|f|);
    DigitsValue(i) as real + DigitsValue(f) as real / Pow(10, |f|) as real
  }

  lemma NoPointIn(s: string)
    requires AllDigits(s)
    ensures '.' !in s
  {
    forall k | 0 <= k < |s| ensures s[k] != '.' {
      assert IsDigit(s[k]);
    }
  }

  lemma {:induction false} RemoveAllDigitsPoint(i: string, f: string)
    requires AllDigits(i) && AllDigits(f)
    ensures RemoveAll(i + "." + f, '.') == i + f
  {
    var s := i + "." + f;
    if i == [] {
      assert s == ['.'] + f;
      assert s[0] == '.' && s[1..] == f;
      NoPointIn(f);
    } else {
      assert s[0] == i[0];
      assert s[1..] == i[1..] + "." + f;
      assert IsDigit(i[0]);
      RemoveAllDigitsPoint(i[1..], f);
      assert i + f == [i[0]] + (i[1..] + f);
    }
  }

  /** A decimal with a point after at least one digit: the integer is all its digits and the
      exponent one more than the number of fractional digits. */
  lemma ParseDecimal(i: string, f: string)
    requires |i| > 0 && AllDigits(i) && AllDigits(f)
    ensures AllDigits(i + f)
    ensures Parse(i + "." + f) == Success(ExactFloat(DigitsValue(i + f), |f| + 1))
  {
    var s := i + "." + f;
    assert IndexOf(s, '.') == |i| by {
      assert s[|i|] == '.';
      assert s[..|i|] == i;
      NoPointIn(i);
    }
    assert ExponentOf(s) == |f| + 1;
    RemoveAllDigitsPoint(i, f);
    DigitsValueAppend(i, f);
    assert ParseLong(i + f) == Some(DigitsValue(i + f)) by {
      assert (i + f)[0] == i[0];
      assert IsDigit(i[0]);
    }
  }

  /** The parsed value of `i.f` is a tenth of the decimal's own value, the factor the stored
      exponent adds; a common factor, so it leaves comparisons between such texts exact. */
  lemma ValueDecimal(i: string, f: string)
    requires |i| > 0 && AllDigits(i) && AllDigits(f)
    ensures Parse(i + "." + f).Success?
    ensures Value(Parse(i + "." + f).value) == DecimalValue(i, f) / 10.0
  {
    ParseDecimal(i, f);
    DigitsValueAppend(i, f);
    var p := Pow(10, |f|);
    PowOfTenPositive(|f|);
    assert Pow(10, |f| + 1) == p * 10 by { PowAdd(10, |f|, 1); }
    var n := DigitsValue(i + f);
    assert n == DigitsValue(i) * p + DigitsValue(f);
    ShiftedFraction(DigitsValue(i), DigitsValue(f), p);
  }

  lemma ShiftedFraction(a: int, b: int, p: int)
    requires p > 0
    ensures (a * p + b) as real / (p * 10) as real == (a as real + b as real / p as real) / 10.0
  {
    var pr := p as real;
    assert (a * p + b) as real == a as real * pr + b as real;
    assert (p * 10) as real == pr * 10.0;
    assert (a as real + b as real / pr) * (pr * 10.0) == (a as real * pr + b as real) * 10.0;
  }

  /** Denoting the same decimal, texts compare equal; ordered decimals compare in order. */
  lemma CompareDecimals(i: string, f: string, i': string, f': string)
    requires |i| > 0 && AllDigits(i) && AllDigits(f)
    requires |i'| > 0 && AllDigits(i') && AllDigits(f')
    ensures Parse(i + "." + f).Success? && Parse(i' + "." + f').Success?
    ensures Compare(Parse(i + "." + f).value, Parse(i' + "." + f').value) == CompareReal(DecimalValue(i, f), DecimalValue(i', f'))
  {
    ValueDecimal(i, f);
    ValueDecimal(i', f');
    CompareIsValueOrder(Parse(i + "." + f).value, Parse(i' + "." + f').value);
  }

  /** The expected column of the comparer's test table: the three-way order of the rational
      values the two texts denote. `CompareInt` is the source's integer `CompareTo`; this one is
      over `real`, a different type, and is the independent reference `Compare` is proved against. */
  function CompareReal(a: real, b: real): (r: int)
    ensures r == -1 <==> a < b
    ensures r == 0 <==> a == b
    ensures r == 1 <==> a > b
  {
    if a < b then -1 else if a == b then 0 else 1
  }

  /** A leading zero changes neither the stored integer nor the exponent: `"0123.0"` and
      `"123.0"` are the same `ExactFloat`. */
  lemma ParseLeadingZero(i: string, f: string)
    requires |i| > 0 && AllDigits(i) && AllDigits(f)
    ensures Parse("0" + i + "." + f) == Parse(i + "." + f)
  {
    ParseDecimal(i, f);
    assert AllDigits("0" + i);
    ParseDecimal("0" + i, f);
    DigitsValueLeadingZero(i + f);
    assert "0" + i + f == "0" + (i + f);
    assert "0" + i + "." + f == ("0" + i) + "." + f;
  }

  /** A trailing zero after the point keeps the value: `"123.10"` compares equal to `"123.1"`. */
  lemma ParseTrailingZero(i: string, f: string)
    requires |i| > 0 && AllDigits(i) && AllDigits(f)
    ensures Parse(i + "." + f + "0").Success? && Parse(i + "." + f).Success?
    ensures Compare(Parse(i + "." + f + "0").value, Parse(i + "." + f).value) == 0
  {
    assert AllDigits(f + "0");
    assert i + "." + f + "0" == i + "." + (f + "0");
    CompareDecimals(i, f + "0", i, f);
    DecimalTrailingZero(i, f);
  }

  lemma DecimalTrailingZero(i: string, f: string)
    requires AllDigits(i) && AllDigits(f)
    ensures AllDigits(f + "0") && DecimalValue(i, f + "0") == DecimalValue(i, f)
  {
    DigitsValueAppend(f, "0");
    assert DigitsValue("0") == 0 by { assert "0"[..0] == []; }
    assert Pow(10, |f| + 1) == Pow(10, |f|) * 10 by { PowAdd(10, |f|, 1); }
    PowOfTenPositive(|f|);
    CancelTen(DigitsValue(f), Pow(10, |f|));
  }

  lemma CancelTen(b: int, p: int)
    requires p > 0
    ensures (b * 10) as real / (p * 10) as real == b as real / p as real
  {
    assert (b * 10) as real == b as real * 10.0;
    assert (p * 10) as real == p as real * 10.0;
  }

  /** Text with no point: all of it is the integer, and the exponent is one more than its length. */
  lemma ParseNoPoint(s: string)
    requires |s| > 0 && AllDigits(s)
    ensures Parse(s) == Success(ExactFloat(DigitsValue(s), |s| + 1))
  {
    NoPointIn(s);
  }

  /** The stored exponent counts the point itself, so text without a point is scaled as if it
      had one more fractional digit than it has characters: `"123"` orders below `"1.0"`. */
  lemma NoPointQuirk()
    ensures Parse("123") == Success(ExactFloat(123, 4))
    ensures Parse("1.0") == Success(ExactFloat(10, 2))
    ensures Compare(Parse("123").value, Parse("1.0").value) == -1
  {
    ParseNoPoint("123");
    assert DigitsValue("123") == 123 by { assert "123"[..2] == "12"; assert "12"[..1] == "1"; assert "1"[..0] == ""; }
    ParseDecimal("1", "0");
    assert "1" + "." + "0" == "1.0";
    assert "1" + "0" == "10";
    assert DigitsValue("10") == 10 by { assert "10"[..1] == "1"; assert "1"[..0] == ""; }
    assert Compare(ExactFloat(123, 4), ExactFloat(10, 2)) == -1 by {
      assert Pow(10, 2) == 100;
      assert Pow(10, 4) == 10000;
    }
  }
}
