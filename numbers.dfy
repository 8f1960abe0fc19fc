/** Decimal digit strings and integer powers: what `long.Parse`, `long.ToString()` and
    `uint.ToString()` do with the invariant culture, on unbounded integers. */
module Numbers {
  import opened Wrappers

  /** x to the power n, the reference for `ExactFloat.IntPow`. */
  function Pow(x: int, n: nat): int
  {
    if n == 0 then 1 else x * Pow(x, n - 1)
  }

  lemma {:induction false} PowAdd(x: int, a: nat, b: nat)
    ensures Pow(x, a + b) == Pow(x, a) * Pow(x, b)
  {
    if a > 0 {
      PowAdd(x, a - 1, b);
      assert Pow(x, a + b) == x * Pow(x, a - 1 + b);
    }
  }

  lemma {:induction false} PowOfTenPositive(n: nat)
    ensures Pow(10, n) >= 1
  {
    if n > 0 { PowOfTenPositive(n - 1); }
  }

  /** Squaring the base halves the exponent: the step exponentiation by squaring relies on. */
  lemma {:induction false} PowSquare(x: int, n: nat)
    ensures Pow(x * x, n / 2) * (if n % 2 == 1 then x else 1) == Pow(x, n)
  {
    if n >= 2 {
      PowSquare(x, n - 2);
      assert (n - 2) / 2 == n / 2 - 1;
      assert (n - 2) % 2 == n % 2;
      var odd := if n % 2 == 1 then x else 1;
      calc {
        Pow(x * x, n / 2) * odd;
        (x * x) * Pow(x * x, n / 2 - 1) * odd;
        { assert Pow(x * x, n / 2 - 1) * odd == Pow(x, n - 2); }
        x * x * Pow(x, n - 2);
        { assert Pow(x, n - 1) == x * Pow(x, n - 2); }
        Pow(x, n);
      }
    }
  }

  predicate IsDigit(c: char) { '0' <= c <= '9' }

  predicate AllDigits(s: string) { forall i :: 0 <= i < |s| ==> IsDigit(s[i]) }

  function DigitValue(c: char): nat
    requires IsDigit(c)
  {
    c as int - '0' as int
  }

  function DigitChar(d: nat): (c: char)
    requires d < 10
    ensures IsDigit(c) && DigitValue(c) == d
  {
    ('0' as int + d) as char
  }

  /** The number a string of decimal digits denotes; leading zeros contribute nothing. */
  function DigitsValue(s: string): nat
    requires AllDigits(s)
  {
    if s == [] then 0 else DigitsValue(s[..|s| - 1]) * 10 + DigitValue(s[|s| - 1])
  }

  /** Appending digits shifts the value of the prefix left by their count. */
  lemma {:induction false} DigitsValueAppend(a: string, b: string)
    requires AllDigits(a) && AllDigits(b)
    ensures AllDigits(a + b)
    ensures DigitsValue(a + b) == DigitsValue(a) * Pow(10, |b|) + DigitsValue(b)
  {
    assert AllDigits(a + b) by {
      forall i | 0 <= i < |a + b| ensures IsDigit((a + b)[i]) {
        if i < |a| { assert (a + b)[i] == a[i]; } else { assert (a + b)[i] == b[i - |a|]; }
      }
    }
    if b == [] {
      assert a + b == a;
    } else {
      var b' := b[..|b| - 1];
      assert (a + b)[..|a + b| - 1] == a + b';
      assert (a + b)[|a + b| - 1] == b[|b| - 1];
      DigitsValueAppend(a, b');
      calc {
        DigitsValue(a + b);
        DigitsValue(a + b') * 10 + DigitValue(b[|b| - 1]);
        (DigitsValue(a) * Pow(10, |b'|) + DigitsValue(b')) * 10 + DigitValue(b[|b| - 1]);
        DigitsValue(a) * (Pow(10, |b'|) * 10) + (DigitsValue(b') * 10 + DigitValue(b[|b| - 1]));
        { assert Pow(10, |b|) == 10 * Pow(10, |b'|); }
        DigitsValue(a) * Pow(10, |b|) + DigitsValue(b);
      }
    }
  }

  /** `uint.ToString()` / `long.ToString()` of a non-negative value: no leading zeros. */
  function NatToString(n: nat): (s: string)
    ensures |s| > 0 && AllDigits(s)
    ensures DigitsValue(s) == n
    ensures s[0] == '0' ==> n == 0
    decreases n
  {
    if n < 10 then [DigitChar(n)]
    else
      var prefix := NatToString(n / 10);
      var s := prefix + [DigitChar(n % 10)];
      assert s[..|s| - 1] == prefix;
      s
  }

  /** `long.ToString()`: a minus sign before the digits of a negative value. */
  function IntToString(n: int): (s: string)
    ensures |s| > 0
    ensures n >= 0 <==> AllDigits(s)
    ensures n < 0 <==> s[0] == '-'
  {
    if n < 0 then
      var s := "-" + NatToString(-n);
      assert !IsDigit(s[0]);
      s
    else NatToString(n)
  }

  /** The text `long.Parse` accepts: an optional sign, then at least one digit. */
  predicate IsIntegerText(s: string)
  {
    if |s| > 0 && (s[0] == '-' || s[0] == '+') then |s| > 1 && AllDigits(s[1..])
    else |s| > 0 && AllDigits(s)
  }

  /** `long.Parse` without its whitespace allowance and without the 64-bit range check:
      `None` where it throws. */
  function ParseLong(s: string): (r: Option<int>)
    ensures r.Some? <==> IsIntegerText(s)
  {
    if |s| > 1 && s[0] == '-' && AllDigits(s[1..]) then Some(0 - DigitsValue(s[1..]) as int)
    else if |s| > 1 && s[0] == '+' && AllDigits(s[1..]) then Some(DigitsValue(s[1..]))
    else if |s| > 0 && AllDigits(s) then Some(DigitsValue(s))
    else None
  }

  /** Printing and parsing back an integer gives it back. */
  lemma ParseLongIntToString(n: int)
    ensures ParseLong(IntToString(n)) == Some(n)
  {
    var s := IntToString(n);
    if n < 0 {
      assert s[1..] == NatToString(-n);
    }
  }

  /** Leading zeros are what parsing discards: a reparse of the printed value is canonical. */
  lemma {:induction false} DigitsValueLeadingZero(s: string)
    requires AllDigits(s)
    ensures AllDigits("0" + s) && DigitsValue("0" + s) == DigitsValue(s)
  {
    DigitsValueAppend("0", s);
    assert DigitsValue("0") == 0 by { assert "0"[..0] == []; }
  }
}
