/**
 * Decimal text of integers, as JavaScript's Number::toString and
 * BigInt::toString render integral values, and the reading of digit runs back.
 */
module Numbers {

  predicate IsDigit(c: char)
  {
    '0' <= c <= '9'
  }

  predicate AllDigits(s: string)
  {
    forall i :: 0 <= i < |s| ==> IsDigit(s[i])
  }

  function DigitValue(c: char): (d: nat)
    requires IsDigit(c)
    ensures d < 10
  {
    c as int - '0' as int
  }

  function DigitChar(d: nat): (c: char)
    requires d < 10
    ensures IsDigit(c) && DigitValue(c) == d
  {
    ('0' as int + d) as char
  }

  /** Decimal text of a natural number: most significant digit first, no leading zero. */
  function NatText(n: nat): (t: string)
    ensures |t| >= 1 && AllDigits(t)
    ensures t[0] == '0' <==> n == 0
    ensures n == 0 ==> t == "0"
  {
    if n < 10 then [DigitChar(n)] else NatText(n / 10) + [DigitChar(n % 10)]
  }

  /** Decimal text of an integer, with a leading minus sign when it is negative. */
  function IntText(n: int): (t: string)
    ensures |t| >= 1
    ensures t[0] == '-' <==> n < 0
    ensures n >= 0 ==> AllDigits(t)
    ensures n < 0 ==> |t| >= 2 && AllDigits(t[1..])
  {
    if n < 0 then "-" + NatText(-n) else NatText(n)
  }

  /** The value of a run of decimal digits. */
  function DigitsValue(ds: string): nat
    requires AllDigits(ds)
  {
    if ds == [] then 0 else DigitsValue(ds[..|ds| - 1]) * 10 + DigitValue(ds[|ds| - 1])
  }

  /** Reading the text of `n` gives back `n`. */
  lemma {:induction false} NatTextValue(n: nat)
    ensures DigitsValue(NatText(n)) == n
  {
    if n >= 10 {
      var t := NatText(n);
      assert t[..|t| - 1] == NatText(n / 10);
      NatTextValue(n / 10);
    }
  }

  /** The other direction: a digit run without a leading zero is the text of its value. */
  lemma {:induction false} DigitsValueText(ds: string)
    requires |ds| >= 1 && AllDigits(ds) && (ds[0] == '0' ==> |ds| == 1)
    ensures NatText(DigitsValue(ds)) == ds
  {
    var n := DigitsValue(ds);
    if |ds| == 1 {
      assert ds[..0] == [];
    } else {
      var init := ds[..|ds| - 1];
      assert init[0] == ds[0];
      DigitsValueText(init);
      DigitsValuePositive(init);
      assert n / 10 == DigitsValue(init) && n % 10 == DigitValue(ds[|ds| - 1]);
      assert ds == init + [ds[|ds| - 1]];
    }
  }

  lemma {:induction false} DigitsValuePositive(ds: string)
    requires |ds| >= 1 && AllDigits(ds) && ds[0] != '0'
    ensures DigitsValue(ds) >= 1
  {
    if |ds| > 1 {
      var init := ds[..|ds| - 1];
      assert init[0] == ds[0];
      DigitsValuePositive(init);
    }
  }

  /** Powers of ten. */
  function Pow10(k: nat): (p: nat)
    ensures p >= 1
  {
    if k == 0 then 1 else 10 * Pow10(k - 1)
  }

  /**
   * The strings that the TypeScript template type `${number}` stands for in this
   * model: an optional minus sign, a digit run, and an optional fraction.
   */
  predicate IsNumericText(s: string)
  {
    var u := if |s| > 0 && s[0] == '-' then s[1..] else s;
    (|u| >= 1 && AllDigits(u))
    || (exists k :: 0 < k < |u| - 1 && u[k] == '.' && AllDigits(u[..k]) && AllDigits(u[k + 1..]))
  }

  lemma IntTextIsNumeric(n: int)
    ensures IsNumericText(IntText(n))
  {
  }
}
