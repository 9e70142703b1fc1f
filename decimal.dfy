/** Decimal text of non-negative integers, as produced by `sprintf("%u")`
    (section 7.21.6.1 of ISO C11: at least one digit, no leading zeros) and
    by the two backwards-filling digit loops of the fixed-point formatter. */
module Decimal {
  import opened Bytes

  function Pow10(k: nat): (p: nat)
    ensures p >= 1
  {
    if k == 0 then 1 else 10 * Pow10(k - 1)
  }

  function Abs(x: int): nat
  {
    if x < 0 then -x else x
  }

  predicate IsDigit(b: Byte)
  {
    '0' <= b <= '9'
  }

  predicate AllDigits(ds: seq<Byte>)
  {
    forall i :: 0 <= i < |ds| ==> IsDigit(ds[i])
  }

  /** `'0' + d` */
  function Digit(d: int): (b: Byte)
    requires 0 <= d < 10
    ensures IsDigit(b)
  {
    ('0' as int + d) as char
  }

  function DigitValue(b: Byte): int
  {
    b as int - '0' as int
  }

  /** The number a digit string denotes (the reading direction of the
      partner lemmas below). */
  function ValueOf(ds: seq<Byte>): nat
    requires AllDigits(ds)
  {
    if ds == [] then 0 else ValueOf(ds[..|ds| - 1]) * 10 + DigitValue(ds[|ds| - 1])
  }

  /** No leading zeros, at least one digit. */
  predicate Canonical(ds: seq<Byte>)
  {
    |ds| >= 1 && AllDigits(ds) && (ds[0] == '0' ==> |ds| == 1)
  }

  /** The `%u` conversion of `v`. */
  function Digits(v: nat): (ds: seq<Byte>)
    ensures Canonical(ds)
    decreases v
  {
    if v < 10 then [Digit(v)] else Digits(v / 10) + [Digit(v % 10)]
  }

  /** The `k` lowest decimal digits of `v`, most significant first and
      zero-padded: what `k` rounds of `*--cp = '0' + v % 10; v /= 10` leave. */
  function Pad(v: nat, k: nat): (ds: seq<Byte>)
    ensures |ds| == k && AllDigits(ds)
  {
    if k == 0 then [] else Pad(v / 10, k - 1) + [Digit(v % 10)]
  }

  /** What is left of `v` after `k` rounds of `v /= 10`. */
  function Shift(v: nat, k: nat): (r: nat)
    ensures r <= v
  {
    if k == 0 then v else Shift(v / 10, k - 1)
  }

  /** The fixed-point text of `number` with `places` fractional digits, as
      the formatter of lib/json/json.c:181-206 assembles it: a sign, what
      remains of the magnitude after the fractional digits are taken off, a
      point, and those fractional digits. FixedPointMeaning says what it
      denotes. */
  function FixedPointText(number: int, places: nat): (t: seq<Byte>)
    requires places >= 1
    ensures |t| >= places + 2 && (t[0] == '-' <==> number < 0)
    ensures t[|t| - places - 1] == '.' && AllDigits(t[|t| - places..])
  {
    var m := Abs(number);
    Sign(number) + Digits(Shift(m, places)) + Point() + Pad(m, places)
  }

  function Sign(number: int): seq<Byte>
  {
    if number < 0 then "-" else ""
  }

  function Point(): seq<Byte>
  {
    "."
  }

  /** The same text grouped from the right, as a backwards fill builds it. */
  lemma FixedPointTextParts(number: int, places: nat)
    requires places >= 1
    ensures var m := Abs(number);
            FixedPointText(number, places) == Sign(number) + (Digits(Shift(m, places)) + (Point() + Pad(m, places)))
  {
  }

  // ---------------------------------------------------------------------
  // Arithmetic helpers

  lemma DivModUnique(v: int, d: int, q: int, r: int)
    requires d > 0 && 0 <= r < d && v == d * q + r
    ensures v / d == q && v % d == r
  {
    var q0, r0 := v / d, v % d;
    assert v == d * q0 + r0;
    if q0 < q {
      assert d * (q - q0) == d * q - d * q0;
      MulAtLeast(d, q - q0);
    } else if q < q0 {
      assert d * (q0 - q) == d * q0 - d * q;
      MulAtLeast(d, q0 - q);
    }
  }

  lemma DivModSplit(m: int, d: int)
    requires d > 0
    ensures (m / d) * d + m % d == m
  {
  }

  lemma MulAtLeast(d: int, k: int)
    requires d > 0 && k >= 1
    ensures d * k >= d
  {
  }

  /** Dividing by 10 and then by `p` is dividing by `10 * p`, and the
      remainders combine digit-wise. */
  lemma DivTenThen(v: nat, p: nat)
    requires p >= 1
    ensures (v / 10) / p == v / (10 * p)
    ensures ((v / 10) % p) * 10 + v % 10 == v % (10 * p)
  {
    var a, b := v / 10, v % 10;
    var q, r := a / p, a % p;
    assert a == p * q + r;
    assert v == 10 * a + b;
    assert v == (10 * p) * q + (r * 10 + b) by {
      assert 10 * a == 10 * (p * q) + 10 * r;
      assert 10 * (p * q) == (10 * p) * q;
    }
    assert r * 10 + b < 10 * p by {
      assert r <= p - 1;
      assert r * 10 <= (p - 1) * 10;
    }
    DivModUnique(v, 10 * p, q, r * 10 + b);
  }

  // ---------------------------------------------------------------------
  // Properties of the digit strings

  /** `%u` round trip: the digits read back as the number. */
  lemma {:induction false} DigitsValue(v: nat)
    ensures ValueOf(Digits(v)) == v
    decreases v
  {
    if v >= 10 {
      var ds := Digits(v);
      DigitsValue(v / 10);
      assert ds[..|ds| - 1] == Digits(v / 10);
    }
  }

  lemma {:induction false} LeadingDigitBound(ds: seq<Byte>)
    requires |ds| >= 1 && AllDigits(ds)
    ensures ValueOf(ds) >= DigitValue(ds[0])
    decreases |ds|
  {
    if |ds| > 1 {
      var init := ds[..|ds| - 1];
      assert init[0] == ds[0];
      LeadingDigitBound(init);
    }
  }

  /** The converse: a canonical digit string is the `%u` text of its value,
      so `Digits` is the only way to write a number without leading zeros. */
  lemma {:induction false} CanonicalIsDigits(ds: seq<Byte>)
    requires Canonical(ds)
    ensures Digits(ValueOf(ds)) == ds
    decreases |ds|
  {
    var v := ValueOf(ds);
    if |ds| == 1 {
      assert ds[..0] == [];
      assert Digit(DigitValue(ds[0])) == ds[0];
    } else {
      var init := ds[..|ds| - 1];
      var last := ds[|ds| - 1];
      assert init[0] == ds[0];
      assert Canonical(init);
      LeadingDigitBound(init);
      assert ValueOf(init) >= 1;
      assert v == ValueOf(init) * 10 + DigitValue(last);
      DivModUnique(v, 10, ValueOf(init), DigitValue(last));
      CanonicalIsDigits(init);
      assert Digit(DigitValue(last)) == last;
      assert ds == init + [last];
    }
  }

  /** At most `k` digits below `10^k`: a `uint32_t` needs at most ten, so the
      twelve-byte scratch of json_uint32_append holds them and the NUL. */
  lemma {:induction false} DigitsLength(v: nat, k: nat)
    requires k >= 1 && v < Pow10(k)
    ensures |Digits(v)| <= k
    decreases v
  {
    if v >= 10 {
      assert k != 1 by { assert Pow10(1) == 10; }
      assert v / 10 < Pow10(k - 1);
      DigitsLength(v / 10, k - 1);
    }
  }

  lemma UInt32DigitsLength(v: UInt32)
    ensures |Digits(v)| <= 10
  {
    assert Pow10(10) == 10000000000;
    DigitsLength(v, 10);
  }

  /** The padded digits denote `v mod 10^k`. */
  lemma {:induction false} PadValue(v: nat, k: nat)
    ensures ValueOf(Pad(v, k)) == v % Pow10(k)
    decreases k
  {
    if k > 0 {
      var ds := Pad(v, k);
      assert ds[..|ds| - 1] == Pad(v / 10, k - 1);
      PadValue(v / 10, k - 1);
      DivTenThen(v, Pow10(k - 1));
    }
  }

  /** `k` rounds of `v /= 10` divide by `10^k`. */
  lemma {:induction false} ShiftValue(v: nat, k: nat)
    ensures Shift(v, k) == v / Pow10(k)
    decreases k
  {
    if k > 0 {
      ShiftValue(v / 10, k - 1);
      DivTenThen(v, Pow10(k - 1));
    }
  }

  /** Fixed-point meaning: the integer digits are canonical, exactly
      `places` fractional digits follow the point, and reading both back
      gives the magnitude of the number. */
  lemma FixedPointMeaning(number: int, places: nat)
    requires places >= 1
    ensures var m, scale := Abs(number), Pow10(places);
            var ip, fp := Digits(Shift(m, places)), Pad(m, places);
            FixedPointText(number, places) == Sign(number) + ip + "." + fp &&
            (Sign(number) == "-" <==> number < 0) && (number >= 0 ==> Sign(number) == "") &&
            Canonical(ip) && ValueOf(ip) == m / scale &&
            |fp| == places && AllDigits(fp) && ValueOf(fp) == m % scale &&
            ValueOf(ip) * scale + ValueOf(fp) == m
  {
    var m, scale := Abs(number), Pow10(places);
    ShiftValue(m, places);
    DigitsValue(Shift(m, places));
    PadValue(m, places);
    DivModSplit(m, scale);
  }

  /** The first example of lib/json/json.h:55-57: 153 with one place. */
  lemma FixedPointExample153()
    ensures FixedPointText(153, 1) == "15.3"
  {
    assert Shift(153, 1) == 15;
    assert Digits(15) == "15" by {
      assert Digits(1) == "1";
    }
    assert Pad(153, 1) == "3" by {
      assert Pad(15, 0) == [];
    }
  }

  /** The second: -42 with four places, a sign and a zero integer part. */
  lemma FixedPointExampleNegative()
    ensures FixedPointText(-42, 4) == "-0.0042"
  {
    FixedPointTextParts(-42, 4);
    assert Abs(-42) == 42 && Sign(-42) == "-";
    assert Shift(42, 4) == 0 by {
      assert Shift(4, 3) == 0;
    }
    assert Digits(0) == "0";
    assert Pad(42, 4) == "0042" by {
      assert Pad(4, 3) == "004" by {
        assert Pad(0, 2) == "00";
      }
    }
    assert "-" + ("0" + ("." + "0042")) == "-0.0042";
  }

  /** 3 with one place: the do-while of lib/json/json.c:197-202 still
      writes one integer digit. */
  lemma FixedPointExampleZero()
    ensures FixedPointText(3, 1) == "0.3"
  {
    assert Shift(3, 1) == 0;
    assert Digits(0) == "0";
    assert Pad(3, 1) == "3" by {
      assert Pad(0, 0) == [];
    }
  }
}
