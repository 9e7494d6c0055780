/** Exact decimal strings for integer amounts: the `toString()` the
    settlement step writes into the transfer value, the `BigNumber(...)`
    parse the notification step reads it back with, and the rendering of
    `value / 10^18` shown in the receipt. */
module Decimal {
  import opened Wrappers

  /** Number of decimals of the token: one token is 10^18 base units. */
  const DECIMALS: nat := 18

  /** 10^18, the number of base units in one whole token. */
  const UNIT: nat := 1_000_000_000_000_000_000

  function Pow10(e: nat): (p: nat)
    ensures p >= 1
  {
    if e == 0 then 1 else 10 * Pow10(e - 1)
  }

  predicate IsDigit(c: char)
  {
    '0' <= c <= '9'
  }

  predicate AllDigits(s: string)
  {
    forall i :: 0 <= i < |s| ==> IsDigit(s[i])
  }

  /** Digits as `toString()` prints them: at least one, no leading zero
      unless the number is zero itself. */
  predicate IsCanonical(s: string)
  {
    && |s| > 0
    && AllDigits(s)
    && (|s| == 1 || s[0] != '0')
  }

  function DigitChar(d: nat): (c: char)
    requires d < 10
    ensures IsDigit(c)
  {
    (d + '0' as int) as char
  }

  function DigitValue(c: char): (d: nat)
    requires IsDigit(c)
    ensures d < 10
  {
    c as int - '0' as int
  }

  /** Decimal digits of a natural number, most significant first. */
  function NatToString(n: nat): (s: string)
    ensures IsCanonical(s)
    ensures '.' !in s
    ensures n > 0 ==> s[0] != '0'
  {
    if n < 10 then [DigitChar(n)] else NatToString(n / 10) + [DigitChar(n % 10)]
  }

  /** The value a string of digits denotes. */
  function DigitsValue(s: string): nat
    requires AllDigits(s)
  {
    if s == [] then 0 else DigitsValue(s[..|s| - 1]) * 10 + DigitValue(s[|s| - 1])
  }

  /** Reads an unsigned decimal; anything that is not a non-empty run of
      digits is rejected. */
  function ParseNat(s: string): (r: Option<nat>)
    ensures r.Some? <==> |s| > 0 && AllDigits(s)
  {
    if |s| > 0 && AllDigits(s) then Some(DigitsValue(s)) else None
  }

  /** Signed decimal, as `toString()` prints an integer. */
  function IntToString(i: int): (s: string)
    ensures |s| > 0
    ensures '.' !in s
    ensures (s[0] == '-') <==> i < 0
  {
    if i < 0 then "-" + NatToString(-i) else NatToString(i)
  }

  /** Reads a signed decimal `-?[0-9]+`; `None` stands for the `NaN` that
      `BigNumber` yields on anything else. */
  function ParseInt(s: string): (r: Option<int>)
    ensures r.Some? <==> |s| > 0 && (if s[0] == '-' then |s| > 1 && AllDigits(s[1..]) else AllDigits(s))
    ensures r.Some? && s[0] != '-' ==> r.value >= 0
  {
    if |s| > 0 && s[0] == '-' then
      match ParseNat(s[1..])
      case Some(n) => Some(-(n as int))
      case None => None
    else
      match ParseNat(s)
      case Some(n) => Some(n)
      case None => None
  }

  /** Printing then parsing a natural number gives it back. */
  lemma {:induction false} NatRoundTrip(n: nat)
    ensures ParseNat(NatToString(n)) == Some(n)
    ensures DigitsValue(NatToString(n)) == n
  {
    var s := NatToString(n);
    if n >= 10 {
      NatRoundTrip(n / 10);
      var p := NatToString(n / 10);
      assert s == p + [DigitChar(n % 10)];
      assert s[..|s| - 1] == p;
      assert DigitsValue(s) == DigitsValue(p) * 10 + n % 10;
    } else {
      assert s[..|s| - 1] == [];
    }
  }

  /** A canonical digit string other than "0" denotes a positive number. */
  lemma {:induction false} CanonicalPositive(s: string)
    requires IsCanonical(s) && s[0] != '0'
    ensures DigitsValue(s) > 0
  {
    if |s| > 1 {
      var p := s[..|s| - 1];
      assert p[0] == s[0];
      CanonicalPositive(p);
    }
  }

  /** Parsing then printing a canonical digit string gives it back: the
      other half of the round trip. */
  lemma {:induction false} CanonicalRoundTrip(s: string)
    requires IsCanonical(s)
    ensures NatToString(DigitsValue(s)) == s
  {
    var v := DigitsValue(s);
    if |s| > 1 {
      var p := s[..|s| - 1];
      var d := DigitValue(s[|s| - 1]);
      assert p[0] == s[0];
      CanonicalPositive(p);
      CanonicalRoundTrip(p);
      assert v == DigitsValue(p) * 10 + d;
      assert v / 10 == DigitsValue(p) && v % 10 == d;
      assert DigitChar(d) == s[|s| - 1];
      assert s == p + [s[|s| - 1]];
    } else {
      assert |s| == 1 && s[..|s| - 1] == [];
      assert v == DigitsValue([]) * 10 + DigitValue(s[0]);
      assert s == [DigitChar(v)];
    }
  }

  /** Printing then parsing a signed integer gives it back. */
  lemma IntRoundTrip(i: int)
    ensures ParseInt(IntToString(i)) == Some(i)
  {
    if i < 0 {
      NatRoundTrip(-i);
      assert IntToString(i)[1..] == NatToString(-i);
    } else {
      NatRoundTrip(i);
    }
  }

  /** `count` copies of `c`. */
  function Repeat(c: char, count: nat): (s: string)
    ensures |s| == count
    ensures forall i :: 0 <= i < count ==> s[i] == c
  {
    if count == 0 then [] else Repeat(c, count - 1) + [c]
  }

  /** Left-pads `s` with zeros to `width` characters. */
  function PadZeros(s: string, width: nat): (r: string)
    ensures |r| == if |s| >= width then |s| else width
  {
    if |s| >= width then s else Repeat('0', width - |s|) + s
  }

  /** Drops trailing zeros, as a decimal fraction is printed. */
  function TrimTrailingZeros(s: string): (r: string)
    ensures |r| <= |s|
    ensures r == s[..|r|]
    ensures r == [] || r[|r| - 1] != '0'
    ensures |s| > 0 && s[0] != '0' ==> |r| > 0
  {
    if s == [] || s[|s| - 1] != '0' then s else TrimTrailingZeros(s[..|s| - 1])
  }

  /** Number of digits of `m` in decimal. */
  function DigitCount(m: nat): nat
  {
    |NatToString(m)|
  }

  /** `BigNumber.toString` switches to exponential notation when the
      exponent of the leading digit is at most -7 or at least 21. For
      `m / 10^18` that exponent is `DigitCount(m) - 1 - 18`. */
  predicate UsesExponent(m: nat)
  {
    m > 0 && (DigitCount(m) <= 12 || DigitCount(m) >= 40)
  }

  /** The decimals of a remainder below 10^18: padded to 18 places, with
      the trailing zeros dropped. */
  function FractionText(r: nat): string
  {
    TrimTrailingZeros(PadZeros(NatToString(r), DECIMALS))
  }

  /** Positional notation of `m / 10^18`: the whole part, then the
      fraction (18 decimals, trailing zeros dropped) when it is not zero. */
  function Positional(m: nat): string
  {
    NatToString(m / UNIT)
      + (if m % UNIT == 0 then "" else "." + FractionText(m % UNIT))
  }

  /** A run of significant digits with a point after the first one, the
      point left out when there is a single digit. */
  function PointAfterFirst(c: string): string
    requires |c| > 0
  {
    [c[0]] + (if |c| > 1 then "." + c[1..] else "")
  }

  /** Exponential notation of `m / 10^18`: the significant digits with a
      point after the first one, then `e`, the exponent's sign and value. */
  function Scientific(m: nat): string
    requires m > 0
  {
    var digits := NatToString(m);
    var exponent := |digits| - 1 - DECIMALS;
    PointAfterFirst(TrimTrailingZeros(digits))
      + "e" + (if exponent < 0 then "-" else "+")
      + NatToString(if exponent < 0 then -exponent else exponent)
  }

  /** `BigNumber(v).dividedBy(10^18).toString()` for a base-unit amount `v`.
      The quotient has at most 18 decimals, so the division is exact. */
  function FormatUnits(v: int): (shown: string)
    ensures |shown| > 0
    ensures shown[0] == '-' <==> v < 0
    ensures shown[0] == '-' || IsDigit(shown[0])
  {
    var m := if v < 0 then -v else v;
    (if v < 0 then "-" else "") + (if UsesExponent(m) then Scientific(m) else Positional(m))
  }

  /** `UNIT` is the power of ten the token's decimals name. */
  lemma UnitIsPow10()
    ensures UNIT == Pow10(DECIMALS)
  {
    assert Pow10(6) == 1_000_000;
    assert Pow10(12) == 1_000_000 * Pow10(6) by {
      assert Pow10(12) == 10 * 10 * 10 * 10 * 10 * 10 * Pow10(6);
    }
    assert Pow10(18) == 1_000_000 * Pow10(12) by {
      assert Pow10(18) == 10 * 10 * 10 * 10 * 10 * 10 * Pow10(12);
    }
  }

  lemma {:induction false} Pow10Monotone(a: nat, b: nat)
    requires a <= b
    ensures Pow10(a) <= Pow10(b)
    decreases b
  {
    if a < b {
      Pow10Monotone(a, b - 1);
    }
  }

  /** A number with `k` digits lies in `[10^(k-1), 10^k)`. */
  lemma {:induction false} DigitCountBounds(n: nat)
    ensures n < Pow10(DigitCount(n))
    ensures n > 0 ==> Pow10(DigitCount(n) - 1) <= n
  {
    if n >= 10 {
      DigitCountBounds(n / 10);
      assert DigitCount(n) == DigitCount(n / 10) + 1;
      assert Pow10(DigitCount(n)) == 10 * Pow10(DigitCount(n / 10));
      assert Pow10(DigitCount(n) - 1) == Pow10(DigitCount(n / 10));
    }
  }

  /** A positive number has at most `k` digits exactly when it is below 10^k. */
  lemma DigitsAtMost(n: nat, k: nat)
    requires n > 0
    ensures DigitCount(n) <= k <==> n < Pow10(k)
  {
    DigitCountBounds(n);
    if DigitCount(n) <= k {
      Pow10Monotone(DigitCount(n), k);
    } else {
      Pow10Monotone(k, DigitCount(n) - 1);
    }
  }

  /** The exponential range in numbers: below 10^12 base units (an
      exponent of -7 or less) or from 10^39 on (21 or more). */
  lemma UsesExponentRange(m: nat)
    ensures UsesExponent(m) <==> 0 < m < Pow10(12) || m >= Pow10(39)
  {
    if m > 0 {
      DigitsAtMost(m, 12);
      DigitsAtMost(m, 39);
    }
  }

  /** Multiplying by ten appends one zero digit. */
  lemma ShiftOne(n: nat)
    requires n > 0
    ensures NatToString(n * 10) == NatToString(n) + "0"
  {
    assert (n * 10) / 10 == n && (n * 10) % 10 == 0;
    assert DigitChar(0) == '0';
  }

  /** One more power of ten is one more factor of ten. */
  lemma Pow10Step(a: nat, k: nat)
    requires a > 0 && k > 0
    ensures a * Pow10(k - 1) >= 1
    ensures a * Pow10(k) == (a * Pow10(k - 1)) * 10
  {
    var p := Pow10(k - 1);
    assert Pow10(k) == 10 * p;
    assert a * (10 * p) == (a * p) * 10;
  }

  /** The digits of `a * 10^k` are those of `a` followed by `k` zeros. */
  lemma {:induction false} ShiftDigits(a: nat, k: nat)
    requires a > 0
    ensures NatToString(a * Pow10(k)) == NatToString(a) + Repeat('0', k)
    decreases k
  {
    if k > 0 {
      ShiftDigits(a, k - 1);
      var x := a * Pow10(k - 1);
      Pow10Step(a, k);
      ShiftOne(x);
      calc {
        NatToString(a * Pow10(k));
        NatToString(x * 10);
        NatToString(x) + "0";
        NatToString(a) + Repeat('0', k - 1) + "0";
        NatToString(a) + Repeat('0', k);
      }
    }
  }

  /** `a` tokens in base units have 18 more digits than `a`. */
  lemma WholeDigitCount(a: nat)
    requires a > 0
    ensures DigitCount(a * UNIT) == DigitCount(a) + DECIMALS
  {
    UnitIsPow10();
    ShiftDigits(a, DECIMALS);
  }

  /** The exponential form always shows the letter `e`. */
  lemma ScientificShowsE(m: nat)
    requires m > 0
    ensures 'e' in Scientific(m)
  {
    var digits := NatToString(m);
    var exponent := |digits| - 1 - DECIMALS;
    var lead := PointAfterFirst(TrimTrailingZeros(digits));
    var tail := (if exponent < 0 then "-" else "+") + NatToString(if exponent < 0 then -exponent else exponent);
    assert Scientific(m) == lead + "e" + tail;
    assert Scientific(m)[|lead|] == 'e';
  }

  /** A whole number of tokens that `BigNumber` prints positionally: fewer
      than 10^21 in magnitude. */
  predicate PositionalTokens(t: int)
  {
    -(Pow10(21) as int) < t < Pow10(21)
  }

  /** `a` whole tokens in base units fall in the exponential range exactly
      from 10^21 tokens on. */
  lemma WholeTokensExponent(a: nat)
    requires a > 0
    ensures UsesExponent(a * UNIT) <==> a >= Pow10(21)
  {
    WholeDigitCount(a);
    DigitsAtMost(a, 21);
  }

  /** A negative amount is a whole number of tokens exactly when its
      magnitude is. */
  lemma WholeMagnitude(v: int)
    ensures (if v < 0 then -v else v) % UNIT == 0 <==> v % UNIT == 0
  {
    if v < 0 {
      var q := v / UNIT;
      var r := v % UNIT;
      assert v == q * UNIT + r;
      if r == 0 {
        assert -v == (-q) * UNIT;
      } else {
        assert -v == (-q - 1) * UNIT + (UNIT - r);
      }
    }
  }

  /** The positional form has a decimal point exactly when a fraction is left. */
  lemma PositionalPoint(m: nat)
    ensures '.' in Positional(m) <==> m % UNIT != 0
  {
    var whole := NatToString(m / UNIT);
    if m % UNIT != 0 {
      var tail := "." + FractionText(m % UNIT);
      assert Positional(m) == whole + tail;
      assert Positional(m)[|whole|] == '.';
    }
  }

  /** In positional notation the rendering shows a decimal point exactly
      when the amount is not a whole number of tokens; in the exponential
      range it shows an exponent. */
  lemma FormatUnitsWholeIff(v: int)
    ensures var m := if v < 0 then -v else v;
            !UsesExponent(m) ==> ('.' in FormatUnits(v) <==> v % UNIT != 0)
    ensures var m := if v < 0 then -v else v;
            UsesExponent(m) ==> 'e' in FormatUnits(v)
  {
    var m := if v < 0 then -v else v;
    var sign: string := if v < 0 then "-" else "";
    WholeMagnitude(v);
    if UsesExponent(m) {
      ScientificShowsE(m);
      assert FormatUnits(v) == sign + Scientific(m);
    } else {
      PositionalPoint(m);
      assert FormatUnits(v) == sign + Positional(m);
      assert '.' !in sign;
    }
  }

  /** `t` tokens in base units have the sign of `t` and the magnitude of
      `t` times 10^18. */
  lemma WholeTokensMagnitude(t: int)
    ensures (t * UNIT < 0 <==> t < 0)
    ensures (if t * UNIT < 0 then -(t * UNIT) else t * UNIT) == (if t < 0 then -t else t) * UNIT
  {
  }

  /** A whole number of tokens shown positionally is just its digits. */
  lemma PositionalWhole(a: nat)
    ensures Positional(a * UNIT) == NatToString(a)
  {
    assert (a * UNIT) / UNIT == a && (a * UNIT) % UNIT == 0;
  }

  /** Round trip of the token conversion: a whole number of tokens below
      10^21 turned into base units and shown divided by 10^18 reads as that
      number; from 10^21 tokens on it is shown in exponential notation. */
  lemma FormatWholeTokens(t: int)
    ensures PositionalTokens(t) ==> FormatUnits(t * UNIT) == IntToString(t)
    ensures !PositionalTokens(t) ==> 'e' in FormatUnits(t * UNIT)
  {
    var v := t * UNIT;
    var a: nat := if t < 0 then -t else t;
    var m := a * UNIT;
    WholeTokensMagnitude(t);
    assert PositionalTokens(t) <==> a < Pow10(21);
    if a > 0 {
      WholeTokensExponent(a);
    }
    if UsesExponent(m) {
      FormatUnitsWholeIff(v);
    } else {
      PositionalWhole(a);
      assert FormatUnits(v) == (if t < 0 then "-" else "") + NatToString(a);
    }
  }

  /** Ten tokens in base units, as settlement writes the transfer value. */
  lemma TenTokens()
    ensures IntToString(10 * UNIT) == "10000000000000000000"
  {
    UnitIsPow10();
    ShiftDigits(10, DECIMALS);
    assert Repeat('0', DECIMALS) == "000000000000000000";
  }

  /** One base unit is 10^-18 tokens, which `BigNumber` prints as "1e-18". */
  lemma OneBaseUnit()
    ensures FormatUnits(1) == "1e-18"
  {
    assert NatToString(1) == "1";
    assert TrimTrailingZeros("1") == "1";
    assert UsesExponent(1);
    assert NatToString(18) == "18";
  }
}
