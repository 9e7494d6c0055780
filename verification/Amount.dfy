/** Reading back the amount a receipt shows. `ReadAmount` is an independent
    reader of decimal token amounts, positional ("12.5") or exponential
    ("1.25e+1", "1e-18"), giving their value in base units. The round trip
    `ReadAmount(FormatUnits(v)) == Some(v)` says that the rendering of
    `v / 10^18` stands for exactly that value, in both notations. */
module Amount {
  import opened Wrappers
  import opened Decimal

  /** Position of the first `c` in `s`, or `|s|` when there is none. */
  function IndexOf(s: string, c: char): (i: nat)
    ensures i <= |s|
    ensures i < |s| ==> s[i] == c
    ensures forall j :: 0 <= j < i ==> s[j] != c
  {
    if s == [] then 0 else if s[0] == c then 0 else 1 + IndexOf(s[1..], c)
  }

  /** The digits of a coefficient with its point removed, and how many of
      them follow the point. */
  function SplitPoint(s: string): (string, nat)
  {
    var j := IndexOf(s, '.');
    if j < |s| then (s[..j] + s[j + 1..], |s| - j - 1) else (s, 0)
  }

  /** The exponent after the `e`: a sign and a run of digits. */
  function ReadExponent(s: string): (x: Option<int>)
    ensures x.Some? ==> |s| >= 2 && (s[0] == '+' || s[0] == '-')
    ensures x.Some? && s[0] == '+' ==> x.value >= 0
  {
    if |s| < 2 || (s[0] != '+' && s[0] != '-') then None
    else
      match ParseNat(s[1..])
      case None => None
      case Some(n) => Some(if s[0] == '-' then -(n as int) else n as int)
  }

  /** Value in base units of an unsigned amount of tokens: a coefficient
      with an optional point, then optionally `e` and a signed exponent.
      An amount finer than one base unit is rejected. */
  function ReadUnits(s: string): Option<nat>
  {
    var i := IndexOf(s, 'e');
    var exponent := if i == |s| then Some(0) else ReadExponent(s[i + 1..]);
    match exponent
    case None => None
    case Some(x) => Scaled(SplitPoint(s[..i]), x)
  }

  /** Value in base units of the coefficient `digits`, of which `fraction`
      follow the point, times 10^x tokens; none when it is not a whole
      number of base units. */
  function Scaled(coefficient: (string, nat), x: int): Option<nat>
  {
    var shift := x - coefficient.1 + DECIMALS;
    if |coefficient.0| > 0 && AllDigits(coefficient.0) && shift >= 0 then
      Some(DigitsValue(coefficient.0) * Pow10(shift))
    else
      None
  }

  /** Value in base units of a signed amount of tokens. */
  function ReadAmount(s: string): Option<int>
  {
    if |s| > 0 && s[0] == '-' then
      match ReadUnits(s[1..])
      case Some(n) => Some(-(n as int))
      case None => None
    else
      match ReadUnits(s)
      case Some(n) => Some(n as int)
      case None => None
  }

  // ---------------------------------------------------------------------
  // Digit strings

  /** Digits contain neither a point nor an `e`. */
  lemma DigitsPlain(s: string)
    requires AllDigits(s)
    ensures '.' !in s && 'e' !in s
  {
    forall i | 0 <= i < |s|
      ensures s[i] != '.' && s[i] != 'e'
    {
      assert IsDigit(s[i]);
    }
  }

  /** Finding `c` past a prefix that does not contain it. */
  lemma IndexOfAppend(a: string, b: string, c: char)
    requires c !in a
    ensures IndexOf(a + b, c) == |a| + IndexOf(b, c)
  {
    var k := IndexOf(b, c);
    assert forall j :: 0 <= j < |a| ==> (a + b)[j] == a[j];
    assert forall j :: 0 <= j < k ==> (a + b)[|a| + j] == b[j];
    assert k < |b| ==> (a + b)[|a| + k] == c;
  }

  lemma IndexOfAbsent(s: string, c: char)
    requires c !in s
    ensures IndexOf(s, c) == |s|
  {
  }

  /** An amount without an exponent is read as its coefficient. */
  lemma PlainRead(s: string)
    requires 'e' !in s
    ensures ReadUnits(s) == Scaled(SplitPoint(s), 0)
  {
    IndexOfAbsent(s, 'e');
    assert s[..|s|] == s;
  }

  /** An amount with an exponent is read as its coefficient scaled by it. */
  lemma ExponentRead(a: string, tail: string, x: int)
    requires 'e' !in a && ReadExponent(tail) == Some(x)
    ensures ReadUnits(a + ("e" + tail)) == Scaled(SplitPoint(a), x)
  {
    var s := a + ("e" + tail);
    IndexOfAppend(a, "e" + tail, 'e');
    assert s[..|a|] == a && s[|a| + 1..] == tail;
  }

  /** A coefficient of `k` decimals times 10^x that is a whole number of
      base units has the value its digits give, scaled. */
  lemma ScaledValue(digits: string, k: nat, x: int, shift: nat)
    requires |digits| > 0 && AllDigits(digits) && shift == x - k + DECIMALS
    ensures Scaled((digits, k), x) == Some(DigitsValue(digits) * Pow10(shift))
  {
  }

  /** Splitting "w.f" at its point. */
  lemma SplitAtPoint(whole: string, f: string)
    requires '.' !in whole
    ensures SplitPoint(whole + ("." + f)) == (whole + f, |f|)
  {
    var s := whole + ("." + f);
    IndexOfAppend(whole, "." + f, '.');
    assert s[..|whole|] == whole && s[|whole| + 1..] == f;
  }

  lemma Times10(a: int, y: int)
    ensures a * (10 * y) == (a * y) * 10
  {
  }

  lemma {:induction false} Pow10Add(a: nat, b: nat)
    ensures Pow10(a + b) == Pow10(a) * Pow10(b)
    decreases b
  {
    if b > 0 {
      Pow10Add(a, b - 1);
      assert Pow10(a + b) == 10 * Pow10(a + b - 1);
      assert Pow10(b) == 10 * Pow10(b - 1);
      Times10(Pow10(a), Pow10(b - 1));
    }
  }

  /** The value of two digit strings written one after the other. */
  lemma {:induction false} DigitsValueAppend(a: string, b: string)
    requires AllDigits(a) && AllDigits(b)
    ensures AllDigits(a + b)
    ensures DigitsValue(a + b) == DigitsValue(a) * Pow10(|b|) + DigitsValue(b)
    decreases |b|
  {
    if b == [] {
      assert a + b == a;
    } else {
      var p := b[..|b| - 1];
      var d := DigitValue(b[|b| - 1]);
      assert (a + b)[..|a + b| - 1] == a + p;
      DigitsValueAppend(a, p);
      var x := DigitsValue(a) * Pow10(|p|);
      assert Pow10(|b|) == 10 * Pow10(|p|);
      Times10(DigitsValue(a), Pow10(|p|));
      assert DigitsValue(a + b) == (x + DigitsValue(p)) * 10 + d;
    }
  }

  /** A run of zeros is worth nothing. */
  lemma {:induction false} ZerosValue(k: nat)
    ensures AllDigits(Repeat('0', k))
    ensures DigitsValue(Repeat('0', k)) == 0
  {
    if k > 0 {
      ZerosValue(k - 1);
      var z := Repeat('0', k);
      assert z[..k - 1] == Repeat('0', k - 1);
    }
  }

  /** Dropping trailing zeros divides by the matching power of ten. */
  lemma {:induction false} TrimValue(s: string)
    requires AllDigits(s)
    ensures AllDigits(TrimTrailingZeros(s))
    ensures DigitsValue(TrimTrailingZeros(s)) * Pow10(|s| - |TrimTrailingZeros(s)|) == DigitsValue(s)
    decreases |s|
  {
    var t := TrimTrailingZeros(s);
    if s != [] && s[|s| - 1] == '0' {
      var p := s[..|s| - 1];
      TrimValue(p);
      assert t == TrimTrailingZeros(p);
      var y := Pow10(|p| - |t|);
      assert Pow10(|s| - |t|) == 10 * y;
      Times10(DigitsValue(t), y);
      assert DigitsValue(s) == DigitsValue(p) * 10;
    }
    assert forall i :: 0 <= i < |t| ==> t[i] == s[i];
  }

  /** A remainder `r < 10^18` padded to 18 places keeps its value. */
  lemma PaddedDigits(r: nat)
    requires r < UNIT
    ensures |PadZeros(NatToString(r), DECIMALS)| == DECIMALS
    ensures AllDigits(PadZeros(NatToString(r), DECIMALS))
    ensures DigitsValue(PadZeros(NatToString(r), DECIMALS)) == r
  {
    var n := NatToString(r);
    UnitIsPow10();
    if r > 0 {
      DigitsAtMost(r, DECIMALS);
    }
    NatRoundTrip(r);
    var z := Repeat('0', DECIMALS - |n|);
    ZerosValue(DECIMALS - |n|);
    DigitsValueAppend(z, n);
    assert PadZeros(n, DECIMALS) == z + n;
  }

  /** The fraction digits of a remainder `0 < r < 10^18`: padded to 18
      places and without trailing zeros, they are non-empty digits worth
      `r` once scaled back. */
  lemma FractionDigits(r: nat)
    requires 0 < r < UNIT
    ensures 0 < |FractionText(r)| <= DECIMALS && AllDigits(FractionText(r))
    ensures DigitsValue(FractionText(r)) * Pow10(DECIMALS - |FractionText(r)|) == r
  {
    var padded := PadZeros(NatToString(r), DECIMALS);
    PaddedDigits(r);
    var f := FractionText(r);
    TrimValue(padded);
    var y := Pow10(DECIMALS - |f|);
    assert DigitsValue(f) * y == r;
    assert DigitsValue(f) != 0;
    assert f != [];
  }

  // ---------------------------------------------------------------------
  // Round trips

  /** "w.f" reads back as `w` tokens and `r` base units, for a fraction
      text of `0 < r < 10^18`. */
  lemma FractionRead(w: nat, r: nat)
    requires 0 < r < UNIT
    ensures ReadUnits(NatToString(w) + ("." + FractionText(r))) == Some(w * UNIT + r)
  {
    var whole := NatToString(w);
    var f := FractionText(r);
    NatRoundTrip(w);
    DigitsPlain(whole);
    FractionDigits(r);
    DigitsPlain(f);
    PlainRead(whole + ("." + f));
    SplitAtPoint(whole, f);
    DigitsValueAppend(whole, f);
    ScaledValue(whole + f, |f|, 0, DECIMALS - |f|);
    PositionalArith(DigitsValue(whole + f), w, DigitsValue(f), |f|, r);
  }

  /** The arithmetic of the positional reading: the digits of `w` followed
      by the `k` digits of `d` are worth `w * 10^18 + r` base units. */
  lemma PositionalArith(v: nat, w: nat, d: nat, k: nat, r: nat)
    requires k <= DECIMALS && v == w * Pow10(k) + d && d * Pow10(DECIMALS - k) == r
    ensures v * Pow10(DECIMALS - k) == w * UNIT + r
  {
    PositionalValue(w, d, k);
    UnitIsPow10();
  }

  /** The positional form reads back as the amount it shows. */
  lemma PositionalRead(m: nat)
    ensures ReadUnits(Positional(m)) == Some(m)
    ensures |Positional(m)| > 0 && IsDigit(Positional(m)[0])
  {
    var w := m / UNIT;
    var r := m % UNIT;
    var whole := NatToString(w);
    assert m == w * UNIT + r;
    if r == 0 {
      NatRoundTrip(w);
      DigitsPlain(whole);
      UnitIsPow10();
      assert Positional(m) == whole;
      PlainRead(whole);
      IndexOfAbsent(whole, '.');
      ScaledValue(whole, 0, 0, DECIMALS);
    } else {
      assert Positional(m) == whole + ("." + FractionText(r));
      FractionRead(w, r);
    }
  }

  /** The arithmetic of the positional reading:
      `(w * 10^k + d) * 10^(18-k) == w * 10^18 + d * 10^(18-k)`. */
  lemma PositionalValue(w: nat, d: nat, k: nat)
    requires k <= DECIMALS
    ensures (w * Pow10(k) + d) * Pow10(DECIMALS - k) == w * Pow10(DECIMALS) + d * Pow10(DECIMALS - k)
  {
    Pow10Add(k, DECIMALS - k);
    Distribute(w, Pow10(k), d, Pow10(DECIMALS - k));
  }

  lemma Distribute(w: int, a: int, d: int, b: int)
    ensures (w * a + d) * b == w * (a * b) + d * b
  {
  }

  /** The coefficient "d" or "d.ddd" splits back into its digits, of which
      all but the first follow the point. */
  lemma PointAfterFirstSplit(c: string)
    requires |c| > 0 && AllDigits(c)
    ensures 'e' !in PointAfterFirst(c)
    ensures SplitPoint(PointAfterFirst(c)) == (c, |c| - 1)
  {
    DigitsPlain(c);
    var p := PointAfterFirst(c);
    if |c| > 1 {
      assert p == [c[0]] + ("." + c[1..]);
      DigitsPlain(c[1..]);
      IndexOfAppend([c[0]], "." + c[1..], '.');
      assert p[..1] + p[2..] == c;
    } else {
      assert p == c;
    }
  }

  /** The exponent as the exponential form writes it reads back. */
  lemma ExponentText(x: int)
    ensures ReadExponent((if x < 0 then "-" else "+") + NatToString(if x < 0 then -x else x)) == Some(x)
  {
    var size: nat := if x < 0 then -x else x;
    var tail := (if x < 0 then "-" else "+") + NatToString(size);
    NatRoundTrip(size);
    assert tail[1..] == NatToString(size);
  }

  /** The exponential form reads back as the amount it shows. */
  lemma ScientificRead(m: nat)
    requires m > 0
    ensures ReadUnits(Scientific(m)) == Some(m)
    ensures |Scientific(m)| > 0 && IsDigit(Scientific(m)[0])
  {
    var digits := NatToString(m);
    var exponent := |digits| - 1 - DECIMALS;
    var c := TrimTrailingZeros(digits);
    var tail := (if exponent < 0 then "-" else "+") + NatToString(if exponent < 0 then -exponent else exponent);
    assert Scientific(m) == PointAfterFirst(c) + ("e" + tail);
    NatRoundTrip(m);
    TrimValue(digits);
    PointAfterFirstSplit(c);
    ExponentText(exponent);
    ExponentRead(PointAfterFirst(c), tail, exponent);
    ScaledValue(c, |c| - 1, exponent, |digits| - |c|);
  }

  /** The rendering of `v / 10^18` reads back as exactly `v`, in positional
      and in exponential notation alike. */
  lemma FormatUnitsRoundTrip(v: int)
    ensures ReadAmount(FormatUnits(v)) == Some(v)
  {
    var m := if v < 0 then -v else v;
    var body := if UsesExponent(m) then Scientific(m) else Positional(m);
    if UsesExponent(m) {
      ScientificRead(m);
    } else {
      PositionalRead(m);
    }
    if v < 0 {
      assert FormatUnits(v)[1..] == body;
    } else {
      assert FormatUnits(v) == body;
    }
  }

  /** A concrete reading: "1.5" is one and a half tokens. */
  lemma OneAndAHalf()
    ensures ReadAmount("1.5") == Some(1_500_000_000_000_000_000)
  {
    assert IndexOf("1.5", 'e') == 3;
    assert IndexOf("1.5", '.') == 1;
    assert "1.5"[..1] + "1.5"[2..] == "15";
    assert SplitPoint("1.5") == ("15", 1);
    assert DigitsValue("15") == 15;
    assert Pow10(17) == 100_000_000_000_000_000 by {
      UnitIsPow10();
    }
  }
}
