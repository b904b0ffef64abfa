/**
 * Balances and amounts. The source keeps them as arbitrary-precision decimals; here they are
 * exact whole numbers of the smallest unit (cents), so sums and differences never round.
 */
module Money {
  import opened Wrappers
  import opened Numerals
  import opened Seqs

  /** An amount of money as a whole number of cents. */
  type Money = int

  const CentsPerUnit: nat := 100

  /** The fractional part of a rendering: nothing for whole amounts, otherwise a point and the cents without a trailing zero. */
  function FractionText(cents: nat): (s: string)
    requires cents < CentsPerUnit
    ensures cents == 0 <==> s == []
    ensures s != [] ==> s[0] == '.' && AllDigits(s[1..]) && 2 <= |s| <= 3
  {
    if cents == 0 then ""
    else if cents % 10 == 0 then ['.', DigitChar(cents / 10)]
    else ['.', DigitChar(cents / 10), DigitChar(cents % 10)]
  }

  /**
   * `decimal.Decimal.String()`: an optional minus sign, the whole units, and the cents with
   * trailing zeros trimmed (15000 renders as "150", 15050 as "150.5", -5 as "-0.05").
   */
  function Render(m: Money): (r: string)
    ensures |r| > 0
    ensures m < 0 ==> r[0] == '-'
  {
    var magnitude := if m < 0 then -m else m;
    (if m < 0 then "-" else "") + NatToString(magnitude / CentsPerUnit) + FractionText(magnitude % CentsPerUnit)
  }

  predicate IsDot(c: char) { c == '.' }

  /** The cents a fractional part of one or two digits stands for ("5" is 50, "05" is 5). */
  function FractionValue(digits: string): nat
    requires AllDigits(digits) && |digits| <= 2
  {
    if |digits| == 0 then 0
    else if |digits| == 1 then 10 * DigitValue(digits[0])
    else 10 * DigitValue(digits[0]) + DigitValue(digits[1])
  }

  /** Reads an unsigned decimal with at most two fraction digits. */
  function ParseMagnitude(s: string): Option<nat>
  {
    var p := FirstIndex(s, IsDot);
    var whole := s[..p];
    var fraction := if p < |s| then s[p + 1..] else "";
    if |whole| == 0 || !AllDigits(whole) then None
    else if p < |s| && (|fraction| == 0 || |fraction| > 2 || !AllDigits(fraction)) then None
    else Some(CentsPerUnit * DigitsValue(whole) + FractionValue(fraction))
  }

  /** Reads a rendered balance back into cents. */
  function Parse(s: string): (r: Option<Money>)
    ensures r.Some? && |s| > 0 && s[0] == '-' ==> r.value <= 0
    ensures r.Some? && (|s| == 0 || s[0] != '-') ==> r.value >= 0
  {
    if |s| > 0 && s[0] == '-' then
      match ParseMagnitude(s[1..])
      case None => None
      case Some(v) => Some(-(v as int))
    else
      ParseMagnitude(s)
  }

  lemma {:induction false} ParseMagnitudeOfRender(magnitude: nat)
    ensures ParseMagnitude(NatToString(magnitude / CentsPerUnit) + FractionText(magnitude % CentsPerUnit)) == Some(magnitude)
  {
    var units, cents := magnitude / CentsPerUnit, magnitude % CentsPerUnit;
    var whole, fraction := NatToString(units), FractionText(cents);
    var s := whole + fraction;
    var p := FirstIndex(s, IsDot);
    if fraction != [] {
      assert s[|whole|] == '.';
      assert p == |whole|;
      assert s[p + 1..] == fraction[1..];
    } else {
      assert s == whole;
    }
    assert s[..p] == whole;
    DigitsValueOfNatToString(units);
  }

  /** Reading a rendering back gives the amount: `Render` loses nothing. */
  lemma ParseRender(m: Money)
    ensures Parse(Render(m)) == Some(m)
  {
    var magnitude := if m < 0 then -m else m;
    var body := NatToString(magnitude / CentsPerUnit) + FractionText(magnitude % CentsPerUnit);
    ParseMagnitudeOfRender(magnitude);
    assert ParseMagnitude(body) == Some(magnitude);
    var r := Render(m);
    if m < 0 {
      assert r == "-" + body && r[1..] == body;
      assert |r| > 0 && r[0] == '-';
    } else {
      assert r == body && IsDigit(body[0]);
      assert r[0] != '-';
    }
  }

  /** Distinct amounts render differently. */
  lemma RenderInjective(a: Money, b: Money)
    requires Render(a) == Render(b)
    ensures a == b
  {
    ParseRender(a);
    ParseRender(b);
  }

  /** A rendering starts with a minus sign exactly when the amount is negative. */
  lemma RenderSign(m: Money)
    ensures |Render(m)| > 0
    ensures Render(m)[0] == '-' <==> m < 0
  {
    var magnitude := if m < 0 then -m else m;
    var whole := NatToString(magnitude / CentsPerUnit);
    if m >= 0 {
      assert Render(m)[0] == whole[0] && IsDigit(whole[0]);
    }
  }
}
