/**
  The amount column: `float(row["Amount"])` on the decimal notations the
  ledger writes, with exact `real` arithmetic in place of binary floating point.
*/
module Amounts {
  import opened Outcomes
  import opened Text

  /** Index of the first '.', or the length when there is none. */
  function DotIndex(s: string): (i: nat)
    ensures i <= |s|
    ensures i < |s| ==> s[i] == '.'
    ensures forall j :: 0 <= j < i ==> s[j] != '.'
  {
    if s == [] then 0
    else if s[0] == '.' then 0
    else 1 + DotIndex(s[1..])
  }

  /** Digits with at most one decimal point and at least one digit: `12`, `12.5`, `.5`, `12.`. */
  function ParseUnsigned(s: string): Option<real> {
    var i := DotIndex(s);
    var whole := s[..i];
    var frac := if i < |s| then s[i + 1..] else [];
    if AllDigits(whole) && AllDigits(frac) && |whole| + |frac| > 0 then
      Some(Value(whole) as real + Value(frac) as real / Pow10(|frac|) as real)
    else
      None
  }

  /** `float(s)`: an optional sign before an unsigned decimal; `None` is the ValueError. */
  function ParseAmount(s: string): (r: Option<real>)
    ensures r.Some? ==> s != [] && (s[0] == '-' || s[0] == '+' || s[0] == '.' || IsDigit(s[0]))
  {
    if |s| > 0 && s[0] == '-' then
      match ParseUnsigned(s[1..])
      case Some(v) => Some(-v)
      case None => None
    else if |s| > 0 && s[0] == '+' then ParseUnsigned(s[1..])
    else ParseUnsigned(s)
  }

  /** The amount a row contributes once its text has been read, zero if it cannot be read. */
  function AmountOf(s: string): real {
    match ParseAmount(s)
    case Some(v) => v
    case None => 0.0
  }

  /** `n` in decimal without leading zeros. */
  function Decimal(n: nat): (s: string)
    ensures |s| > 0 && AllDigits(s)
  {
    if n < 10 then [DigitChar(n)] else Decimal(n / 10) + [DigitChar(n % 10)]
  }

  lemma {:induction false} ValueOfDecimal(n: nat)
    ensures Value(Decimal(n)) == n
  {
    if n >= 10 {
      var s := Decimal(n);
      assert s[..|s| - 1] == Decimal(n / 10);
      ValueOfDecimal(n / 10);
    } else {
      assert Decimal(n)[..0] == [];
    }
  }

  /** `q` units and `r` hundredths, written `q.rr`. */
  function TwoDecimals(q: nat, r: nat): string
    requires r < 100
  {
    Decimal(q) + "." + Pad(r, 2)
  }

  /** An amount of `c` cents written with two decimals, such as `54.20` or `-0.05`. */
  function CentsText(c: int): string {
    var m := if c < 0 then -c else c;
    (if c < 0 then "-" else "") + TwoDecimals(m / 100, m % 100)
  }

  lemma ReadTwoDecimals(q: nat, r: nat)
    requires r < 100
    ensures ParseUnsigned(TwoDecimals(q, r)) == Some(q as real + r as real / 100.0)
  {
    var whole, frac := Decimal(q), Pad(r, 2);
    var s := TwoDecimals(q, r);
    assert s[|whole|] == '.';
    assert forall j :: 0 <= j < |whole| ==> s[j] == whole[j];
    var i := DotIndex(s);
    assert i == |whole|;
    assert s[..i] == whole;
    assert s[i + 1..] == frac;
    ValueOfDecimal(q);
    ValueOfPad(r, 2);
    assert Pow10(2) == 100;
  }

  lemma NegatedAmount(body: string, v: real)
    requires ParseUnsigned(body) == Some(v)
    ensures ParseAmount("-" + body) == Some(-v)
  {
    assert ("-" + body)[1..] == body;
  }

  lemma UnsignedAmount(body: string)
    requires |body| > 0 && IsDigit(body[0])
    ensures ParseAmount(body) == ParseUnsigned(body)
  {
  }

  lemma ReadCents(m: nat)
    ensures ParseUnsigned(TwoDecimals(m / 100, m % 100)) == Some(m as real / 100.0)
  {
    ReadTwoDecimals(m / 100, m % 100);
    assert m == (m / 100) * 100 + m % 100;
  }

  lemma NegativeCents(m: nat)
    ensures ParseAmount("-" + TwoDecimals(m / 100, m % 100)) == Some(-(m as real / 100.0))
  {
    var body := TwoDecimals(m / 100, m % 100);
    ReadCents(m);
    NegatedAmount(body, m as real / 100.0);
  }

  lemma NonNegativeCents(m: nat)
    ensures ParseAmount(TwoDecimals(m / 100, m % 100)) == Some(m as real / 100.0)
  {
    ReadCents(m);
    UnsignedAmount(TwoDecimals(m / 100, m % 100));
  }

  /** Every amount written with two decimals reads back as exactly that many cents. */
  lemma ParseCentsText(c: int)
    ensures ParseAmount(CentsText(c)) == Some(c as real / 100.0)
  {
    if c < 0 {
      var m := -c;
      assert CentsText(c) == "-" + TwoDecimals(m / 100, m % 100);
      NegativeCents(m);
    } else {
      assert CentsText(c) == TwoDecimals(c / 100, c % 100);
      NonNegativeCents(c);
    }
  }
}
