/**
 `Melange.String` (spice.go:172-193): the decimal text of an amount, with the zeros of the
 fraction trimmed on both sides and put back on the left only.
 */
module MelangeText {
  import opened Positional
  import opened Spice

  function DigitChar(d: nat): char
    requires d < 10
  {
    ('0' as int + d) as char
  }

  predicate IsDigit(c: char) {
    '0' <= c <= '9'
  }

  ghost predicate IsNumeral(s: string) {
    forall i :: 0 <= i < |s| ==> IsDigit(s[i])
  }

  function Chars(ds: seq<nat>): (s: string)
    requires Below(10, ds)
    ensures |s| == |ds| && IsNumeral(s)
  {
    seq(|ds|, i requires 0 <= i < |ds| => DigitChar(ds[i]))
  }

  function DigitIn(c: char): (d: nat)
    requires IsDigit(c)
    ensures d < 10
  {
    c as int - '0' as int
  }

  function DigitsIn(s: string): (ds: seq<nat>)
    requires IsNumeral(s)
    ensures |ds| == |s| && Below(10, ds)
  {
    seq(|s|, i requires 0 <= i < |s| => DigitIn(s[i]))
  }

  /** The number a numeral denotes. */
  function NatOf(s: string): nat
    requires IsNumeral(s)
  {
    Value(10, DigitsIn(s))
  }

  /** `%v` of an unsigned number. */
  function Decimal(n: nat): (s: string)
    ensures IsNumeral(s) && |s| >= 1
  {
    DigitsCorrect(10, n);
    if n == 0 then "0" else Chars(Digits(10, n))
  }

  lemma DecimalCorrect(n: nat)
    ensures NatOf(Decimal(n)) == n
    ensures n > 0 ==> Decimal(n)[0] != '0'
  {
    hide Pow, Value, Digits;
    DigitsCorrect(10, n);
    if n == 0 {
      ValueOfZeros(10, DigitsIn("0"));
    } else {
      assert DigitsIn(Decimal(n)) == Digits(10, n);
    }
  }

  function Zeros(n: nat): (s: string)
    ensures |s| == n && forall i :: 0 <= i < n ==> s[i] == '0'
  {
    seq(n, _ => '0')
  }

  function TrimLeft(s: string): (r: string)
    ensures |r| <= |s| && s == Zeros(|s| - |r|) + r
    ensures r != "" ==> r[0] != '0'
  {
    if s != "" && s[0] == '0' then
      assert s == [s[0]] + s[1..];
      TrimLeft(s[1..])
    else s
  }

  function TrimRight(s: string): (r: string)
    ensures |r| <= |s| && s == r + Zeros(|s| - |r|)
    ensures r != "" ==> r[|r| - 1] != '0'
  {
    if s != "" && s[|s| - 1] == '0' then
      assert s == s[..|s| - 1] + ['0'];
      TrimRight(s[..|s| - 1])
    else s
  }

  /** `strings.Trim(s, "0")`. */
  function Trim(s: string): string {
    TrimRight(TrimLeft(s))
  }

  /** The text after the point. */
  function Fraction(supplementary: U64): string {
    var digits := Decimal(supplementary);
    var zeros := 18 - |digits|;
    var trimmed := Trim(if zeros < 0 then "0" else digits);
    if trimmed == "" then "0" else Zeros(if zeros < 0 then 0 else zeros) + trimmed
  }

  function Text(a: Amount): string {
    Decimal(a.currency) + "." + Fraction(a.supplementary)
  }

  method String(a: Amount) returns (text: string)
    ensures text == Text(a) && Shortest(text)
    ensures Denotes(text, a.currency, if Normal(a) then a.supplementary else 0)
  {
    hide Shortest, Denotes, NatOf, Pow, Decimal, TrimLeft, TrimRight, IsNumeral;
    var supplementary := Decimal(a.supplementary);
    var zeros := 18 - |supplementary|;
    if zeros < 0 {
      supplementary := "0";
    }
    supplementary := Trim(supplementary);
    var buf := "";
    if |supplementary| != 0 {
      var i := 0;
      while i < zeros
        invariant buf == Zeros(|buf|) && |buf| == i && (zeros >= 0 ==> i <= zeros) && (zeros < 0 ==> i == 0)
      {
        buf := buf + "0";
        i := i + 1;
      }
    }
    buf := buf + supplementary;
    if |buf| == 0 {
      buf := "0";
    }
    text := Decimal(a.currency) + "." + buf;
    TextShortest(a);
    TextLosesNothing(a);
  }

  // ---- reading it back ----

  /** The fields a text `c.f` denotes: `f` fills the eighteen places after the point from the left. */
  ghost predicate Denotes(text: string, currency: nat, supplementary: nat) {
    exists c, f :: text == c + "." + f && IsNumeral(c) && IsNumeral(f) && |f| <= 18
      && NatOf(c) == currency && NatOf(f) * Pow(10, 18 - |f|) == supplementary
  }

  lemma NumeralConcat(s: string, t: string)
    requires IsNumeral(s) && IsNumeral(t)
    ensures IsNumeral(s + t)
  {
  }

  lemma DigitsInConcat(s: string, t: string)
    requires IsNumeral(s) && IsNumeral(t) && IsNumeral(s + t)
    ensures DigitsIn(s + t) == DigitsIn(s) + DigitsIn(t)
  {
    hide IsDigit, DigitIn;
    var u, v := DigitsIn(s + t), DigitsIn(s) + DigitsIn(t);
    forall i | 0 <= i < |u|
      ensures u[i] == v[i]
    {
      if i < |s| { assert (s + t)[i] == s[i]; } else { assert (s + t)[i] == t[i - |s|]; }
    }
  }

  lemma NatOfConcat(s: string, t: string)
    requires IsNumeral(s) && IsNumeral(t)
    ensures IsNumeral(s + t) && NatOf(s + t) == NatOf(s) * Pow(10, |t|) + NatOf(t)
  {
    hide Pow, Value, DigitsIn, IsNumeral;
    NumeralConcat(s, t);
    DigitsInConcat(s, t);
    ValueConcat(10, DigitsIn(s), DigitsIn(t));
  }

  lemma NatOfZeros(n: nat)
    ensures NatOf(Zeros(n)) == 0
  {
    ValueOfZeros(10, DigitsIn(Zeros(n)));
  }

  lemma EighteenDigits()
    ensures Pow(10, 18) == PART && Pow(10, 17) * 10 == PART
  {
    assert Pow(10, 6) == 1_000_000;
    PowAdd(10, 6, 6);
    PowAdd(10, 12, 6);
  }

  /** At most eighteen digits exactly when the amount is normal. */
  lemma DecimalLength(n: nat)
    ensures |Decimal(n)| <= 18 <==> n < PART
  {
    hide Pow, Value, Digits;
    EighteenDigits();
    if n < PART {
      DigitsLength(10, n, 18);
    } else {
      DigitsCorrect(10, n);
      var ds := Digits(10, n);
      ValueBound(10, ds);
      if |ds| <= 18 { PowMonotone(10, |ds|, 18); }
    }
  }

  /** Trimming zeros on the right of a numeral takes out the power of ten. */
  lemma TrimmedValue(d: string)
    requires IsNumeral(d)
    ensures IsNumeral(TrimRight(d))
    ensures NatOf(d) == NatOf(TrimRight(d)) * Pow(10, |d| - |TrimRight(d)|)
  {
    hide Pow, NatOf, TrimRight;
    var t := TrimRight(d);
    var k := |d| - |t|;
    assert t == d[..|t|];
    NatOfConcat(t, Zeros(k));
    NatOfZeros(k);
  }

  lemma PaddedValue(n: nat, t: string)
    requires IsNumeral(t)
    ensures IsNumeral(Zeros(n) + t) && NatOf(Zeros(n) + t) == NatOf(t)
  {
    hide Pow, NatOf;
    NatOfConcat(Zeros(n), t);
    NatOfZeros(n);
  }

  /** The digits of parts below a unit, the zeros before them put back and the zeros after them left out. */
  lemma FractionShape(s: U64)
    requires 0 < s < PART
    ensures |Decimal(s)| <= 18 && TrimRight(Decimal(s)) != ""
    ensures Fraction(s) == Zeros(18 - |Decimal(s)|) + TrimRight(Decimal(s))
  {
    hide Pow, NatOf, TrimRight, Decimal;
    var d := Decimal(s);
    DecimalLength(s);
    DecimalCorrect(s);
    assert TrimLeft(d) == d;
    assert TrimRight(d) != "";
  }

  lemma FractionDenotes(s: U64)
    requires s < PART
    ensures IsNumeral(Fraction(s)) && |Fraction(s)| <= 18
    ensures NatOf(Fraction(s)) * Pow(10, 18 - |Fraction(s)|) == s
  {
    hide Pow, NatOf, TrimRight, Decimal, Fraction, Zeros;
    if s == 0 {
      ZeroFraction();
    } else {
      var d := Decimal(s);
      FractionShape(s);
      DecimalCorrect(s);
      TrimmedValue(d);
      PaddedValue(18 - |d|, TrimRight(d));
    }
  }

  /** A numeral without zeros before it, and a fraction without zeros after it. */
  ghost predicate Unpadded(c: string) {
    IsNumeral(c) && (c == "0" || (c != "" && c[0] != '0'))
  }

  ghost predicate Trimmed(f: string) {
    IsNumeral(f) && (f == "0" || (f != "" && f[|f| - 1] != '0'))
  }

  /** With what it denotes, this fixes a text. */
  ghost predicate Shortest(text: string) {
    exists c, f :: text == c + "." + f && Unpadded(c) && Trimmed(f)
  }

  /** A fraction does not end in a zero, unless it is one. */
  lemma FractionTrimmed(s: U64)
    ensures 0 < s < PART ==> Fraction(s) != "" && Fraction(s)[|Fraction(s)| - 1] != '0'
    ensures s == 0 || s >= PART ==> Fraction(s) == "0"
  {
    hide Pow, TrimRight, Decimal, Fraction;
    if s >= PART {
      LongFraction(s);
      ZeroFraction();
    } else if s > 0 {
      FractionShape(s);
    } else {
      ZeroFraction();
    }
  }

  lemma TextShortest(a: Amount)
    ensures Shortest(Text(a))
  {
    hide Pow, NatOf, Decimal, Fraction, IsNumeral;
    var s := if Normal(a) then a.supplementary else 0;
    DecimalCorrect(a.currency);
    DecimalOfZero();
    FractionDenotes(s);
    FractionTrimmed(s);
    FractionTrimmed(a.supplementary);
    assert Unpadded(Decimal(a.currency)) && Trimmed(Fraction(s));
    assert Text(a) == Decimal(a.currency) + "." + Fraction(s);
  }

  lemma DecimalOfZero()
    ensures Decimal(0) == "0"
  {
  }

  lemma ZeroFraction()
    ensures Fraction(0) == "0" && NatOf("0") == 0
  {
    NatOfZeros(1);
    assert Zeros(1) == "0";
    assert TrimLeft("0") == "";
    assert Trim("0") == "";
  }

  lemma SplitAtPoint(c: string, f: string, c': string, f': string)
    requires IsNumeral(c) && IsNumeral(c') && c + "." + f == c' + "." + f'
    ensures c == c' && f == f'
  {
    var s := c + "." + f;
    assert s[|c|] == '.' && forall i :: 0 <= i < |c| ==> s[i] != '.';
    assert s[|c'|] == '.' && forall i :: 0 <= i < |c'| ==> s[i] != '.';
    assert c == s[..|c|] && c' == s[..|c|] && f == s[|c| + 1..] && f' == s[|c| + 1..];
  }

  lemma DenotesOnce(text: string, c: nat, s: nat, c': nat, s': nat)
    requires Denotes(text, c, s) && Denotes(text, c', s')
    ensures c == c' && s == s'
  {
    hide Pow, NatOf;
    var x, f :| text == x + "." + f && IsNumeral(x) && IsNumeral(f) && |f| <= 18
      && NatOf(x) == c && NatOf(f) * Pow(10, 18 - |f|) == s;
    var x', f' :| text == x' + "." + f' && IsNumeral(x') && IsNumeral(f') && |f'| <= 18
      && NatOf(x') == c' && NatOf(f') * Pow(10, 18 - |f'|) == s';
    SplitAtPoint(x, f, x', f');
  }

  /** The text denotes the printed currency, and the printed parts exactly when the amount is normal. */
  lemma TextLosesNothing(a: Amount)
    ensures Denotes(Text(a), a.currency, if Normal(a) then a.supplementary else 0)
    ensures Denotes(Text(a), a.currency, a.supplementary) <==> Normal(a)
  {
    hide Pow, NatOf, Decimal, Fraction;
    DecimalCorrect(a.currency);
    var s := if Normal(a) then a.supplementary else 0;
    FractionDenotes(s);
    if !Normal(a) { LongFraction(a.supplementary); }
    assert Text(a) == Decimal(a.currency) + "." + Fraction(s);
    assert Denotes(Text(a), a.currency, s);
    if !Normal(a) && Denotes(Text(a), a.currency, a.supplementary) {
      DenotesOnce(Text(a), a.currency, 0, a.currency, a.supplementary);
    }
  }

  lemma LongFraction(s: U64)
    requires s >= PART
    ensures Fraction(s) == Fraction(0)
  {
    DecimalLength(s);
  }

  lemma SameDigits(s: string, t: string)
    requires IsNumeral(s) && IsNumeral(t) && DigitsIn(s) == DigitsIn(t)
    ensures s == t
  {
    forall i | 0 <= i < |s|
      ensures s[i] == t[i]
    {
      assert DigitsIn(s)[i] == DigitsIn(t)[i];
    }
  }

  /** The only numeral of a number without padding. */
  lemma DecimalOnly(c: string)
    requires Unpadded(c)
    ensures c == Decimal(NatOf(c))
  {
    hide Pow, Value, Digits;
    var d := Decimal(NatOf(c));
    if c == "0" {
      ValueOfZeros(10, DigitsIn(c));
    } else {
      PowPositive(10, |c| - 1);
      ValueLeading(10, DigitsIn(c));
      DigitsOfValue(10, DigitsIn(c));
      assert DigitsIn(d) == Digits(10, NatOf(c));
      SameDigits(c, d);
    }
  }

  /** Filled up to eighteen places, a fraction is the number in eighteen digits. */
  lemma FractionPlaces(f: string, s: nat)
    requires IsNumeral(f) && |f| <= 18 && NatOf(f) * Pow(10, 18 - |f|) == s
    ensures IsNumeral(f + Zeros(18 - |f|)) && DigitsIn(f + Zeros(18 - |f|)) == Fixed(10, s, 18)
  {
    hide Pow, Value, Fixed;
    var z := Zeros(18 - |f|);
    NatOfConcat(f, z);
    NatOfZeros(18 - |f|);
    FixedOfValue(10, DigitsIn(f + z));
  }

  lemma FractionOnly(f: string, g: string, s: nat)
    requires Trimmed(f) && |f| <= 18 && NatOf(f) * Pow(10, 18 - |f|) == s
    requires Trimmed(g) && |g| <= 18 && NatOf(g) * Pow(10, 18 - |g|) == s
    ensures f == g
  {
    hide Pow, NatOf, IsNumeral, Fixed;
    var f', g' := f + Zeros(18 - |f|), g + Zeros(18 - |g|);
    FractionPlaces(f, s);
    FractionPlaces(g, s);
    SameDigits(f', g');
    assert f == f'[..|f|] && g == f'[..|g|];
    assert forall i :: |f| <= i < 18 ==> f'[i] == '0';
    assert forall i :: |g| <= i < 18 ==> g'[i] == '0';
    assert f'[0] == f[0] && g'[0] == g[0];
  }

  /** The printed text is the only shortest one that denotes the amount. */
  lemma TextOnly(a: Amount, text: string)
    requires Normal(a)
    ensures text == Text(a) <==> Shortest(text) && Denotes(text, a.currency, a.supplementary)
  {
    hide Pow, NatOf, Decimal, Fraction, Shortest, Denotes;
    TextShortest(a);
    TextLosesNothing(a);
    if Shortest(text) && Denotes(text, a.currency, a.supplementary) {
      ShortestOnly(text, a.currency, a.supplementary);
    }
  }

  lemma ShortestOnly(text: string, c: nat, s: U64)
    requires s < PART && Shortest(text) && Denotes(text, c, s)
    ensures text == Decimal(c) + "." + Fraction(s)
  {
    hide Pow, NatOf, Decimal, Fraction, IsNumeral;
    var x, f :| text == x + "." + f && Unpadded(x) && Trimmed(f);
    var x', f' :| text == x' + "." + f' && IsNumeral(x') && IsNumeral(f') && |f'| <= 18
      && NatOf(x') == c && NatOf(f') * Pow(10, 18 - |f'|) == s;
    SplitAtPoint(x, f, x', f');
    DecimalOnly(x);
    FractionDenotes(s);
    FractionTrimmed(s);
    FractionOnly(f, Fraction(s), s);
  }

  /** Two normal amounts are never printed alike. */
  lemma TextInjective(a: Amount, b: Amount)
    requires Normal(a) && Normal(b) && Text(a) == Text(b)
    ensures a == b
  {
    hide Text, Denotes;
    TextLosesNothing(a);
    TextLosesNothing(b);
    DenotesOnce(Text(a), a.currency, a.supplementary, b.currency, b.supplementary);
  }
}
