/**
 The Base58 codec of the C client (src_c/client-node/address/base58.c).

 `Encode58` and `Decode58` say what the text of a byte string is, by number and
 without loops; module `Base58Codec` proves the in-place algorithms against them.
 The digit table and the alphabet are written as the ranges of characters they
 consist of.
 */
module Base58 {
  import opened Basics
  import opened Positional

  const ONE: Byte := 49

  /** The alphabet: 1-9, A-H, J-N, P-Z, a-k, m-z. */
  function Letter(d: nat): Byte
    requires d < 58
  {
    if d <= 8 then d + 49
    else if d <= 16 then d + 56
    else if d <= 21 then d + 57
    else if d <= 32 then d + 58
    else if d <= 43 then d + 64
    else d + 65
  }

  /** The digit of a character, -1 for the characters outside the alphabet. */
  function DigitOf(c: Byte): int {
    if 49 <= c <= 57 then c - 49
    else if 65 <= c <= 72 then c - 56
    else if 74 <= c <= 78 then c - 57
    else if 80 <= c <= 90 then c - 58
    else if 97 <= c <= 107 then c - 64
    else if 109 <= c <= 122 then c - 65
    else -1
  }

  ghost predicate AllDigits(text: seq<Byte>) {
    forall i :: 0 <= i < |text| ==> DigitOf(text[i]) != -1
  }

  function Letters(ds: seq<nat>): (text: seq<Byte>)
    requires Below(58, ds)
    ensures |text| == |ds|
  {
    seq(|ds|, i requires 0 <= i < |ds| => Letter(ds[i]))
  }

  function DigitsOf(text: seq<Byte>): (ds: seq<nat>)
    requires AllDigits(text)
    ensures |ds| == |text| && Below(58, ds)
  {
    seq(|text|, i requires 0 <= i < |text| => DigitOf(text[i]))
  }

  function Ones(n: nat): (text: seq<Byte>)
    ensures |text| == n && forall i :: 0 <= i < n ==> text[i] == ONE
  {
    seq(n, _ => ONE)
  }

  // ---- what the codec means ----

  /** One '1' for each leading zero byte, then the rest of the number in base 58. */
  function Encode58(data: seq<Byte>): seq<Byte> {
    DigitsCorrect(58, Value(256, data));
    Ones(LeadingRun(data, 0)) + Letters(Digits(58, Value(256, data)))
  }

  datatype Decoded = Rejected | Accepted(bytes: seq<nat>, size: nat)

  /**
   The bytes of `text` in a buffer of `binsz` bytes: refused exactly when a character
   is outside the alphabet or the number does not fit. The reported size counts the
   significant bytes of the number and one byte for each leading '1'.
   */
  ghost function Decode58(text: seq<Byte>, binsz: nat): Decoded {
    if AllDigits(text) && Value(58, DigitsOf(text)) < Pow(256, binsz) then
      var v := Value(58, DigitsOf(text));
      Accepted(Fixed(256, v, binsz), |Digits(256, v)| + LeadingRun(text, ONE))
    else
      Rejected
  }

  // ---- round trip ----

  /** The table is the inverse of the alphabet. */
  lemma TableInverse(d: nat, c: Byte)
    ensures d < 58 ==> DigitOf(Letter(d)) == d
    ensures DigitOf(c) != -1 ==> 0 <= DigitOf(c) < 58 && Letter(DigitOf(c)) == c
  {
  }

  /**
   The alphabet: the digits but '0' and the letters but 'I', 'O' and 'l', in ascending order. There are
   fifty-eight of them, so this fixes both tables.
   */
  lemma AlphabetAscends(d: nat, e: nat, c: Byte)
    ensures d < e < 58 ==> Letter(d) < Letter(e)
    ensures DigitOf(c) != -1 <==>
            '1' as int <= c <= '9' as int
            || ('A' as int <= c <= 'Z' as int && c != 'I' as int && c != 'O' as int)
            || ('a' as int <= c <= 'z' as int && c != 'l' as int)
  {
  }

  lemma ReadBack(z: nat, ds: seq<nat>)
    requires Below(58, ds) && (ds != [] ==> ds[0] != 0)
    ensures AllDigits(Ones(z) + Letters(ds))
    ensures Value(58, DigitsOf(Ones(z) + Letters(ds))) == Value(58, ds)
    ensures LeadingRun(Ones(z) + Letters(ds), ONE) == z
  {
    hide Value, Pow, LeadingRun;
    var text := Ones(z) + Letters(ds);
    forall i | 0 <= i < |text|
      ensures DigitOf(text[i]) == if i < z then 0 else ds[i - z]
    {
      if i >= z { TableInverse(ds[i - z], text[i]); }
    }
    var read := DigitsOf(text);
    assert read[z..] == ds;
    ValueSkipsZeros(58, read, z);
    LeadingRunUnique(text, ONE, z);
  }

  lemma DigitsOfEncoded(data: seq<Byte>)
    ensures AllDigits(Encode58(data))
    ensures Value(58, DigitsOf(Encode58(data))) == Value(256, data)
    ensures LeadingRun(Encode58(data), ONE) == LeadingRun(data, 0)
  {
    var v, z := Value(256, data), LeadingRun(data, 0);
    DigitsCorrect(58, v);
    ReadBack(z, Digits(58, v));
  }

  /** Decoding at the original size gives back every byte, the leading zeros included. */
  lemma RoundTrip(data: seq<Byte>)
    ensures Decode58(Encode58(data), |data|) == Accepted(data, |data|)
  {
    hide Pow, Value, Digits, Fixed;
    var v, z := Value(256, data), LeadingRun(data, 0);
    DigitsOfEncoded(data);
    ValueBound(256, data);
    FixedOfValue(256, data);
    ValueSkipsZeros(256, data, z);
    DigitsOfValue(256, data[z..]);
  }

  /** Ones before a text add to the size reported and change nothing else. */
  lemma MoreOnes(data: seq<Byte>, k: nat)
    ensures Decode58(Ones(k) + Encode58(data), |data|) == Accepted(data, |data| + k)
  {
    hide Value, Pow, Fixed, LeadingRun;
    var z, ds := LeadingRun(data, 0), Digits(58, Value(256, data));
    DigitsCorrect(58, Value(256, data));
    assert Ones(k) + (Ones(z) + Letters(ds)) == Ones(k + z) + Letters(ds);
    ReadBack(k + z, ds);
    ReadBack(z, ds);
    RoundTrip(data);
  }

  /** A text is determined by its bytes: two byte strings never share a text. */
  lemma EncodeInjective(a: seq<Byte>, b: seq<Byte>)
    requires Encode58(a) == Encode58(b)
    ensures a == b
  {
    hide Pow, Value, Digits;
    DigitsOfEncoded(a);
    DigitsOfEncoded(b);
    var z := LeadingRun(a, 0);
    ValueSkipsZeros(256, a, z);
    ValueSkipsZeros(256, b, z);
    DigitsOfValue(256, a[z..]);
    DigitsOfValue(256, b[z..]);
    assert a == a[..z] + a[z..] && b == b[..z] + b[z..];
  }

  // ---- the buffer is large enough ----

  function Capacity(n: nat): nat {
    n * 138 / 100 + 1
  }

  /** `n` bytes fit the buffer, and all but the last of them fit it with one digit to spare. */
  lemma {:induction false} CapacityBound(n: nat)
    ensures Pow(256, n) <= Pow(58, Capacity(n))
    ensures n >= 1 ==> Pow(256, n - 1) <= Pow(58, Capacity(n) - 1)
  {
    if n <= 8 {
      SmallCapacity(n);
    } else {
      CapacityBound(n - 8);
      EightMore(n - 8, Capacity(n - 8), Capacity(n));
      EightMore(n - 9, Capacity(n - 8) - 1, Capacity(n) - 1);
    }
  }

  lemma EightMore(n: nat, c: nat, c': nat)
    requires Pow(256, n) <= Pow(58, c) && c + 11 <= c'
    ensures Pow(256, n + 8) <= Pow(58, c')
  {
    SmallPowers();
    PowAdd(256, n, 8);
    PowAdd(58, c, 11);
    PowMonotone(58, c + 11, c');
    var p, q, r, s := Pow(256, n), Pow(58, c), Pow(256, 8), Pow(58, 11);
    MulLeft(p, r, s);
    MulLeft(s, p, q);
  }

  lemma SmallCapacity(n: nat)
    requires n <= 8
    ensures Pow(256, n) <= Pow(58, Capacity(n))
    ensures n >= 1 ==> Pow(256, n - 1) <= Pow(58, Capacity(n) - 1)
  {
    SmallPowers();
  }

  lemma SmallPowers()
    ensures Pow(256, 0) == 1 && Pow(256, 1) == 256 && Pow(256, 2) == 65536
    ensures Pow(256, 3) == 16777216 && Pow(256, 4) == 4294967296
    ensures Pow(256, 5) == 1099511627776 && Pow(256, 6) == 281474976710656
    ensures Pow(256, 7) == 72057594037927936 && Pow(256, 8) == 18446744073709551616
    ensures Pow(58, 0) == 1 && Pow(58, 1) == 58 && Pow(58, 2) == 3364 && Pow(58, 3) == 195112
    ensures Pow(58, 4) == 11316496 && Pow(58, 5) == 656356768 && Pow(58, 6) == 38068692544
    ensures Pow(58, 7) == 2207984167552 && Pow(58, 8) == 128063081718016
    ensures Pow(58, 9) == 7427658739644928 && Pow(58, 10) == 430804206899405824
    ensures Pow(58, 11) == 24986644000165537792 && Pow(58, 12) == 1449225352009601191936
  {
  }

  // ---- carries ----

  /**
   One position of an in-place multiplication by `m`: the digit `d` and the incoming
   carry `c` become a digit and an outgoing carry, and the number they denote with the
   positions to the right (`v` now, `v0` before) is `m` times the old one plus `a`.
   */
  lemma CarryStep(m: nat, b: nat, p: nat, c: nat, d: nat, v: nat, v0: nat, a: nat, q: nat, r: nat)
    requires c * p + v == m * v0 + a
    requires q * b + r == c + m * d
    ensures q * (b * p) + (r * p + v) == m * (d * p + v0) + a
    ensures c < m && d < b ==> q < m
  {
    CarryEquation(m, b, p, c, d, v0, q, r);
    if c < m && d < b { CarryBound(m, b, c, d, q, r); }
  }

  lemma CarryEquation(m: nat, b: nat, p: nat, c: nat, d: nat, v0: nat, q: nat, r: nat)
    requires q * b + r == c + m * d
    ensures q * (b * p) + r * p + m * v0 == m * (d * p + v0) + c * p
  {
    calc {
      q * (b * p) + r * p;
    == { Regroup(q, b, p, r); }
      (q * b + r) * p;
    == { assert q * b + r == m * d + c; }
      (m * d + c) * p;
    == { Regroup(m, d, p, c); }
      m * (d * p) + c * p;
    }
    Distribute(m, d * p, v0);
  }

  lemma CarryBound(m: nat, b: nat, c: nat, d: nat, q: nat, r: nat)
    requires q * b + r == c + m * d && c < m && d < b
    ensures q < m
  {
    MulLeft(m, d + 1, b);
    Distribute(m, d, 1);
    if q >= m { MulLeft(b, m, q); }
  }
}
