/**
 `b58enc` and `b58tobin`: the loops of base58.c over their working buffers, proved
 to compute `Base58.Encode58` and `Base58.Decode58`. The inner carry loops are methods
 of their own.
 */
module Base58Codec {
  import opened Basics
  import opened Positional
  import opened Base58

  // ---- multiplying a buffer in place ----

  /**
   The buffer `s` was `was`; positions right of `j` have been multiplied by `m` with `a`
   added, `carry` is still to be added at `j`, and everything up to `j` is untouched.
   */
  ghost predicate Carrying(m: nat, b: nat, s: seq<nat>, was: seq<nat>, j: int, carry: nat, a: nat) {
    && |s| == |was| && -1 <= j < |s|
    && Below(b, s) && carry < m
    && s[..j + 1] == was[..j + 1]
    && carry * Pow(b, |s| - 1 - j) + Value(b, s[j + 1..]) == m * Value(b, was[j + 1..]) + a
  }

  lemma CarryOn(m: nat, b: nat, s: seq<nat>, was: seq<nat>, j: nat, carry: nat, a: nat, q: nat, r: nat)
    requires m >= 1 && Carrying(m, b, s, was, j, carry, a)
    requires q * b + r == carry + m * s[j] && r < b
    ensures Carrying(m, b, s[j := r], was, j - 1, q, a)
  {
    var s' := s[j := r];
    CarryStep(m, b, Pow(b, |s| - 1 - j), carry, s[j], Value(b, s[j + 1..]), Value(b, was[j + 1..]), a, q, r);
    assert s'[j..] == [r] + s[j + 1..];
    assert was[j..] == [s[j]] + was[j + 1..];
    assert s'[j..][1..] == s[j + 1..] && was[j..][1..] == was[j + 1..];
    assert s'[..j] == was[..j];
  }

  /** Stopped at `j` without a carry, and only zeros left of it: the whole number is multiplied. */
  lemma CarryStops(m: nat, b: nat, s: seq<nat>, was: seq<nat>, j: int, a: nat)
    requires Carrying(m, b, s, was, j, 0, a)
    requires forall k :: 0 <= k <= j ==> was[k] == 0
    ensures Value(b, s) == m * Value(b, was) + a
  {
    assert forall k :: 0 <= k <= j ==> s[k] == s[..j + 1][k] == was[..j + 1][k] == 0;
    ValueSkipsZeros(b, s, j + 1);
    ValueSkipsZeros(b, was, j + 1);
  }

  lemma NoCarry(carry: nat, p: nat, v: nat, w: nat)
    requires carry * p + v == w && v < p
    ensures w < p <==> carry == 0
    ensures carry == 0 ==> v == w
  {
    if carry > 0 { MulLeft(p, 1, carry); }
  }

  lemma CarriedAll(m: nat, b: nat, s: seq<nat>, was: seq<nat>, carry: nat, a: nat)
    requires Carrying(m, b, s, was, -1, carry, a)
    ensures carry * Pow(b, |s|) + Value(b, s) == m * Value(b, was) + a
  {
    assert s[0..] == s && was[0..] == was;
  }

  /** Past the first position: a number that fits leaves no carry. */
  lemma CarryFits(m: nat, b: nat, s: seq<nat>, was: seq<nat>, carry: nat, a: nat)
    requires Carrying(m, b, s, was, -1, carry, a)
    ensures m * Value(b, was) + a < Pow(b, |s|) <==> carry == 0
    ensures carry == 0 ==> Value(b, s) == m * Value(b, was) + a
  {
    hide Pow, Value;
    CarriedAll(m, b, s, was, carry, a);
    ValueBound(b, s);
    var p, v, w := Pow(b, |s|), Value(b, s), m * Value(b, was) + a;
    NoCarry(carry, p, v, w);
  }

  lemma CarryStart(m: nat, b: nat, s: seq<nat>, a: nat)
    requires Below(b, s) && a < m
    ensures Carrying(m, b, s, s, |s| - 1, a, a)
  {
    assert s[|s|..] == [];
  }

  // ---- encoding ----

  /** Everything up to the high-water mark is zero. */
  ghost predicate ZeroTo(s: seq<nat>, high: nat) {
    high < |s| && forall k :: 0 <= k <= high ==> s[k] == 0
  }

  /**
   The inner loop of `b58enc`: multiply the base-58 number by 256 and add `a`, touching
   only the positions right of the new high-water mark `j`.
   */
  method AbsorbByte(buf: array<nat>, high: nat, a: Byte) returns (j: nat)
    requires Below(58, buf[..]) && ZeroTo(buf[..], high)
    requires 256 * Value(58, buf[..]) + a < Pow(58, buf.Length)
    modifies buf
    ensures Below(58, buf[..])
    ensures Value(58, buf[..]) == 256 * old(Value(58, buf[..])) + a
    ensures j <= high && (forall k :: 0 <= k < j ==> buf[k] == 0) && (j > 0 ==> buf[j] == 0)
  {
    hide Pow, Value;
    ghost var was := buf[..];
    var carry := a;
    j := buf.Length - 1;
    CarryStart(256, 58, was, a);
    while j > high || carry != 0
      invariant Carrying(256, 58, buf[..], was, j, carry, a)
      decreases j
    {
      ghost var s := buf[..];
      var t := carry + 256 * buf[j];
      CarryOn(256, 58, s, was, j, carry, a, t / 58, t % 58);
      buf[j] := t % 58;
      carry := t / 58;
      assert buf[..] == s[j := buf[j]];
      if j == 0 {
        CarryFits(256, 58, buf[..], was, carry, a);
        return;
      }
      j := j - 1;
    }
    CarryStops(256, 58, buf[..], was, j, a);
    assert forall k :: 0 <= k <= j ==> buf[k] == buf[..][..j + 1][k];
  }

  /** Before byte `i` is absorbed the first digit is free, and with it the number still fits. */
  lemma Room(data: seq<Byte>, z: nat, i: nat, s: seq<nat>)
    requires z <= i < |data| && |s| == Capacity(|data| - z) && Below(58, s)
    requires Value(58, s) == Value(256, data[z..i])
    ensures 256 * Value(58, s) + data[i] == Value(256, data[z..i + 1]) < Pow(58, |s|)
    ensures s[0] == 0
  {
    hide Pow, Value;
    var n := |data| - z;
    assert data[z..i + 1] == data[z..i] + [data[i]];
    ValueSnoc(256, data[z..i], data[i]);
    ValueBound(256, data[z..i]);
    ValueBound(256, data[z..i + 1]);
    PowMonotone(256, i - z, n - 1);
    PowMonotone(256, i + 1 - z, n);
    CapacityBound(n);
    ValueLeading(58, s);
  }

  /** The outer loop of `b58enc`: the base-58 digits of the bytes after the leading zeros. */
  method FillDigits(data: seq<Byte>, z: nat) returns (buf: array<nat>)
    requires z <= |data|
    ensures fresh(buf) && buf.Length == Capacity(|data| - z) && Below(58, buf[..])
    ensures Value(58, buf[..]) == Value(256, data[z..])
  {
    hide Pow, Value;
    var size := Capacity(|data| - z);
    buf := new nat[size](_ => 0);
    var high: nat, i: nat := size - 1, z;
    ValueOfZeros(58, buf[..]);
    assert data[z..z] == [];
    ValueOfZeros(256, data[z..z]);
    while i < |data|
      invariant z <= i <= |data| && high < size
      invariant Below(58, buf[..])
      invariant Value(58, buf[..]) == Value(256, data[z..i])
      invariant (forall k :: 0 <= k < high ==> buf[k] == 0) && (high > 0 ==> buf[high] == 0)
    {
      Room(data, z, i, buf[..]);
      high := AbsorbByte(buf, high, data[i]);
      i := i + 1;
    }
    assert data[z..i] == data[z..];
  }

  method CountLeading(s: seq<Byte>, d: Byte) returns (n: nat)
    ensures n == LeadingRun(s, d)
  {
    n := 0;
    while n < |s| && s[n] == d
      invariant n <= |s| && forall i :: 0 <= i < n ==> s[i] == d
    {
      n := n + 1;
    }
    LeadingRunUnique(s, d, n);
  }

  /** Skipping the zeros of the full buffer leaves exactly the digits of the number. */
  lemma Significant(data: seq<Byte>, z: nat, s: seq<nat>, j: nat)
    requires z == LeadingRun(data, 0) && Below(58, s)
    requires Value(58, s) == Value(256, data[z..])
    requires j <= |s| && (forall k :: 0 <= k < j ==> s[k] == 0) && (j < |s| ==> s[j] != 0)
    ensures s[j..] == Digits(58, Value(256, data))
  {
    hide Pow, Value, Digits;
    ValueSkipsZeros(256, data, z);
    ValueSkipsZeros(58, s, j);
    DigitsOfValue(58, s[j..]);
  }

  method SkipZeros(buf: array<nat>) returns (j: nat)
    ensures j <= buf.Length && (forall k :: 0 <= k < j ==> buf[k] == 0) && (j < buf.Length ==> buf[j] != 0)
  {
    j := 0;
    while j < buf.Length && buf[j] == 0
      invariant j <= buf.Length && forall k :: 0 <= k < j ==> buf[k] == 0
    {
      j := j + 1;
    }
  }

  /** The writing loops of `b58enc`: `z` ones, the letters of `ds`, and the terminating zero. */
  method WriteText(b58: array<Byte>, z: nat, ds: seq<nat>)
    requires Below(58, ds) && z + |ds| < b58.Length
    modifies b58
    ensures b58[..z + |ds|] == Ones(z) + Letters(ds)
    ensures b58[z + |ds|] == 0
    ensures forall k :: z + |ds| < k < b58.Length ==> b58[k] == old(b58[k])
  {
    var i := 0;
    while i < z
      invariant i <= z
      invariant forall k :: 0 <= k < i ==> b58[k] == ONE
      invariant forall k :: i <= k < b58.Length ==> b58[k] == old(b58[k])
    {
      b58[i] := ONE;
      i := i + 1;
    }
    while i < z + |ds|
      invariant z <= i <= z + |ds|
      invariant forall k :: 0 <= k < z ==> b58[k] == ONE
      invariant forall k :: z <= k < i ==> b58[k] == Letter(ds[k - z])
      invariant forall k :: i <= k < b58.Length ==> b58[k] == old(b58[k])
    {
      b58[i] := Letter(ds[i - z]);
      i := i + 1;
    }
    b58[i] := 0;
  }

  /**
   `b58enc`: writes the text and its terminating zero if the buffer has room for both, and
   otherwise writes nothing. Either way the size asked for is reported.
   */
  method B58Enc(b58: array<Byte>, b58sz: nat, data: seq<Byte>) returns (ok: bool, newSz: nat)
    requires b58sz <= b58.Length
    modifies b58
    ensures newSz == |Encode58(data)| + 1
    ensures ok <==> newSz <= b58sz
    ensures ok ==> b58[..newSz] == Encode58(data) + [0]
    ensures forall k :: (if ok then newSz else 0) <= k < b58.Length ==> b58[k] == old(b58[k])
  {
    hide Pow, Value, Digits;
    var z := CountLeading(data, 0);
    var buf := FillDigits(data, z);
    var j := SkipZeros(buf);
    Significant(data, z, buf[..], j);
    assert buf[..][j..] == buf[j..];
    newSz := z + buf.Length - j + 1;
    if b58sz <= z + buf.Length - j {
      ok := false;
      return;
    }
    ok := true;
    WriteText(b58, z, buf[j..]);
  }

  // ---- decoding ----

  /** Limbs are 32-bit words, four bytes each. */
  const LIMB: nat := 0x1_0000_0000

  lemma LimbIsFourBytes()
    ensures LIMB == Pow(256, 4)
  {
    SmallPowers();
  }

  function LimbCount(binsz: nat): nat {
    (binsz + 3) / 4
  }

  lemma FirstLimb(s: seq<nat>, m: nat, p: nat, rest: nat, v: nat)
    requires |s| > 0 && v == s[0] * p + rest && rest < p
    ensures v < m * p <==> s[0] < m
  {
    if s[0] < m {
      MulLeft(p, s[0] + 1, m);
      assert p * (s[0] + 1) == s[0] * p + p;
    } else {
      MulLeft(p, m, s[0]);
    }
  }

  /** The limbs hold less than `binsz` full bytes exactly when the top limb's spare bytes are zero. */
  lemma FitsBytes(s: seq<nat>, binsz: nat)
    requires binsz > 0 && |s| == LimbCount(binsz) && Below(LIMB, s)
    ensures Value(LIMB, s) < Pow(256, binsz) <==> binsz % 4 == 0 || s[0] < Pow(256, binsz % 4)
  {
    hide Pow, Value;
    if binsz % 4 == 0 {
      FullLimbs(s);
    } else {
      PartialLimb(s, binsz % 4);
      assert 4 * (|s| - 1) + binsz % 4 == binsz;
    }
  }

  lemma FullLimbs(s: seq<nat>)
    requires Below(LIMB, s)
    ensures Value(LIMB, s) < Pow(256, 4 * |s|)
  {
    hide Pow, Value;
    LimbIsFourBytes();
    ValueBound(LIMB, s);
    PowOfPow(256, 4, |s|);
  }

  lemma PartialLimb(s: seq<nat>, k: nat)
    requires |s| > 0 && Below(LIMB, s)
    ensures Value(LIMB, s) < Pow(256, 4 * (|s| - 1) + k) <==> s[0] < Pow(256, k)
  {
    hide Pow;
    var n := |s| - 1;
    LimbIsFourBytes();
    ValueBound(LIMB, s[1..]);
    PowOfPow(256, 4, n);
    PowAdd(256, k, 4 * n);
    FirstLimb(s, Pow(256, k), Pow(LIMB, n), Value(LIMB, s[1..]), Value(LIMB, s));
  }

  /** The inner loop of `b58tobin`: multiply the limbs by 58 and add `c`, returning what does not fit. */
  method ShiftIn(outi: array<nat>, c: nat) returns (carry: nat)
    requires Below(LIMB, outi[..]) && c < 58
    modifies outi
    ensures Carrying(58, LIMB, outi[..], old(outi[..]), -1, carry, c)
  {
    hide Pow, Value;
    ghost var was := outi[..];
    carry := c;
    var j := outi.Length;
    CarryStart(58, LIMB, was, c);
    while j > 0
      invariant 0 <= j <= outi.Length
      invariant Carrying(58, LIMB, outi[..], was, j - 1, carry, c)
    {
      j := j - 1;
      ghost var s := outi[..];
      var t := outi[j] * 58 + carry;
      assert t < 0x1_0000_0000_0000_0000;
      CarryOn(58, LIMB, s, was, j, carry, c, t / LIMB, t % LIMB);
      carry := t / LIMB;
      outi[j] := t % LIMB;
      assert outi[..] == s[j := outi[j]];
    }
  }

  lemma DigitsExtend(text: seq<Byte>, i: nat)
    requires i < |text| && AllDigits(text[..i]) && DigitOf(text[i]) != -1
    ensures AllDigits(text[..i + 1]) && 0 <= DigitOf(text[i]) < 58
    ensures Value(58, DigitsOf(text[..i + 1])) == 58 * Value(58, DigitsOf(text[..i])) + DigitOf(text[i])
  {
    hide Pow, Value;
    assert text[..i + 1] == text[..i] + [text[i]];
    assert DigitsOf(text[..i + 1]) == DigitsOf(text[..i]) + [DigitOf(text[i])];
    ValueSnoc(58, DigitsOf(text[..i]), DigitOf(text[i]));
  }

  lemma PrefixTooBig(text: seq<Byte>, i: nat, bound: nat)
    requires i <= |text| && AllDigits(text[..i]) && bound <= Value(58, DigitsOf(text[..i]))
    ensures AllDigits(text) ==> bound <= Value(58, DigitsOf(text))
  {
    hide Pow, Value;
    if AllDigits(text) {
      assert DigitsOf(text)[..i] == DigitsOf(text[..i]);
      ValuePrefixMonotone(58, DigitsOf(text), i);
    }
  }

  /** The limbs after a digit: too big is noticed by the carry or by the spare bytes of the top limb. */
  lemma DigitAdded(was: seq<nat>, s: seq<nat>, binsz: nat, carry: nat, c: nat)
    requires |s| == LimbCount(binsz) && Carrying(58, LIMB, s, was, -1, carry, c)
    ensures 58 * Value(LIMB, was) + c < Pow(256, binsz) <==>
            carry == 0 && (binsz % 4 == 0 || s[0] < Pow(256, binsz % 4))
    ensures carry == 0 ==> Value(LIMB, s) == 58 * Value(LIMB, was) + c
  {
    hide Pow, Value;
    CarryFits(58, LIMB, s, was, carry, c);
    LimbIsFourBytes();
    PowOfPow(256, 4, |s|);
    if binsz > 0 {
      FitsBytes(s, binsz);
      PowMonotone(256, binsz, 4 * |s|);
    }
  }

  /** Without limbs nothing but leading ones is read: any other digit is left over. */
  lemma NoLimbs(s: seq<nat>, was: seq<nat>, carry: nat, ch: Byte, c: nat)
    requires Carrying(58, LIMB, s, was, -1, carry, c) && ch != ONE && c == DigitOf(ch)
    ensures s == [] ==> carry != 0
  {
  }

  /** `x >> (8 * bytes)` on an unsigned word. */
  function ShiftRight(x: nat, bytes: nat): nat {
    if bytes == 0 then x else ShiftRight(x, bytes - 1) / 256
  }

  lemma {:induction false} ShiftedBelow(x: nat, bytes: nat, m: nat)
    ensures ShiftRight(x, bytes) < m <==> x < m * Pow(256, bytes)
  {
    if bytes > 0 {
      ShiftedBelow(x, bytes - 1, 256 * m);
      Regroup(m, 256, Pow(256, bytes - 1), 0);
    }
  }

  /** The `zeromask` test: a bit of the top limb is set above its `bytesleft` bytes. */
  predicate SpareBytesUsed(top: nat, bytesleft: nat)
    ensures SpareBytesUsed(top, bytesleft) <==> bytesleft != 0 && top >= Pow(256, bytesleft)
  {
    ShiftedBelow(top, bytesleft, 1);
    bytesleft != 0 && ShiftRight(top, bytesleft) != 0
  }

  lemma NoDigitsYet(text: seq<Byte>, binsz: nat, s: seq<nat>)
    requires |s| == LimbCount(binsz) && forall k :: 0 <= k < |s| ==> s[k] == 0
    requires forall k :: 0 <= k < |text| ==> text[k] == ONE
    ensures Limbs(s, text, binsz)
  {
    hide Value;
    ValueOfZeros(LIMB, s);
    ValueOfZeros(58, DigitsOf(text));
    PowPositive(256, binsz);
  }

  ghost predicate Limbs(s: seq<nat>, text: seq<Byte>, binsz: nat) {
    && |s| == LimbCount(binsz) && Below(LIMB, s) && AllDigits(text)
    && Value(LIMB, s) == Value(58, DigitsOf(text)) < Pow(256, binsz)
  }

  /** The digit loop of `b58tobin`, up to the point where the limbs are complete. */
  method ReadDigits(text: seq<Byte>, binsz: nat) returns (ok: bool, outi: array<nat>, zerocount: nat)
    ensures fresh(outi)
    ensures ok <==> Decode58(text, binsz).Accepted?
    ensures ok ==> Limbs(outi[..], text, binsz)
    ensures zerocount == LeadingRun(text, ONE)
  {
    hide Pow, Value, Digits;
    outi := new nat[LimbCount(binsz)](_ => 0);
    zerocount := CountLeading(text, ONE);
    var bytesleft := binsz % 4;
    var i := zerocount;
    NoDigitsYet(text[..i], binsz, outi[..]);
    while i < |text|
      invariant zerocount <= i <= |text|
      invariant Limbs(outi[..], text[..i], binsz)
      invariant outi.Length == 0 ==> i == zerocount
    {
      var c := DigitOf(text[i]);
      if c == -1 {
        return false, outi, zerocount;
      }
      DigitsExtend(text, i);
      ghost var was := outi[..];
      var carry := ShiftIn(outi, c);
      DigitAdded(was, outi[..], binsz, carry, c);
      if i == zerocount { NoLimbs(outi[..], was, carry, text[i], c); }
      if carry != 0 || SpareBytesUsed(outi[0], bytesleft) {
        PrefixTooBig(text, i + 1, Pow(256, binsz));
        return false, outi, zerocount;
      }
      i := i + 1;
    }
    assert text[..i] == text;
    return true, outi, zerocount;
  }

  /** The byte loop over one limb: its last `k` bytes, most significant first. */
  method WriteLimb(bin: array<Byte>, p: nat, limb: nat, k: nat)
    requires p + k <= bin.Length
    modifies bin
    ensures bin[p..p + k] == Fixed(256, limb, k)
    ensures bin[..p] == old(bin[..p]) && bin[p + k..] == old(bin[p + k..])
  {
    hide Fixed;
    var i := 0;
    NoBytes(ShiftRight(limb, k));
    while i < k
      invariant 0 <= i <= k
      invariant bin[p..p + i] == Fixed(256, ShiftRight(limb, k - i), i)
      invariant forall x :: 0 <= x < bin.Length && !(p <= x < p + i) ==> bin[x] == old(bin[x])
    {
      var v := ShiftRight(limb, k - i - 1);
      NextByte(limb, k - i - 1, i);
      ghost var done := bin[p..p + i];
      bin[p + i] := v % 256;
      assert bin[p..p + i + 1] == done + [bin[p + i]];
      i := i + 1;
    }
  }

  lemma NoBytes(v: nat)
    ensures Fixed(256, v, 0) == []
  {
  }

  lemma NextByte(limb: nat, e: nat, i: nat)
    ensures Fixed(256, ShiftRight(limb, e), i + 1) ==
            Fixed(256, ShiftRight(limb, e + 1), i) + [ShiftRight(limb, e) % 256]
  {
  }

  /** Writing a limb below the bytes written so far keeps bytes and limbs denoting one number. */
  lemma LimbAppended(bytes: seq<nat>, limbs: seq<nat>, limb: nat)
    requires limb < LIMB && Value(256, bytes) == Value(LIMB, limbs)
    ensures Value(256, bytes + Fixed(256, limb, 4)) == Value(LIMB, limbs + [limb])
  {
    hide Pow, Value, Fixed;
    LimbIsFourBytes();
    ValueConcat(256, bytes, Fixed(256, limb, 4));
    ValueOfFixed(256, limb, 4);
    ValueSnoc(LIMB, limbs, limb);
  }

  lemma TopLimbWritten(s: seq<nat>, k: nat)
    requires |s| > 0 && s[0] < Pow(256, k)
    ensures Value(256, Fixed(256, s[0], k)) == Value(LIMB, s[..1])
  {
    ValueOfFixed(256, s[0], k);
    assert s[..1] == [] + [s[0]];
    ValueSnoc(LIMB, [], s[0]);
  }

  /** The first `p` bytes denote the first `j` limbs, and the other limbs take up the rest of `binsz` bytes. */
  ghost predicate Written(bytes: seq<nat>, limbs: seq<nat>, binsz: nat, j: nat, p: nat) {
    && p <= |bytes| && j <= |limbs| && p == binsz - 4 * (|limbs| - j)
    && Value(256, bytes[..p]) == Value(LIMB, limbs[..j])
  }

  /** The partial limb at the front, if there is one. */
  method WriteTopLimb(bin: array<Byte>, outi: array<nat>, binsz: nat) returns (j: nat, p: nat)
    requires binsz <= bin.Length && outi.Length == LimbCount(binsz) && Below(LIMB, outi[..])
    requires Value(LIMB, outi[..]) < Pow(256, binsz)
    requires outi as object != bin
    modifies bin
    ensures Written(bin[..], outi[..], binsz, j, p)
    ensures forall k :: binsz <= k < bin.Length ==> bin[k] == old(bin[k])
  {
    hide Pow, Value, Fixed;
    var bytesleft := binsz % 4;
    if bytesleft == 0 {
      ValueOfZeros(256, bin[..][..0]);
      ValueOfZeros(LIMB, outi[..][..0]);
      return 0, 0;
    }
    FitsBytes(outi[..], binsz);
    ghost var rest := bin[bytesleft..];
    WriteLimb(bin, 0, outi[0], bytesleft);
    assert forall k :: binsz <= k < bin.Length ==> bin[k] == rest[k - bytesleft];
    TopLimbWritten(outi[..], bytesleft);
    assert bin[0..bytesleft] == bin[..][..bytesleft];
    return 1, bytesleft;
  }

  /** The next full limb. */
  method WriteNextLimb(bin: array<Byte>, outi: array<nat>, ghost binsz: nat, j: nat, p: nat)
    requires binsz <= bin.Length && Below(LIMB, outi[..]) && j < outi.Length
    requires Written(bin[..], outi[..], binsz, j, p)
    requires outi as object != bin
    modifies bin
    ensures Written(bin[..], outi[..], binsz, j + 1, p + 4)
    ensures forall k :: binsz <= k < bin.Length ==> bin[k] == old(bin[k])
  {
    hide Pow, Value, Fixed;
    ghost var done, rest := bin[..p], bin[p + 4..];
    assert bin[..][..p] == done;
    WriteLimb(bin, p, outi[j], 4);
    assert forall k :: binsz <= k < bin.Length ==> bin[k] == rest[k - p - 4];
    LimbAppended(done, outi[..][..j], outi[j]);
    assert bin[..][..p + 4] == done + bin[p..p + 4];
    assert outi[..][..j + 1] == outi[..][..j] + [outi[j]];
  }

  /** The output loops of `b58tobin`: the limbs as exactly `binsz` bytes. */
  method WriteBytes(bin: array<Byte>, outi: array<nat>, binsz: nat)
    requires binsz <= bin.Length && outi.Length == LimbCount(binsz) && Below(LIMB, outi[..])
    requires Value(LIMB, outi[..]) < Pow(256, binsz)
    requires outi as object != bin
    modifies bin
    ensures bin[..binsz] == Fixed(256, Value(LIMB, outi[..]), binsz)
    ensures bin[binsz..] == old(bin[binsz..])
  {
    hide Pow, Value, Fixed;
    var j: nat, p: nat := WriteTopLimb(bin, outi, binsz);
    while j < outi.Length
      invariant Written(bin[..], outi[..], binsz, j, p)
      invariant forall k :: binsz <= k < bin.Length ==> bin[k] == old(bin[k])
    {
      WriteNextLimb(bin, outi, binsz, j, p);
      j, p := j + 1, p + 4;
    }
    assert outi[..][..j] == outi[..] && bin[..][..p] == bin[..binsz];
    FixedOfValue(256, bin[..binsz]);
  }

  /** The NUL-terminated text at the start of `mem`. */
  function Strlen(mem: seq<Byte>): (n: nat)
    requires 0 in mem
    ensures n < |mem| && mem[n] == 0 && 0 !in mem[..n]
  {
    if mem[0] == 0 then 0
    else
      assert 0 in mem[1..];
      var n := Strlen(mem[1..]);
      assert mem[..n + 1] == [mem[0]] + mem[1..][..n];
      n + 1
  }

  /** The text `b58tobin` is asked to read: a size of zero means up to the terminating zero. */
  function TextOf(b58: seq<Byte>, b58sz: nat): (text: seq<Byte>)
    requires b58sz <= |b58| && (b58sz == 0 ==> 0 in b58)
    ensures |text| <= |b58| && text == b58[..|text|] && (b58sz > 0 ==> |text| == b58sz)
    ensures b58sz == 0 ==> |text| < |b58| && b58[|text|] == 0 && 0 !in text
  {
    if b58sz == 0 then b58[..Strlen(b58)] else b58[..b58sz]
  }

  /** The size the decoder reports is the canonical one. */
  lemma CanonicalSize(v: nat, binsz: nat, z: nat)
    requires v < Pow(256, binsz) && z == LeadingRun(Fixed(256, v, binsz), 0)
    ensures binsz - z == |Digits(256, v)|
  {
    hide Pow, Value, Digits, Fixed;
    var s := Fixed(256, v, binsz);
    ValueOfFixed(256, v, binsz);
    ValueSkipsZeros(256, s, z);
    DigitsOfValue(256, s[z..]);
  }

  /**
   `b58tobin`: accepts exactly the texts `Decode58` accepts, writes the number big-endian
   into `binsz` bytes and reports its canonical size. A refusal writes nothing.
   */
  method B58ToBin(bin: array<Byte>, binsz: nat, b58: seq<Byte>, b58sz: nat) returns (ok: bool, newSz: nat)
    requires binsz <= bin.Length
    requires b58sz <= |b58| && (b58sz == 0 ==> 0 in b58)
    modifies bin
    ensures ok <==> Decode58(TextOf(b58, b58sz), binsz).Accepted?
    ensures ok ==> Decode58(TextOf(b58, b58sz), binsz) == Accepted(bin[..binsz], newSz)
    ensures var text := TextOf(b58, b58sz);
      ok <==> AllDigits(text) && Value(58, DigitsOf(text)) < Pow(256, binsz)
    ensures ok ==>
      var text := TextOf(b58, b58sz);
      && Value(256, bin[..binsz]) == Value(58, DigitsOf(text))
      && newSz == binsz - LeadingRun(bin[..binsz], 0) + LeadingRun(text, ONE)
    ensures !ok ==> newSz == binsz && bin[..] == old(bin[..])
    ensures bin[binsz..] == old(bin[binsz..])
  {
    hide Pow, Value, Digits, Fixed, LeadingRun;
    var text := TextOf(b58, b58sz);
    var outi, zerocount;
    ok, outi, zerocount := ReadDigits(text, binsz);
    if !ok {
      return false, binsz;
    }
    WriteBytes(bin, outi, binsz);
    var zeros := CountLeading(bin[..binsz], 0);
    CanonicalSize(Value(LIMB, outi[..]), binsz, zeros);
    ValueOfFixed(256, Value(LIMB, outi[..]), binsz);
    newSz := binsz - zeros + zerocount;
  }
}
