/**
 Big-endian positional notation: the number a digit string denotes in a base,
 and the two ways of writing a number down (no leading zeros, or a fixed width).
 Both directions of the Base58 codec are specified through these functions.
 */
module Positional {

  function Pow(b: nat, e: nat): nat {
    if e == 0 then 1 else b * Pow(b, e - 1)
  }

  ghost predicate Below(b: nat, s: seq<nat>) {
    forall i :: 0 <= i < |s| ==> s[i] < b
  }

  /** The number denoted by `s`, most significant digit first. */
  function Value(b: nat, s: seq<nat>): nat {
    if s == [] then 0 else s[0] * Pow(b, |s| - 1) + Value(b, s[1..])
  }

  /** `v` without leading zeros; zero is the empty string. */
  function Digits(b: nat, v: nat): seq<nat>
    requires b >= 2
  {
    if v == 0 then [] else Digits(b, v / b) + [v % b]
  }

  /** The last `n` digits of `v`. */
  function Fixed(b: nat, v: nat, n: nat): (s: seq<nat>)
    requires b >= 2
    ensures |s| == n && Below(b, s)
    decreases n
  {
    if n == 0 then [] else Fixed(b, v / b, n - 1) + [v % b]
  }

  function LeadingRun(s: seq<nat>, d: nat): (n: nat)
    ensures n <= |s|
    ensures forall i :: 0 <= i < n ==> s[i] == d
    ensures n < |s| ==> s[n] != d
  {
    if s == [] || s[0] != d then 0 else 1 + LeadingRun(s[1..], d)
  }

  lemma LeadingRunUnique(s: seq<nat>, d: nat, n: nat)
    requires n <= |s|
    requires forall i :: 0 <= i < n ==> s[i] == d
    requires n < |s| ==> s[n] != d
    ensures LeadingRun(s, d) == n
  {
  }

  // ---- powers ----

  lemma {:induction false} PowPositive(b: nat, e: nat)
    requires b >= 1
    ensures Pow(b, e) >= 1
  {
    if e > 0 { PowPositive(b, e - 1); }
  }

  lemma {:induction false} PowAdd(b: nat, m: nat, n: nat)
    ensures Pow(b, m + n) == Pow(b, m) * Pow(b, n)
  {
    if m == 0 {
    } else {
      PowAdd(b, m - 1, n);
      var p, q := Pow(b, m - 1), Pow(b, n);
      assert b * (p * q) == (b * p) * q;
    }
  }

  lemma PowMonotone(b: nat, m: nat, n: nat)
    requires b >= 1 && m <= n
    ensures Pow(b, m) <= Pow(b, n)
  {
    PowAdd(b, m, n - m);
    PowPositive(b, n - m);
    PowPositive(b, m);
    MulLeft(Pow(b, m), 1, Pow(b, n - m));
  }

  lemma {:induction false} PowOfPow(b: nat, k: nat, n: nat)
    ensures Pow(Pow(b, k), n) == Pow(b, k * n)
  {
    if n > 0 {
      PowOfPow(b, k, n - 1);
      assert k * n == k + k * (n - 1);
      PowAdd(b, k, k * (n - 1));
    }
  }

  lemma MulLeft(x: nat, y: nat, z: nat)
    requires y <= z
    ensures x * y <= x * z
  {
    assert x * z == x * y + x * (z - y);
  }

  lemma Distribute(x: nat, y: nat, z: nat)
    ensures x * (y + z) == x * y + x * z
  {
  }

  lemma Regroup(d: nat, p: nat, q: nat, v: nat)
    ensures d * (p * q) + v * q == (d * p + v) * q
  {
  }

  // ---- values ----

  lemma {:induction false} ValueConcat(b: nat, s: seq<nat>, t: seq<nat>)
    ensures Value(b, s + t) == Value(b, s) * Pow(b, |t|) + Value(b, t)
  {
    if s == [] {
      assert s + t == t;
    } else {
      assert (s + t)[1..] == s[1..] + t;
      ValueConcat(b, s[1..], t);
      PowAdd(b, |s| - 1, |t|);
      Regroup(s[0], Pow(b, |s| - 1), Pow(b, |t|), Value(b, s[1..]));
    }
  }

  lemma ValueSnoc(b: nat, s: seq<nat>, d: nat)
    ensures Value(b, s + [d]) == Value(b, s) * b + d
  {
    ValueConcat(b, s, [d]);
    assert Pow(b, 1) == b * Pow(b, 0);
    assert Value(b, [d]) == d * Pow(b, 0) + Value(b, [d][1..]);
  }

  lemma {:induction false} ValueBound(b: nat, s: seq<nat>)
    requires Below(b, s)
    ensures Value(b, s) < Pow(b, |s|)
  {
    if s == [] {
    } else {
      ValueBound(b, s[1..]);
      var p := Pow(b, |s| - 1);
      MulLeft(p, s[0], b - 1);
      assert p * (b - 1) == b * p - p;
    }
  }

  lemma {:induction false} ValueOfZeros(b: nat, s: seq<nat>)
    requires forall i :: 0 <= i < |s| ==> s[i] == 0
    ensures Value(b, s) == 0
  {
    if s != [] { ValueOfZeros(b, s[1..]); }
  }

  lemma ValueSkipsZeros(b: nat, s: seq<nat>, n: nat)
    requires n <= |s|
    requires forall i :: 0 <= i < n ==> s[i] == 0
    ensures Value(b, s) == Value(b, s[n..])
  {
    assert s == s[..n] + s[n..];
    ValueConcat(b, s[..n], s[n..]);
    ValueOfZeros(b, s[..n]);
  }

  /** A non-zero first digit makes the number at least a full power. */
  lemma ValueLeading(b: nat, s: seq<nat>)
    requires |s| > 0
    ensures Value(b, s) >= s[0] * Pow(b, |s| - 1)
    ensures s[0] > 0 ==> Value(b, s) >= Pow(b, |s| - 1)
  {
    if s[0] > 0 { MulLeft(Pow(b, |s| - 1), 1, s[0]); }
  }

  /** Extending a number to the right never makes it smaller. */
  lemma {:induction false} ValuePrefixMonotone(b: nat, s: seq<nat>, n: nat)
    requires b >= 1 && n <= |s|
    ensures Value(b, s[..n]) <= Value(b, s)
  {
    assert s == s[..n] + s[n..];
    ValueConcat(b, s[..n], s[n..]);
    PowPositive(b, |s| - n);
    MulLeft(Value(b, s[..n]), 1, Pow(b, |s| - n));
  }

  lemma DivModUnique(b: nat, q: nat, r: nat)
    requires r < b
    ensures (q * b + r) / b == q && (q * b + r) % b == r
  {
    var d := (q * b + r) / b;
    var e := d - q;
    assert e * b == r - (q * b + r) % b;
    if e >= 1 {
      MulLeft(b, 1, e);
    }
  }

  /** The fixed-width string of the value of `s` is `s`: same width, same value, same string. */
  lemma {:induction false} FixedOfValue(b: nat, s: seq<nat>)
    requires b >= 2 && Below(b, s)
    ensures Fixed(b, Value(b, s), |s|) == s
  {
    if s == [] {
    } else {
      var t, d := s[..|s| - 1], s[|s| - 1];
      assert s == t + [d];
      ValueSnoc(b, t, d);
      DivModUnique(b, Value(b, t), d);
      FixedOfValue(b, t);
    }
  }

  lemma DivModLaw(b: nat, v: nat)
    requires b >= 2
    ensures v / b * b + v % b == v
    ensures v > 0 ==> v / b < v
    ensures v > 0 && v / b == 0 ==> v % b > 0
  {
  }

  lemma DivBelow(b: nat, v: nat, p: nat)
    requires b >= 1 && v < b * p
    ensures v / b < p && v / b * b + v % b == v
  {
    if v / b >= p {
      MulLeft(b, p, v / b);
    }
  }

  lemma {:induction false} ValueOfFixed(b: nat, v: nat, n: nat)
    requires b >= 2 && v < Pow(b, n)
    ensures Value(b, Fixed(b, v, n)) == v
  {
    if n == 0 {
    } else {
      DivBelow(b, v, Pow(b, n - 1));
      var q, r := v / b, v % b;
      ValueOfFixed(b, q, n - 1);
      var t := Fixed(b, q, n - 1);
      ValueSnoc(b, t, r);
      assert Fixed(b, v, n) == t + [r];
    }
  }

  lemma {:induction false} DigitsOfValue(b: nat, s: seq<nat>)
    requires b >= 2 && Below(b, s)
    requires s != [] ==> s[0] != 0
    ensures Digits(b, Value(b, s)) == s
  {
    if s == [] {
    } else {
      var t, d := s[..|s| - 1], s[|s| - 1];
      assert s == t + [d];
      ValueSnoc(b, t, d);
      DivModUnique(b, Value(b, t), d);
      ValueLeading(b, s);
      PowPositive(b, |s| - 1);
      DigitsOfValue(b, t);
    }
  }

  lemma {:induction false} DigitsCorrect(b: nat, v: nat)
    requires b >= 2
    ensures Below(b, Digits(b, v))
    ensures Value(b, Digits(b, v)) == v
    ensures v > 0 ==> |Digits(b, v)| > 0 && Digits(b, v)[0] != 0
  {
    if v > 0 {
      var q, r := v / b, v % b;
      DivModLaw(b, v);
      DigitsCorrect(b, q);
      var t := Digits(b, q);
      ValueSnoc(b, t, r);
      assert Digits(b, v) == t + [r];
    }
  }

  /** A number below `b^n` needs at most `n` digits. */
  lemma DigitsLength(b: nat, v: nat, n: nat)
    requires b >= 2 && v < Pow(b, n)
    ensures |Digits(b, v)| <= n
  {
    var s := Digits(b, v);
    DigitsCorrect(b, v);
    if |s| > n {
      ValueLeading(b, s);
      PowMonotone(b, n, |s| - 1);
    }
  }
}
