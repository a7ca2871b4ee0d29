/** Sums over finite sets and over sequences, in any order. */
module Sums {

  ghost function Sum<T(!new)>(S: set<T>, f: T -> int): int {
    if S == {} then 0
    else
      var x :| x in S;
      f(x) + Sum(S - {x}, f)
  }

  lemma {:induction false} SumTake<T(!new)>(S: set<T>, f: T -> int, x: T)
    requires x in S
    ensures Sum(S, f) == f(x) + Sum(S - {x}, f)
    decreases |S|
  {
    var y :| y in S && Sum(S, f) == f(y) + Sum(S - {y}, f);
    if y != x {
      SumTake(S - {y}, f, x);
      SumTake(S - {x}, f, y);
      assert S - {y} - {x} == S - {x} - {y};
    }
  }

  lemma SumAdd<T(!new)>(S: set<T>, f: T -> int, x: T)
    requires x !in S
    ensures Sum(S + {x}, f) == Sum(S, f) + f(x)
  {
    SumTake(S + {x}, f, x);
    assert S + {x} - {x} == S;
  }

  lemma {:induction false} SumUnion<T(!new)>(S: set<T>, R: set<T>, f: T -> int)
    requires S !! R
    ensures Sum(S + R, f) == Sum(S, f) + Sum(R, f)
    decreases |R|
  {
    if R == {} {
      assert S + R == S;
    } else {
      var x :| x in R;
      SumUnion(S, R - {x}, f);
      SumTake(R, f, x);
      SumAdd(S + (R - {x}), f, x);
      assert S + (R - {x}) + {x} == S + R;
    }
  }

  lemma {:induction false} SumSame<T(!new)>(S: set<T>, f: T -> int, g: T -> int)
    requires forall x :: x in S ==> f(x) == g(x)
    ensures Sum(S, f) == Sum(S, g)
    decreases |S|
  {
    if S != {} {
      var x :| x in S;
      SumTake(S, f, x);
      SumTake(S, g, x);
      SumSame(S - {x}, f, g);
    }
  }

  lemma {:induction false} SumNonNegative<T(!new)>(S: set<T>, f: T -> int)
    requires forall x :: x in S ==> f(x) >= 0
    ensures Sum(S, f) >= 0
    decreases |S|
  {
    if S != {} {
      var x :| x in S;
      SumTake(S, f, x);
      SumNonNegative(S - {x}, f);
    }
  }

  lemma SumOverlap<T(!new)>(S: set<T>, R: set<T>, f: T -> int)
    ensures Sum(S + R, f) == Sum(S, f) + Sum(R, f) - Sum(S * R, f)
  {
    SumUnion(S, R - S, f);
    SumUnion(S * R, R - S, f);
    assert S + (R - S) == S + R && S * R + (R - S) == R;
  }

  lemma SumMonotone<T(!new)>(S: set<T>, R: set<T>, f: T -> int)
    requires S <= R && forall x :: x in R ==> f(x) >= 0
    ensures 0 <= Sum(S, f) <= Sum(R, f)
  {
    SumNonNegative(S, f);
    SumNonNegative(R - S, f);
    SumUnion(S, R - S, f);
    assert S + (R - S) == R;
  }

  lemma {:induction false} SumPlus<T(!new)>(S: set<T>, f: T -> int, g: T -> int, h: T -> int)
    requires forall x :: x in S ==> h(x) == f(x) + g(x)
    ensures Sum(S, h) == Sum(S, f) + Sum(S, g)
    decreases |S|
  {
    if S != {} {
      var x :| x in S;
      SumTake(S, f, x);
      SumTake(S, g, x);
      SumTake(S, h, x);
      SumPlus(S - {x}, f, g, h);
    }
  }

  /** At most one element of `S` counts. */
  lemma {:induction false} SumSingle<T(!new)>(S: set<T>, f: T -> int, y: T)
    requires forall x :: x in S && x != y ==> f(x) == 0
    ensures Sum(S, f) == if y in S then f(y) else 0
    decreases |S|
  {
    if S != {} {
      var x :| x in S;
      SumTake(S, f, x);
      SumSingle(S - {x}, f, y);
    }
  }

  // ---- sequences ----

  ghost function SumSeq<T(!new)>(s: seq<T>, f: T -> int): int {
    if s == [] then 0 else SumSeq(s[..|s| - 1], f) + f(s[|s| - 1])
  }

  ghost predicate Distinct<T>(s: seq<T>) {
    forall i, j :: 0 <= i < j < |s| ==> s[i] != s[j]
  }

  ghost function Elems<T>(s: seq<T>): set<T> {
    set x | x in s
  }

  lemma ElemsSnoc<T>(s: seq<T>, x: T)
    ensures Elems(s + [x]) == Elems(s) + {x}
  {
  }

  lemma {:induction false} SumSeqIsSum<T(!new)>(s: seq<T>, f: T -> int)
    requires Distinct(s)
    ensures SumSeq(s, f) == Sum(Elems(s), f)
  {
    if s == [] {
      assert Elems(s) == {};
    } else {
      var t, x := s[..|s| - 1], s[|s| - 1];
      SumSeqIsSum(t, f);
      SumAdd(Elems(t), f, x);
      assert s == t + [x];
      ElemsSnoc(t, x);
    }
  }

  lemma SumSeqNext<T(!new)>(s: seq<T>, f: T -> int, i: nat)
    requires i < |s|
    ensures SumSeq(s[..i + 1], f) == SumSeq(s[..i], f) + f(s[i])
  {
    assert s[..i + 1][..i] == s[..i];
  }

  /** A prefix of a distinct sequence sums to at most the sum over any set that holds it. */
  lemma SumSeqPrefix<T(!new)>(s: seq<T>, f: T -> int, i: nat, R: set<T>)
    requires Distinct(s) && i <= |s| && Elems(s) <= R && forall x :: x in R ==> f(x) >= 0
    ensures 0 <= SumSeq(s[..i], f) <= Sum(R, f)
  {
    SumSeqIsSum(s[..i], f);
    assert Elems(s[..i]) <= R by {
      assert forall x :: x in s[..i] ==> x in s;
    }
    SumMonotone(Elems(s[..i]), R, f);
  }

  lemma {:induction false} DistinctSize<T>(s: seq<T>)
    requires Distinct(s)
    ensures |Elems(s)| == |s|
  {
    if s == [] {
      assert Elems(s) == {};
    } else {
      var t, x := s[..|s| - 1], s[|s| - 1];
      DistinctSize(t);
      assert s == t + [x];
      ElemsSnoc(t, x);
    }
  }

  lemma {:induction false} SubsetSize<T>(A: set<T>, B: set<T>)
    requires A <= B
    ensures |A| <= |B|
  {
    assert B == A + (B - A);
  }
}
