/**
 The graph library the accountant stores its vertices in (github.com/heimdalr/dag, not part of
 this model's source): edges run from parent to child.

 `Ancestors` is characterised as the least set that holds a vertex's parents and the parents of
 its own members; every proof about it uses only that.
 */
module Dag {
  import opened Sums

  type Hash = nat
  type Edge = (Hash, Hash)

  function Parents(E: set<Edge>, S: set<Hash>): set<Hash> {
    set e | e in E && e.1 in S :: e.0
  }

  function Sources(E: set<Edge>): set<Hash> {
    set e | e in E :: e.0
  }

  lemma ParentsAreSources(E: set<Edge>, S: set<Hash>)
    ensures Parents(E, S) <= Sources(E)
  {
  }

  /** `S` and everything above it. */
  function Up(E: set<Edge>, S: set<Hash>): set<Hash>
    decreases |Sources(E) - S|
  {
    var P := Parents(E, S);
    if P <= S then S
    else
      ParentsAreSources(E, S);
      SmallerRest(Sources(E), S, P);
      Up(E, S + P)
  }

  lemma SmallerRest(A: set<Hash>, S: set<Hash>, P: set<Hash>)
    requires P <= A && !(P <= S)
    ensures |A - (S + P)| < |A - S|
  {
    var x :| x in P && x !in S;
    assert A - (S + P) <= A - S - {x};
    SubsetSize(A - (S + P), A - S - {x});
  }

  /** The strict ancestors of `v`. */
  function Ancestors(E: set<Edge>, v: Hash): set<Hash> {
    Up(E, Parents(E, {v}))
  }

  /** `S` holds the parents of `v` and of its own members. */
  ghost predicate HoldsPast(E: set<Edge>, v: Hash, S: set<Hash>) {
    forall e :: e in E && (e.1 == v || e.1 in S) ==> e.0 in S
  }

  lemma {:induction false} UpLeast(E: set<Edge>, v: Hash, S: set<Hash>, R: set<Hash>)
    requires Parents(E, {v}) <= S
    ensures HoldsPast(E, v, Up(E, S))
    ensures S <= R && HoldsPast(E, v, R) ==> Up(E, S) <= R
    ensures Up(E, S) <= S + Sources(E)
    decreases |Sources(E) - S|
  {
    var P := Parents(E, S);
    ParentsAreSources(E, S);
    if P <= S {
      forall e | e in E && (e.1 == v || e.1 in S)
        ensures e.0 in S
      {
        assert e.0 in Parents(E, {v}) || e.0 in P;
      }
    } else {
      SmallerRest(Sources(E), S, P);
      UpLeast(E, v, S + P, R);
    }
  }

  /** The ancestors hold the past of `v`, and every set that does holds them. */
  lemma AncestorsLeast(E: set<Edge>, v: Hash, R: set<Hash>)
    ensures HoldsPast(E, v, Ancestors(E, v))
    ensures HoldsPast(E, v, R) ==> Ancestors(E, v) <= R
    ensures Ancestors(E, v) <= Sources(E)
  {
    hide Up;
    UpLeast(E, v, Parents(E, {v}), R);
    ParentsAreSources(E, {v});
  }

  /** An edge makes its source an ancestor, with all of the source's ancestors. */
  lemma EdgeGivesAncestor(E: set<Edge>, p: Hash, v: Hash)
    requires (p, v) in E
    ensures p in Ancestors(E, v) && Ancestors(E, p) <= Ancestors(E, v)
  {
    hide Ancestors;
    AncestorsLeast(E, v, {});
    AncestorsLeast(E, p, Ancestors(E, v));
    assert HoldsPast(E, p, Ancestors(E, v)) by {
      forall e | e in E && (e.1 == p || e.1 in Ancestors(E, v))
        ensures e.0 in Ancestors(E, v)
      {
        assert p in Ancestors(E, v);
      }
    }
  }

  lemma AncestorsTransitive(E: set<Edge>, u: Hash, v: Hash)
    requires u in Ancestors(E, v)
    ensures Ancestors(E, u) <= Ancestors(E, v)
  {
    hide Ancestors;
    AncestorsLeast(E, v, {});
    AncestorsLeast(E, u, Ancestors(E, v));
  }

  ghost predicate Acyclic(E: set<Edge>) {
    forall v :: v !in Ancestors(E, v)
  }

  /** A way along at least one edge. */
  ghost predicate Path(E: set<Edge>, p: seq<Hash>) {
    |p| >= 2 && (p[0], p[1]) in E && (|p| > 2 ==> Path(E, p[1..]))
  }

  ghost predicate HasPath(E: set<Edge>, u: Hash, v: Hash) {
    exists p :: Path(E, p) && p[0] == u && p[|p| - 1] == v
  }

  lemma {:induction false} PathLeadsDown(E: set<Edge>, p: seq<Hash>)
    requires Path(E, p)
    ensures p[0] in Ancestors(E, p[|p| - 1])
  {
    hide Ancestors;
    var v := p[|p| - 1];
    AncestorsLeast(E, v, {});
    if |p| > 2 { PathLeadsDown(E, p[1..]); }
    var e := (p[0], p[1]);
    assert e in E && (e.1 == v || e.1 in Ancestors(E, v));
  }

  lemma EdgeHasPath(E: set<Edge>, e: Edge, v: Hash)
    requires e in E && (e.1 == v || HasPath(E, e.1, v))
    ensures HasPath(E, e.0, v)
  {
    if e.1 == v {
      assert Path(E, [e.0, v]);
    } else {
      var p :| Path(E, p) && p[0] == e.1 && p[|p| - 1] == v;
      var q := [e.0] + p;
      assert q[1..] == p;
      assert Path(E, q) && q[0] == e.0 && q[|q| - 1] == v;
    }
  }

  /** The least closed set is what it should be: the vertices with a path to `v`. */
  lemma AncestorIffPath(E: set<Edge>, u: Hash, v: Hash)
    ensures u in Ancestors(E, v) <==> HasPath(E, u, v)
  {
    hide Ancestors, HasPath;
    var R := set x | x in Sources(E) && HasPath(E, x, v);
    AncestorsLeast(E, v, R);
    forall e | e in E && (e.1 == v || e.1 in R)
      ensures e.0 in R
    {
      EdgeHasPath(E, e, v);
    }
    if HasPath(E, u, v) { PathGivesAncestor(E, u, v); }
  }

  lemma PathGivesAncestor(E: set<Edge>, u: Hash, v: Hash)
    requires HasPath(E, u, v)
    ensures u in Ancestors(E, v)
  {
    hide Ancestors;
    var p :| Path(E, p) && p[0] == u && p[|p| - 1] == v;
    PathLeadsDown(E, p);
  }

  // ---- adding and removing a vertex without children ----

  /** Two edge sets that agree away from the sink `v`: nobody else's past changes. */
  lemma SinkIrrelevant(E: set<Edge>, F: set<Edge>, v: Hash, u: Hash)
    requires forall e :: e in E && e !in F ==> e.1 == v
    requires forall e :: e in F && e !in E ==> e.1 == v
    requires v !in Sources(E) && v !in Sources(F) && u != v
    ensures Ancestors(E, u) == Ancestors(F, u)
  {
    SinkIncluded(E, F, v, u);
    SinkIncluded(F, E, v, u);
  }

  lemma SinkIncluded(E: set<Edge>, F: set<Edge>, v: Hash, u: Hash)
    requires forall e :: e in E && e !in F ==> e.1 == v
    requires v !in Sources(F) && u != v
    ensures Ancestors(E, u) <= Ancestors(F, u)
  {
    hide Ancestors;
    AncestorsLeast(F, u, {});
    AncestorsLeast(E, u, Ancestors(F, u));
    assert v !in Ancestors(F, u);
  }

  lemma SinkIsNotItsAncestor(E: set<Edge>, v: Hash)
    requires v !in Sources(E)
    ensures v !in Ancestors(E, v)
  {
    AncestorsLeast(E, v, {});
  }

  lemma SinkKeepsAcyclic(E: set<Edge>, F: set<Edge>, v: Hash)
    requires Acyclic(E)
    requires forall e :: e in E && e !in F ==> e.1 == v
    requires forall e :: e in F && e !in E ==> e.1 == v
    requires v !in Sources(E) && v !in Sources(F)
    ensures Acyclic(F)
  {
    hide Ancestors;
    forall u
      ensures u !in Ancestors(F, u)
    {
      if u == v { SinkIsNotItsAncestor(F, v); } else { SinkIrrelevant(E, F, v, u); }
    }
  }

  lemma FewerEdges(E: set<Edge>, F: set<Edge>, v: Hash)
    requires E <= F
    ensures Ancestors(E, v) <= Ancestors(F, v)
  {
    hide Ancestors;
    AncestorsLeast(F, v, {});
    AncestorsLeast(E, v, Ancestors(F, v));
  }

  // ---- adding an edge ----

  lemma EdgeAddsPast(E: set<Edge>, s: Hash, d: Hash, u: Hash)
    ensures Ancestors(E + {(s, d)}, u) <= Ancestors(E, u) + {s} + Ancestors(E, s)
    ensures d != u && d !in Ancestors(E, u) ==> Ancestors(E + {(s, d)}, u) <= Ancestors(E, u)
  {
    hide Ancestors;
    var R := Ancestors(E, u) + {s} + Ancestors(E, s);
    AncestorsLeast(E, u, {});
    AncestorsLeast(E, s, {});
    AncestorsLeast(E + {(s, d)}, u, R);
    AncestorsLeast(E + {(s, d)}, u, Ancestors(E, u));
    assert HoldsPast(E + {(s, d)}, u, R);
  }

  /** An edge closes a cycle exactly when it ends at its own source or above it. */
  lemma EdgeKeepsAcyclic(E: set<Edge>, s: Hash, d: Hash)
    requires Acyclic(E)
    ensures Acyclic(E + {(s, d)}) <==> s != d && d !in Ancestors(E, s)
  {
    hide Ancestors;
    var F := E + {(s, d)};
    if s != d && d !in Ancestors(E, s) {
      forall u
        ensures u !in Ancestors(F, u)
      {
        EdgeAddsPast(E, s, d, u);
        if u in Ancestors(E, s) { AncestorsTransitive(E, u, s); }
      }
    } else {
      EdgeGivesAncestor(F, s, d);
      FewerEdges(E, F, s);
      if d in Ancestors(F, s) { AncestorsTransitive(F, d, s); }
    }
  }

  lemma FewerEdgesAcyclic(E: set<Edge>, F: set<Edge>)
    requires E <= F && Acyclic(F)
    ensures Acyclic(E)
  {
    hide Ancestors;
    forall v
      ensures v !in Ancestors(E, v)
    {
      FewerEdges(E, F, v);
    }
  }

  // ---- cutting off the past of a vertex ----

  function Cut(E: set<Edge>, A: set<Hash>): set<Edge> {
    set e | e in E && e.0 !in A && e.1 !in A
  }

  ghost predicate PastClosed(E: set<Edge>, A: set<Hash>) {
    forall e :: e in E && e.1 in A ==> e.0 in A
  }

  /** Without a past-closed set `A`, every remaining vertex keeps exactly the rest of its past. */
  lemma AncestorsAfterCut(E: set<Edge>, A: set<Hash>, v: Hash)
    requires PastClosed(E, A) && v !in A
    ensures Ancestors(Cut(E, A), v) == Ancestors(E, v) - A
  {
    hide Ancestors;
    var F := Cut(E, A);
    AncestorsLeast(E, v, Ancestors(F, v) + A);
    AncestorsLeast(F, v, Ancestors(E, v) - A);
    assert HoldsPast(F, v, Ancestors(E, v) - A);
    assert HoldsPast(E, v, Ancestors(F, v) + A) by {
      forall e | e in E && (e.1 == v || e.1 in Ancestors(F, v) + A)
        ensures e.0 in Ancestors(F, v) + A
      {
        if e.1 !in A && e.0 !in A { assert e in F; }
      }
    }
  }
}
