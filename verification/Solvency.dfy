/**
 What confirmation is worth. A vertex is confirmed once another vertex was built on it, and the
 operations validate a leaf before building on it (accountant.go:478, 577). So in every book grown by
 them, each confirmed spice transfer not signed by a trusted node is covered: it passes the funds check
 over its own past. For amounts in normal form that means its issuer had received at least what it
 spent there (`CoveredMeans`).

 That does not exclude double spending: two vertices that do not see each other can each be covered
 and both be confirmed by a third (`Witnesses.ConfirmedTwice`). It is excluded for an issuer whose
 spending is a chain, each spending vertex seeing the one before.
 */
module Solvency {
  import opened Dag
  import opened Spice
  import opened Sums
  import opened Ledger
  import opened Supply
  import opened Audit

  /** The transfer of `h` can be paid, or is of a kind the funds check lets pass. */
  ghost predicate Covered(b: Book, T: set<Address>, h: Hash)
    requires h in b.graph.vertices
  {
    var v := b.graph.vertices[h];
    IsRoot(b.graph, h) || !IsSpiceTransfer(v.trx) || v.signer in T || MayPay(b, h, v.trx.issuer)
  }

  /** For amounts in normal form and sums that miss the gap in the overflow guard, covered means paid for. */
  lemma CoveredMeans(b: Book, T: set<Address>, h: Hash)
    requires Inv(b) && h in b.graph.vertices && Covered(b, T, h) && Clear(b, h, b.graph.vertices[h].trx.issuer)
    requires !IsRoot(b.graph, h) && IsSpiceTransfer(b.graph.vertices[h].trx) && b.graph.vertices[h].signer !in T
    ensures Countable(b, h, b.graph.vertices[h].trx.issuer) && Balance(b, h, b.graph.vertices[h].trx.issuer) >= 0
  {
    hide Inv, Visit, Clear, Pays, Countable, Balance, IsRoot;
    var a := b.graph.vertices[h].trx.issuer;
    var order :| Visit(b, h, order) && Pays(b, h, a, order);
    PaysMeans(b, h, a, order);
  }

  /** Every confirmed vertex is covered; `T` holds the nodes trusted at any time. */
  ghost predicate Solvent(b: Book, T: set<Address>) {
    forall h :: h in b.graph.vertices && h in Sources(b.graph.edges) ==> Covered(b, T, h)
  }

  /** A vertex is only built on covered ones. */
  ghost predicate Vetted(b: Book, T: set<Address>, s: Step) {
    s.Add? ==>
      && s.v.left in b.graph.vertices && Covered(b, T, s.v.left)
      && s.v.right in b.graph.vertices && Covered(b, T, s.v.right)
  }

  ghost predicate AllVetted(b: Book, T: set<Address>, steps: seq<Step>)
    requires Legal(b, steps)
    decreases |steps|
  {
    steps != [] ==> Vetted(b, T, steps[0]) && AllVetted(After(b, steps[0]), T, steps[1..])
  }

  /** Balances depend on the past only. */
  lemma SamePast(b: Book, c: Book, h: Hash, a: Address)
    requires Past(b.graph, h) == Past(c.graph, h) && b.funds == c.funds
    requires forall k :: k in Past(b.graph, h) ==> (k in b.graph.vertices <==> k in c.graph.vertices)
    requires forall k :: k in Past(b.graph, h) && k in b.graph.vertices ==> b.graph.vertices[k] == c.graph.vertices[k]
    ensures Balance(b, h, a) == Balance(c, h, a)
    ensures Countable(b, h, a) <==> Countable(c, h, a)
    ensures Clear(b, h, a) <==> Clear(c, h, a)
  {
    hide Past, Val, Normal;
    var P := Past(b.graph, h);
    forall R | R <= P
      ensures Inflow(b.graph.vertices, R, a) == Inflow(c.graph.vertices, R, a)
      ensures Outflow(b.graph.vertices, R, a) == Outflow(c.graph.vertices, R, a)
    {
      SumSame(R, InOf(b.graph.vertices, a), InOf(c.graph.vertices, a));
      SumSame(R, OutOf(b.graph.vertices, a), OutOf(c.graph.vertices, a));
    }
  }

  lemma {:induction false} PouredSame(side: Side, V: map<Hash, Vertex>, W: map<Hash, Vertex>, a: Address, start: Amount,
                                     hs: seq<Hash>)
    requires forall i :: 0 <= i < |hs| ==> hs[i] in V && hs[i] in W && V[hs[i]] == W[hs[i]]
    ensures Poured(side, V, a, start, hs) == Poured(side, W, a, start, hs)
  {
    hide Pour;
    if hs != [] { PouredSame(side, V, W, a, start, hs[..|hs| - 1]); }
  }

  lemma SamePay(b: Book, c: Book, h: Hash, a: Address)
    requires h in b.graph.vertices && h in c.graph.vertices && b.graph.vertices[h] == c.graph.vertices[h]
    requires Ancestors(b.graph.edges, h) == Ancestors(c.graph.edges, h) && b.funds == c.funds
    requires forall k :: k in Ancestors(b.graph.edges, h) ==>
      k in b.graph.vertices && k in c.graph.vertices && b.graph.vertices[k] == c.graph.vertices[k]
    requires MayPay(b, h, a)
    ensures MayPay(c, h, a)
  {
    hide Ancestors, Poured, AtMost, New;
    var order :| Visit(b, h, order) && Pays(b, h, a, order);
    var V, W, s := b.graph.vertices, c.graph.vertices, StoredFunds(b, a);
    assert forall i :: 0 <= i < |order| ==> order[i] in Elems(order);
    PouredSame(Receiving, V, W, a, New(s.currency, s.supplementary), [h] + order);
    PouredSame(Spending, V, W, a, ZERO, [h] + order);
    assert Visit(c, h, order) && Pays(c, h, a, order);
  }

  lemma CoveredStays(b: Book, c: Book, T: set<Address>, h: Hash)
    requires h in b.graph.vertices && h in c.graph.vertices && b.graph.vertices[h] == c.graph.vertices[h]
    requires Ancestors(b.graph.edges, h) == Ancestors(c.graph.edges, h) && b.funds == c.funds
    requires forall k :: k in Ancestors(b.graph.edges, h) ==>
      k in b.graph.vertices && k in c.graph.vertices && b.graph.vertices[k] == c.graph.vertices[k]
    requires IsRoot(b.graph, h) ==> IsRoot(c.graph, h)
    requires Covered(b, T, h)
    ensures Covered(c, T, h)
  {
    hide Ancestors, MayPay, IsRoot;
    if MayPay(b, h, b.graph.vertices[h].trx.issuer) { SamePay(b, c, h, b.graph.vertices[h].trx.issuer); }
  }

  lemma CoveredAfterDrop(b: Book, T: set<Address>, k: Hash, h: Hash)
    requires Inv(b) && IsLeaf(b.graph, k) && h != k && h in b.graph.vertices && Covered(b, T, h)
    ensures h in DropLeaf(b, k).graph.vertices && Covered(DropLeaf(b, k), T, h)
  {
    hide Ancestors, Acyclic, ParentsHeld, Indexed, Keyed, Covered, EdgesMatch;
    var c := DropLeaf(b, k);
    DropKeepsPast(b, k, h);
    AncestorsInGraph(b, h);
    AncestorsLeast(b.graph.edges, h, {});
    CoveredStays(b, c, T, h);
  }

  lemma CoveredAfterAttach(b: Book, T: set<Address>, v: Vertex, h: Hash)
    requires Inv(b) && Attachable(b, v) && h in b.graph.vertices && Covered(b, T, h)
    ensures Covered(Attach(b, v), T, h)
  {
    hide Ancestors, Acyclic, ParentsHeld, Indexed, Keyed, Covered, EdgesMatch;
    var c := Attach(b, v);
    AttachKeepsPast(b, v, h);
    AncestorsInGraph(b, h);
    CoveredStays(b, c, T, h);
  }

  lemma DropKeepsSolvent(b: Book, T: set<Address>, k: Hash)
    requires Inv(b) && IsLeaf(b.graph, k) && Solvent(b, T)
    ensures Solvent(DropLeaf(b, k), T)
  {
    hide Inv, Covered;
    var c := DropLeaf(b, k);
    forall h | h in c.graph.vertices && h in Sources(c.graph.edges)
      ensures Covered(c, T, h)
    {
      CoveredAfterDrop(b, T, k, h);
    }
  }

  lemma AttachKeepsSolvent(b: Book, T: set<Address>, v: Vertex)
    requires Inv(b) && Attachable(b, v) && Solvent(b, T) && Vetted(b, T, Add(v))
    ensures Solvent(Attach(b, v), T)
  {
    hide Covered;
    var c := Attach(b, v);
    UnknownHasNoChildren(b, v, v.left);
    AttachedSources(b, v);
    forall h | h in c.graph.vertices && h in Sources(c.graph.edges)
      ensures Covered(c, T, h)
    {
      CoveredAfterAttach(b, T, v, h);
    }
  }

  lemma AttachedSources(b: Book, v: Vertex)
    ensures Sources(Attach(b, v).graph.edges) == Sources(b.graph.edges) + {v.left, v.right}
  {
    var E := b.graph.edges;
    var F := Attach(b, v).graph.edges;
    assert (v.left, v.hash) in F && (v.right, v.hash) in F;
    forall x | x in Sources(E)
      ensures x in Sources(F)
    {
      var e :| e in E && e.0 == x;
      assert e in F;
    }
  }

  /** Every run that grows a book through vetted steps keeps it solvent. */
  lemma {:induction false} RunStaysSolvent(b: Book, T: set<Address>, steps: seq<Step>)
    requires Inv(b) && Solvent(b, T) && Legal(b, steps) && Grows(steps) && AllVetted(b, T, steps)
    ensures Solvent(Run(b, steps), T)
    decreases |steps|
  {
    hide Inv, Solvent, Attachable, IsLeaf, Attach, DropLeaf, Vetted;
    if steps != [] {
      var s := steps[0];
      StepKeepsInv(b, s);
      if s.Add? { AttachKeepsSolvent(b, T, s.v); } else { DropKeepsSolvent(b, T, s.h); }
      RunStaysSolvent(After(b, s), T, steps[1..]);
    }
  }

  lemma GenesisIsSolvent(g: Vertex, T: set<Address>)
    ensures Solvent(WithGenesis(FRESH, g), T)
  {
  }

  // ---- spending in a chain ----

  ghost predicate Spends(b: Book, k: Hash, a: Address) {
    k in b.graph.vertices && b.graph.vertices[k].trx.issuer == a && IsSpiceTransfer(b.graph.vertices[k].trx)
  }

  lemma PastOfPast(g: Graph, s: Hash, t: Hash)
    requires s in Past(g, t)
    ensures Past(g, s) <= Past(g, t)
  {
    hide Ancestors;
    if s != t { AncestorsTransitive(g.edges, s, t); }
  }

  /** Between two vertices of one past the balance changes by the flows the earlier one does not see. */
  lemma BalanceBetween(b: Book, s: Hash, t: Hash, a: Address)
    requires s in Past(b.graph, t)
    ensures var D := Past(b.graph, t) - Past(b.graph, s);
      Balance(b, t, a) == Balance(b, s, a) + Inflow(b.graph.vertices, D, a) - Outflow(b.graph.vertices, D, a)
  {
    hide Past, Val;
    var P, S, V := Past(b.graph, t), Past(b.graph, s), b.graph.vertices;
    PastOfPast(b.graph, s, t);
    assert S + (P - S) == P;
    SumUnion(S, P - S, InOf(V, a));
    SumUnion(S, P - S, OutOf(V, a));
  }

  lemma NothingSpent(b: Book, D: set<Hash>, a: Address)
    requires forall k :: k in D ==> !Spends(b, k, a)
    ensures Outflow(b.graph.vertices, D, a) == 0 && Inflow(b.graph.vertices, D, a) >= 0
  {
    SumSingle(D, OutOf(b.graph.vertices, a), NO_HASH);
    SumNonNegative(D, InOf(b.graph.vertices, a));
  }

  /** Spending that `s` already sees leaves the balance at least what it is from `s`. */
  lemma NoUnseenSpending(b: Book, s: Hash, t: Hash, a: Address)
    requires s in Past(b.graph, t)
    requires forall k :: k in Past(b.graph, t) && Spends(b, k, a) ==> k in Past(b.graph, s)
    ensures Balance(b, t, a) >= Balance(b, s, a)
  {
    hide Past, Balance, Inflow, Outflow, Spends;
    BalanceBetween(b, s, t, a);
    NothingSpent(b, Past(b.graph, t) - Past(b.graph, s), a);
  }

  /** Of any two vertices one sees the other. */
  ghost predicate Chain(g: Graph, S: set<Hash>) {
    forall x, y :: x in S && y in S ==> x in Past(g, y) || y in Past(g, x)
  }

  /** The end of a chain sees all of it. */
  lemma {:induction false} EndOfChain(g: Graph, S: set<Hash>) returns (s: Hash)
    requires S != {} && Chain(g, S)
    ensures s in S && S <= Past(g, s)
    decreases |S|
  {
    hide Past;
    var x :| x in S;
    if S == {x} {
      s := x;
    } else {
      var r := EndOfChain(g, S - {x});
      if x in Past(g, r) {
        s := r;
      } else {
        s := x;
        PastOfPast(g, r, x);
      }
    }
  }

  lemma ClearBefore(b: Book, s: Hash, t: Hash, a: Address)
    requires s in Past(b.graph, t)
    ensures Clear(b, t, a) ==> Clear(b, s, a)
    ensures Countable(b, t, a) ==> Countable(b, s, a)
  {
    hide Past, Val, Normal;
    PastOfPast(b.graph, s, t);
    FlowsNonNegative(b, a);
    SumMonotone(Past(b.graph, s), Past(b.graph, t), InOf(b.graph.vertices, a));
    SumMonotone(Past(b.graph, s), Past(b.graph, t), OutOf(b.graph.vertices, a));
  }

  /** Sums that do not fit a record fit from no vertex above: the issuer can never pay again, whatever it has. */
  lemma OverflowLasts(b: Book, s: Hash, t: Hash, a: Address)
    requires Inv(b) && t in b.graph.vertices && s in Past(b.graph, t)
    requires Clear(b, t, a) && !Countable(b, s, a)
    ensures !MayPay(b, t, a)
  {
    hide Inv, Past, Clear, Countable, Balance, MayPay, MustPay;
    ClearBefore(b, s, t, a);
    PayingMeans(b, t, a);
  }

  /** What `a` spends in the past of `t`, vetted by the funds check. */
  ghost predicate SpendingVetted(b: Book, T: set<Address>, t: Hash, a: Address) {
    forall k :: k in Past(b.graph, t) && Spends(b, k, a) ==>
      Covered(b, T, k) && !IsRoot(b.graph, k) && b.graph.vertices[k].signer !in T
  }

  /** An issuer whose covered spending is a chain is nowhere overspent. */
  lemma ChainedSpendingIsPaid(b: Book, T: set<Address>, t: Hash, a: Address)
    requires Inv(b) && Clear(b, t, a) && SpendingVetted(b, T, t, a)
    requires Chain(b.graph, set k | k in Past(b.graph, t) && Spends(b, k, a))
    ensures Balance(b, t, a) >= 0
  {
    hide Past, Countable, Clear, Balance, Chain, IsRoot, Inv, Covered;
    var S := set k | k in Past(b.graph, t) && Spends(b, k, a);
    if S == {} {
      assert forall k :: k in Past(b.graph, t) && Spends(b, k, a) ==> k in S;
      NothingSpentAtAll(b, t, a);
    } else {
      var s := EndOfChain(b.graph, S);
      ClearBefore(b, s, t, a);
      CoveredMeans(b, T, s);
      NoUnseenSpending(b, s, t, a);
    }
  }

  lemma NothingSpentAtAll(b: Book, t: Hash, a: Address)
    requires forall k :: k in Past(b.graph, t) ==> !Spends(b, k, a)
    ensures Balance(b, t, a) >= 0
  {
    hide Past, Inflow, Outflow, Spends, Val;
    NothingSpent(b, Past(b.graph, t), a);
  }

  // ---- merging two pasts ----

  /** What both parents of a vertex see of the funds of `a`. */
  ghost function CommonBalance(b: Book, v: Vertex, a: Address): int {
    var C := Past(b.graph, v.left) * Past(b.graph, v.right);
    FundsOf(b, a) + Inflow(b.graph.vertices, C, a) - Outflow(b.graph.vertices, C, a)
  }

  /**
   A vertex that joins two pasts adds up what its parents see and counts what both see once. So joining them
   leaves `a` overspent exactly when the parents' balances and the vertex itself do not make up for that.
   */
  lemma BalanceAtMerge(b: Book, v: Vertex, a: Address)
    requires Inv(b) && Attachable(b, v)
    ensures var c := Attach(b, v);
      Balance(c, v.hash, a) ==
        Balance(b, v.left, a) + Balance(b, v.right, a) - CommonBalance(b, v, a) + In(v, a) - Out(v, a)
    ensures Balance(Attach(b, v), v.hash, a) < 0 <==>
            Balance(b, v.left, a) + Balance(b, v.right, a) + In(v, a) < CommonBalance(b, v, a) + Out(v, a)
  {
    hide Inv, Attachable, Ancestors, Past, Val, In, Out;
    var c, V := Attach(b, v), b.graph.vertices;
    var L, R := Past(b.graph, v.left), Past(b.graph, v.right);
    MergedPast(b, v);
    MergedFlow(L, R, v.hash, InOf(V, a), InOf(c.graph.vertices, a));
    MergedFlow(L, R, v.hash, OutOf(V, a), OutOf(c.graph.vertices, a));
  }

  lemma MergedPast(b: Book, v: Vertex)
    requires Inv(b) && Attachable(b, v)
    ensures v.left in b.graph.vertices && v.right in b.graph.vertices
    ensures Past(Attach(b, v).graph, v.hash) == Past(b.graph, v.left) + Past(b.graph, v.right) + {v.hash}
    ensures v.hash !in Past(b.graph, v.left) + Past(b.graph, v.right)
  {
    hide Acyclic, EdgesMatch, ParentsHeld, StoredClosed, Keyed, Indexed, Ancestors;
    AttachedPast(b, v);
    AncestorsInGraph(b, v.left);
    AncestorsInGraph(b, v.right);
  }

  lemma MergedFlow(L: set<Hash>, R: set<Hash>, h: Hash, f: Hash -> int, f': Hash -> int)
    requires h !in L + R && forall k :: k in L + R ==> f(k) == f'(k)
    ensures Sum(L + R + {h}, f') == Sum(L, f) + Sum(R, f) - Sum(L * R, f) + f'(h)
  {
    SumAdd(L + R, f', h);
    SumSame(L + R, f, f');
    SumOverlap(L, R, f);
  }
}
