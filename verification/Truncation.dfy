/**
 What truncation does to balances (accountant.go:211-251, precalculate.go:33-64): the funds of
 the cut-off past are summed per address and stored, and the computed balance of an address is
 the same before and after exactly when the code's two shortcuts do not bite.
 */
module Truncation {
  import opened Dag
  import opened Spice
  import opened Sums
  import opened Ledger
  import opened Supply

  /** An issuer paying itself. */
  function Self(v: Vertex, a: Address): nat {
    if v.trx.issuer == a && v.trx.receiver == a then Val(v.trx.spice) else 0
  }

  ghost function SelfOf(V: map<Hash, Vertex>, a: Address): Hash -> int {
    h => if h in V then Self(V[h], a) else 0
  }

  ghost function SelfSent(V: map<Hash, Vertex>, S: set<Hash>, a: Address): int {
    Sum(S, SelfOf(V, a))
  }

  /** What `updateFounds` has counted as received when the past `S` is summed. */
  ghost function Received(b: Book, S: set<Hash>, a: Address): int {
    FundsOf(b, a) + Inflow(b.graph.vertices, S, a)
  }

  /** What it has counted as spent: a payment to oneself overwrites its own outgoing side. */
  ghost function Spent(b: Book, S: set<Hash>, a: Address): int {
    Outflow(b.graph.vertices, S, a) - SelfSent(b.graph.vertices, S, a)
  }

  /** What `saveToStorage` stores: the difference, or everything received when the drain fails. */
  ghost function Kept(b: Book, S: set<Hash>, a: Address): int {
    if Spent(b, S, a) <= Received(b, S, a) then Received(b, S, a) - Spent(b, S, a) else Received(b, S, a)
  }

  /** The funds stored for `a` are that, in normal form. */
  ghost predicate Settled(b: Book, S: set<Hash>, funds: map<Address, Amount>, a: Address) {
    && (a in funds ==> Normal(funds[a]))
    && (if a in funds then Val(funds[a]) else 0) == Kept(b, S, a)
  }

  lemma PastAfterTruncation(b: Book, top: Hash, funds: map<Address, Amount>, leaf: Hash)
    requires EdgesMatch(b.graph) && leaf !in Ancestors(b.graph.edges, top)
    ensures Past(Truncated(b, top, funds).graph, leaf) == Past(b.graph, leaf) - Ancestors(b.graph.edges, top)
  {
    hide Ancestors, EdgesMatch;
    AncestorsInGraph(b, top);
    AncestorsAfterCut(b.graph.edges, Ancestors(b.graph.edges, top), leaf);
  }

  /** A sum over the past, split at the cut. */
  lemma SplitFlow(P: set<Hash>, A: set<Hash>, f: Hash -> int, f': Hash -> int)
    requires A <= P && forall h :: h in P && h !in A ==> f(h) == f'(h)
    ensures Sum(P, f) == Sum(A, f) + Sum(P - A, f')
  {
    SumUnion(A, P - A, f);
    SumSame(P - A, f, f');
    assert A + (P - A) == P;
  }

  lemma SpentWithin(b: Book, S: set<Hash>, a: Address)
    ensures 0 <= SelfSent(b.graph.vertices, S, a) <= Outflow(b.graph.vertices, S, a)
    ensures 0 <= Spent(b, S, a) && 0 <= Received(b, S, a)
  {
    hide Val;
    var V := b.graph.vertices;
    SumNonNegative(S, SelfOf(V, a));
    SumNonNegative(S, InOf(V, a));
    var rest: Hash -> int := (h: Hash) => OutOf(V, a)(h) - SelfOf(V, a)(h);
    SumPlus(S, rest, SelfOf(V, a), OutOf(V, a));
    SumNonNegative(S, rest);
  }

  /** The flows of the past are those of its part of the cut and those still in the graph. */
  lemma FlowAfterTruncation(b: Book, top: Hash, funds: map<Address, Amount>, leaf: Hash, a: Address)
    requires EdgesMatch(b.graph) && leaf !in Ancestors(b.graph.edges, top)
    ensures var c, P := Truncated(b, top, funds), Past(b.graph, leaf);
      var A := Ancestors(b.graph.edges, top) * P;
      && Inflow(b.graph.vertices, P, a) ==
           Inflow(b.graph.vertices, A, a) + Inflow(c.graph.vertices, Past(c.graph, leaf), a)
      && Outflow(b.graph.vertices, P, a) ==
           Outflow(b.graph.vertices, A, a) + Outflow(c.graph.vertices, Past(c.graph, leaf), a)
  {
    hide Ancestors, EdgesMatch, Val;
    var c, P, V := Truncated(b, top, funds), Past(b.graph, leaf), b.graph.vertices;
    var A := Ancestors(b.graph.edges, top) * P;
    PastAfterTruncation(b, top, funds, leaf);
    assert P - A == Past(c.graph, leaf);
    SplitFlow(P, A, InOf(V, a), InOf(c.graph.vertices, a));
    SplitFlow(P, A, OutOf(V, a), OutOf(c.graph.vertices, a));
  }

  /**
   From any leaf: what is kept of the whole cut takes the place of the funds stored before and of the flows
   in that part of the cut the leaf can see.
   */
  lemma BalanceFromAnyLeaf(b: Book, top: Hash, funds: map<Address, Amount>, leaf: Hash, a: Address)
    requires EdgesMatch(b.graph) && leaf !in Ancestors(b.graph.edges, top)
    requires Settled(b, Ancestors(b.graph.edges, top), funds, a)
    ensures var A := Ancestors(b.graph.edges, top);
      var seen := A * Past(b.graph, leaf);
      Balance(Truncated(b, top, funds), leaf, a) - Balance(b, leaf, a) ==
        Kept(b, A, a) - Received(b, seen, a) + Outflow(b.graph.vertices, seen, a)
  {
    hide EdgesMatch, Ancestors, Past, Inflow, Outflow, SelfSent, Val, Kept;
    FlowAfterTruncation(b, top, funds, leaf, a);
  }

  /**
   From a leaf whose past holds everything cut off, truncation adds to the balance of `a` what `a`
   paid itself in the cut, or, when `a` had spent more than it received there, all it had spent.
   */
  lemma BalanceAfterTruncation(b: Book, top: Hash, funds: map<Address, Amount>, leaf: Hash, a: Address)
    requires Inv(b) && leaf in b.graph.vertices
    requires var A := Ancestors(b.graph.edges, top);
      leaf !in A && A <= Ancestors(b.graph.edges, leaf) && Settled(b, A, funds, a)
    ensures var A := Ancestors(b.graph.edges, top);
      Balance(Truncated(b, top, funds), leaf, a) - Balance(b, leaf, a) ==
        if Spent(b, A, a) <= Received(b, A, a) then SelfSent(b.graph.vertices, A, a)
        else Outflow(b.graph.vertices, A, a)
  {
    hide Acyclic, Indexed, ParentsHeld, Keyed, StoredClosed, EdgesMatch;
    hide Ancestors, Settled, Inflow, Outflow, SelfSent, Balance;
    var A := Ancestors(b.graph.edges, top);
    assert A * Past(b.graph, leaf) == A;
    BalanceFromAnyLeaf(b, top, funds, leaf, a);
  }

  /** So the balance survives exactly when `a` paid itself nothing in the cut and had received enough there. */
  lemma TruncationKeepsBalance(b: Book, top: Hash, funds: map<Address, Amount>, leaf: Hash, a: Address)
    requires Inv(b) && leaf in b.graph.vertices
    requires var A := Ancestors(b.graph.edges, top);
      leaf !in A && A <= Ancestors(b.graph.edges, leaf) && Settled(b, A, funds, a)
    ensures var A := Ancestors(b.graph.edges, top);
      Balance(Truncated(b, top, funds), leaf, a) == Balance(b, leaf, a) <==>
        SelfSent(b.graph.vertices, A, a) == 0 && Outflow(b.graph.vertices, A, a) <= Received(b, A, a)
  {
    hide Inv, Ancestors, Settled, Balance, SelfSent, Outflow, Received, Truncated;
    BalanceAfterTruncation(b, top, funds, leaf, a);
    SpentWithin(b, Ancestors(b.graph.edges, top), a);
  }

  /** A leaf is nobody's ancestor, so any leaf qualifies whose past holds the cut. */
  lemma LeafIsNotCut(b: Book, top: Hash, leaf: Hash)
    requires IsLeaf(b.graph, leaf)
    ensures leaf !in Ancestors(b.graph.edges, top)
  {
    hide Ancestors;
    AncestorsLeast(b.graph.edges, top, {});
  }

  /** Truncation makes a root of every vertex whose parents were all cut, the cut point among them. */
  lemma CutMakesRoots(b: Book, top: Hash, funds: map<Address, Amount>, h: Hash)
    requires Inv(b) && h in b.graph.vertices && h !in Ancestors(b.graph.edges, top)
    ensures IsRoot(Truncated(b, top, funds).graph, h) <==>
            Parents(b.graph.edges, {h}) <= Ancestors(b.graph.edges, top)
    ensures h == top ==> IsRoot(Truncated(b, top, funds).graph, h)
  {
    hide Ancestors, Acyclic, Indexed, ParentsHeld, Keyed, StoredClosed, EdgesMatch;
    var A, c := Ancestors(b.graph.edges, top), Truncated(b, top, funds);
    AncestorsLeast(b.graph.edges, top, {});
    forall p | p in Parents(b.graph.edges, {h}) && p !in A
      ensures p in Parents(c.graph.edges, {h})
    {
      var e :| e in b.graph.edges && e.1 == h && e.0 == p;
      assert e in c.graph.edges;
    }
    forall p | p in Parents(c.graph.edges, {h})
      ensures p in Parents(b.graph.edges, {h}) && p !in A
    {
    }
    forall p | h == top && p in Parents(b.graph.edges, {h})
      ensures p in A
    {
    }
  }

  /** Any payment to oneself in the cut changes the payer's balance. */
  lemma SelfPaymentChangesBalance(b: Book, top: Hash, funds: map<Address, Amount>, leaf: Hash, k: Hash)
    requires Inv(b) && leaf in b.graph.vertices && k in b.graph.vertices
    requires var A, a := Ancestors(b.graph.edges, top), b.graph.vertices[k].trx.issuer;
      && leaf !in A && A <= Ancestors(b.graph.edges, leaf) && Settled(b, A, funds, a)
      && k in A && b.graph.vertices[k].trx.receiver == a && !Empty(b.graph.vertices[k].trx.spice)
    ensures var a := b.graph.vertices[k].trx.issuer;
      Balance(Truncated(b, top, funds), leaf, a) != Balance(b, leaf, a)
  {
    hide Inv, Ancestors, Settled, Balance, Truncated, Val, Outflow, Received;
    var A, a := Ancestors(b.graph.edges, top), b.graph.vertices[k].trx.issuer;
    var f := SelfOf(b.graph.vertices, a);
    SumTake(A, f, k);
    SumNonNegative(A - {k}, f);
    TruncationKeepsBalance(b, top, funds, leaf, a);
  }

  /**
   The condition does fail: in a book grown from genesis, every truncation changes the balance of the
   genesis issuer, unless that wallet had got back all it issued.
   */
  lemma GenesisIssuerBalanceChanges(b: Book, g: Vertex, top: Hash, funds: map<Address, Amount>, leaf: Hash)
    requires Inv(b) && Rooted(b, g) && leaf in b.graph.vertices && top in b.graph.vertices && top != g.hash
    requires var A := Ancestors(b.graph.edges, top);
      && leaf !in A && A <= Ancestors(b.graph.edges, leaf) && Settled(b, A, funds, g.trx.issuer)
      && Inflow(b.graph.vertices, A, g.trx.issuer) < Val(g.trx.spice)
    ensures Balance(Truncated(b, top, funds), leaf, g.trx.issuer) != Balance(b, leaf, g.trx.issuer)
  {
    hide Ancestors, Acyclic, Indexed, EdgesMatch, ParentsHeld, Keyed, Settled, Balance, Truncated, Val, SelfSent;
    var A, a := Ancestors(b.graph.edges, top), g.trx.issuer;
    assert Descends(b, top, g);
    var f := OutOf(b.graph.vertices, a);
    SumTake(A, f, g.hash);
    SumNonNegative(A - {g.hash}, f);
    TruncationKeepsBalance(b, top, funds, leaf, a);
  }
}
