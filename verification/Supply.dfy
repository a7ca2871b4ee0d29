/**
 Balances seen from a vertex, and the conservation of supply: in a book grown from one genesis
 vertex by adding and rejecting leaves, what everybody but the genesis issuer owns is what the
 genesis vertex issued, less what was sent back to the issuer.
 */
module Supply {
  import opened Dag
  import opened Spice
  import opened Sums
  import opened Ledger

  /** The vertex moves funds of `a`. */
  predicate Concerns(v: Vertex, a: Address) {
    v.trx.issuer == a || v.trx.receiver == a
  }

  function In(v: Vertex, a: Address): nat {
    if v.trx.receiver == a then Val(v.trx.spice) else 0
  }

  function Out(v: Vertex, a: Address): nat {
    if v.trx.issuer == a then Val(v.trx.spice) else 0
  }

  ghost function InOf(V: map<Hash, Vertex>, a: Address): Hash -> int {
    h => if h in V then In(V[h], a) else 0
  }

  ghost function OutOf(V: map<Hash, Vertex>, a: Address): Hash -> int {
    h => if h in V then Out(V[h], a) else 0
  }

  ghost function Inflow(V: map<Hash, Vertex>, S: set<Hash>, a: Address): int {
    Sum(S, InOf(V, a))
  }

  ghost function Outflow(V: map<Hash, Vertex>, S: set<Hash>, a: Address): int {
    Sum(S, OutOf(V, a))
  }

  /** A vertex and its whole causal past. */
  ghost function Past(g: Graph, h: Hash): set<Hash> {
    Ancestors(g.edges, h) + {h}
  }

  function FundsOf(b: Book, a: Address): nat {
    if a in b.funds then Val(b.funds[a]) else 0
  }

  /** Stored funds plus inflow minus outflow, once for each vertex of the past; negative if overspent. */
  ghost function Balance(b: Book, h: Hash, a: Address): int {
    FundsOf(b, a) + Inflow(b.graph.vertices, Past(b.graph, h), a) - Outflow(b.graph.vertices, Past(b.graph, h), a)
  }

  // ---- books grown from one genesis vertex ----

  /** `g` is the only root, below everything, and nobody else spends from its wallet. */
  ghost predicate Rooted(b: Book, g: Vertex) {
    && b.stored == map[] && b.funds == map[] && b.loaded && b.genesis == g.trx.issuer
    && GenesisVertex(g)
    && (b.graph.vertices != map[] ==> g.hash in b.graph.vertices && b.graph.vertices[g.hash] == g)
    && (forall h :: h in b.graph.vertices && h != g.hash ==> Descends(b, h, g))
  }

  ghost predicate Descends(b: Book, h: Hash, g: Vertex)
    requires h in b.graph.vertices
  {
    var v := b.graph.vertices[h];
    && g.hash in Ancestors(b.graph.edges, h)
    && v.left != NO_HASH && v.right != NO_HASH
    && v.trx.issuer != g.trx.issuer && v.trx.issuer != v.signer && !IsEmpty(v.trx)
  }

  ghost predicate Grows(steps: seq<Step>) {
    forall i :: 0 <= i < |steps| ==> steps[i].Drop? || steps[i].Add?
  }

  lemma GenesisIsRooted(g: Vertex)
    requires Unknown(FRESH, g) && GenesisVertex(g)
    ensures Rooted(WithGenesis(FRESH, g), g)
  {
  }

  /** The past of the vertices already there does not change when a leaf comes or goes. */
  lemma AttachKeepsPast(b: Book, v: Vertex, h: Hash)
    requires Inv(b) && Attachable(b, v) && h in b.graph.vertices
    ensures Ancestors(Attach(b, v).graph.edges, h) == Ancestors(b.graph.edges, h)
  {
    hide Ancestors, Acyclic, Indexed;
    UnknownHasNoChildren(b, v, v.left);
    SinkIrrelevant(b.graph.edges, Attach(b, v).graph.edges, v.hash, h);
  }

  /** The past of a new leaf is the past of its parents and the parents. */
  lemma AttachedPast(b: Book, v: Vertex)
    requires Inv(b) && Attachable(b, v)
    ensures Ancestors(Attach(b, v).graph.edges, v.hash) == Past(b.graph, v.left) + Past(b.graph, v.right)
  {
    hide Ancestors, Acyclic, Indexed, ParentsHeld, Keyed, StoredClosed;
    var E, F := b.graph.edges, Attach(b, v).graph.edges;
    var R := Past(b.graph, v.left) + Past(b.graph, v.right);
    AncestorsLeast(E, v.left, {});
    AncestorsLeast(E, v.right, {});
    AncestorsInGraph(b, v.left);
    AncestorsInGraph(b, v.right);
    assert HoldsPast(F, v.hash, R);
    AncestorsLeast(F, v.hash, R);
    EdgeGivesAncestor(F, v.left, v.hash);
    EdgeGivesAncestor(F, v.right, v.hash);
    AttachKeepsPast(b, v, v.left);
    AttachKeepsPast(b, v, v.right);
  }

  lemma DropKeepsPast(b: Book, k: Hash, h: Hash)
    requires IsLeaf(b.graph, k) && h != k
    ensures Ancestors(DropLeaf(b, k).graph.edges, h) == Ancestors(b.graph.edges, h)
  {
    hide Ancestors;
    SinkIrrelevant(b.graph.edges, DropLeaf(b, k).graph.edges, k, h);
  }

  lemma AttachKeepsRooted(b: Book, g: Vertex, v: Vertex)
    requires Inv(b) && Rooted(b, g) && Attachable(b, v)
    ensures Rooted(Attach(b, v), g)
  {
    hide Ancestors, Acyclic, Indexed, EdgesMatch, ParentsHeld;
    var c := Attach(b, v);
    EdgeGivesAncestor(c.graph.edges, v.left, v.hash);
    AttachKeepsPast(b, v, v.left);
    forall h | h in c.graph.vertices && h != g.hash
      ensures Descends(c, h, g)
    {
      if h != v.hash { AttachKeepsPast(b, v, h); }
    }
  }

  lemma DropKeepsRooted(b: Book, g: Vertex, k: Hash)
    requires Rooted(b, g) && IsLeaf(b.graph, k)
    ensures Rooted(DropLeaf(b, k), g)
  {
    hide Ancestors;
    var c := DropLeaf(b, k);
    forall h | h in c.graph.vertices && h != g.hash
      ensures Descends(c, h, g) && k != g.hash
    {
      DropKeepsPast(b, k, h);
      AncestorsLeast(b.graph.edges, h, {});
    }
  }

  lemma {:induction false} GrowthKeepsRooted(b: Book, g: Vertex, steps: seq<Step>)
    requires Inv(b) && Rooted(b, g) && Legal(b, steps) && Grows(steps)
    ensures Inv(Run(b, steps)) && Rooted(Run(b, steps), g)
    decreases |steps|
  {
    hide Inv, Rooted, Attachable, IsLeaf, Attach, DropLeaf;
    if steps != [] {
      var s := steps[0];
      StepKeepsInv(b, s);
      if s.Add? { AttachKeepsRooted(b, g, s.v); } else { DropKeepsRooted(b, g, s.h); }
      GrowthKeepsRooted(After(b, s), g, steps[1..]);
    }
  }

  // ---- conservation ----

  ghost function Net(V: map<Hash, Vertex>, S: set<Hash>): Address -> int {
    a => Inflow(V, S, a) - Outflow(V, S, a)
  }

  ghost function InTo(v: Vertex): Address -> int {
    a => In(v, a)
  }

  ghost function OutFrom(v: Vertex): Address -> int {
    a => 0 - Out(v, a)
  }

  ghost function Flow(v: Vertex): Address -> int {
    a => In(v, a) - Out(v, a)
  }

  /** One vertex moves its amount between those members of `A` it names. */
  lemma FlowTotal(v: Vertex, A: set<Address>)
    ensures Sum(A, Flow(v)) == (if v.trx.receiver in A then Val(v.trx.spice) else 0)
                               - (if v.trx.issuer in A then Val(v.trx.spice) else 0)
  {
    hide Val;
    SumPlus(A, InTo(v), OutFrom(v), Flow(v));
    SumSingle(A, InTo(v), v.trx.receiver);
    SumSingle(A, OutFrom(v), v.trx.issuer);
  }

  lemma NetAdd(V: map<Hash, Vertex>, S: set<Hash>, h: Hash, A: set<Address>)
    requires h in V && h !in S
    ensures Sum(A, Net(V, S + {h})) == Sum(A, Net(V, S)) + Sum(A, Flow(V[h]))
  {
    hide Val;
    forall a | a in A
      ensures Net(V, S + {h})(a) == Net(V, S)(a) + Flow(V[h])(a)
    {
      SumAdd(S, InOf(V, a), h);
      SumAdd(S, OutOf(V, a), h);
    }
    SumPlus(A, Net(V, S), Flow(V[h]), Net(V, S + {h}));
  }

  /** The vertices of `S` other than the genesis vertex only move what is there. */
  ghost predicate Accounted(V: map<Hash, Vertex>, S: set<Hash>, g: Vertex, A: set<Address>) {
    && S <= V.Keys && g.trx.issuer !in A
    && (forall h :: h in S ==> V[h].trx.receiver in A + {g.trx.issuer} && V[h].trx.issuer in A + {g.trx.issuer})
    && (forall h :: h in S && h != g.hash ==> V[h].trx.issuer != g.trx.issuer)
    && (g.hash in S ==> V[g.hash] == g && g.trx.receiver != g.trx.issuer)
  }

  lemma MemberFlow(V: map<Hash, Vertex>, S: set<Hash>, g: Vertex, A: set<Address>, h: Hash)
    requires Accounted(V, S, g, A) && h in S
    ensures Sum(A, Flow(V[h])) == (if h == g.hash then Val(g.trx.spice) else 0) - In(V[h], g.trx.issuer)
  {
    hide Val;
    FlowTotal(V[h], A);
  }

  lemma {:induction false} NetTotal(V: map<Hash, Vertex>, S: set<Hash>, g: Vertex, A: set<Address>)
    requires Accounted(V, S, g, A)
    ensures Sum(A, Net(V, S)) ==
            (if g.hash in S then Val(g.trx.spice) else 0) - Inflow(V, S, g.trx.issuer)
    decreases |S|
  {
    hide Val;
    if S == {} {
      NetOfNothing(V, A);
    } else {
      var h :| h in S;
      var R := S - {h};
      NetTotal(V, R, g, A);
      NetAdd(V, R, h, A);
      assert R + {h} == S;
      MemberFlow(V, S, g, A, h);
      SumAdd(R, InOf(V, g.trx.issuer), h);
    }
  }

  lemma NetOfNothing(V: map<Hash, Vertex>, A: set<Address>)
    ensures Sum(A, Net(V, {})) == 0
  {
    SumSingle(A, Net(V, {}), "");
  }

  ghost function BalanceAt(b: Book, h: Hash): Address -> int {
    a => Balance(b, h, a)
  }

  /**
   Seen from any vertex of a grown book, the balances of all addresses but the genesis issuer's sum
   to the genesis amount less what the issuer's wallet received.
   */
  lemma SupplyConserved(b: Book, g: Vertex, h: Hash, A: set<Address>)
    requires Inv(b) && Rooted(b, g) && h in b.graph.vertices
    requires g.trx.issuer !in A
    requires forall k :: k in Past(b.graph, h) && k in b.graph.vertices ==>
      b.graph.vertices[k].trx.receiver in A + {g.trx.issuer} && b.graph.vertices[k].trx.issuer in A + {g.trx.issuer}
    ensures Sum(A, BalanceAt(b, h)) ==
            Val(g.trx.spice) - Inflow(b.graph.vertices, Past(b.graph, h), g.trx.issuer)
  {
    hide Ancestors, Acyclic, Indexed, EdgesMatch, ParentsHeld, Keyed, Val;
    AncestorsInGraph(b, h);
    var V, S := b.graph.vertices, Past(b.graph, h);
    NetTotal(V, S, g, A);
    SumSame(A, BalanceAt(b, h), Net(V, S));
  }

  /** The same over every run that grows a book from a genesis vertex. */
  lemma RunConservesSupply(g: Vertex, steps: seq<Step>, h: Hash, A: set<Address>)
    requires Unknown(FRESH, g) && GenesisVertex(g)
    requires Legal(WithGenesis(FRESH, g), steps) && Grows(steps)
    requires var b := Run(WithGenesis(FRESH, g), steps);
      && h in b.graph.vertices && g.trx.issuer !in A
      && forall k :: k in Past(b.graph, h) && k in b.graph.vertices ==>
           && b.graph.vertices[k].trx.receiver in A + {g.trx.issuer}
           && b.graph.vertices[k].trx.issuer in A + {g.trx.issuer}
    ensures var b := Run(WithGenesis(FRESH, g), steps);
      Sum(A, BalanceAt(b, h)) == Val(g.trx.spice) - Inflow(b.graph.vertices, Past(b.graph, h), g.trx.issuer)
  {
    hide Inv, Rooted, Run, Past, Inflow, Val;
    FreshInv();
    GenesisKeepsInv(FRESH, g);
    GenesisIsRooted(g);
    GrowthKeepsRooted(WithGenesis(FRESH, g), g, steps);
    SupplyConserved(Run(WithGenesis(FRESH, g), steps), g, h, A);
  }
}
