/**
 The state of an accounting book (src/accountant): vertices in the graph, vertices moved to
 storage, the transaction-to-vertex index and the stored funds; the steps that change it, one
 for each way the locked operations of accountant.go touch it; and what every step keeps.

 Hashes are numbers with 0 for the zero hash. Signature checks are an ideal predicate of the
 book that validates (`Accountant`). The vertex and funds keys of the one Badger store
 are kept in two maps.
 */
module Ledger {
  import opened Dag
  import opened Basics
  import opened Spice

  type Address = string

  const NO_HASH: Hash := 0

  /** `contract` is a non-empty data buffer. */
  datatype Transaction = Transaction(hash: Hash, issuer: Address, receiver: Address, contract: bool, spice: Amount)

  predicate IsSpiceTransfer(t: Transaction) {
    !Empty(t.spice)
  }

  predicate IsEmpty(t: Transaction) {
    !t.contract && !IsSpiceTransfer(t)
  }

  /** Empty is neither data nor spice. */
  lemma EmptyMeans(t: Transaction)
    ensures IsSpiceTransfer(t) <==> Val(t.spice) > 0
    ensures IsEmpty(t) <==> !t.contract && Val(t.spice) == 0
  {
  }

  datatype Vertex = Vertex(hash: Hash, signer: Address, trx: Transaction, left: Hash, right: Hash, weight: nat)

  predicate IsParent(p: Hash, v: Vertex) {
    p == v.left || p == v.right
  }

  // ---- the graph ----

  datatype Graph = Graph(vertices: map<Hash, Vertex>, edges: set<Edge>)

  function AddVertexByID(g: Graph, v: Vertex): Option<Graph> {
    if v.hash in g.vertices then None else Some(g.(vertices := g.vertices[v.hash := v]))
  }

  /** Unknown ends, an edge to itself, a known edge and a loop are refused. */
  function AddEdge(g: Graph, src: Hash, dst: Hash): Option<Graph> {
    if src !in g.vertices || dst !in g.vertices || src == dst || (src, dst) in g.edges
       || dst in Ancestors(g.edges, src)
    then None
    else Some(g.(edges := g.edges + {(src, dst)}))
  }

  function DeleteVertex(g: Graph, h: Hash): Graph {
    Graph(g.vertices - {h}, set e | e in g.edges && e.0 != h && e.1 != h)
  }

  predicate IsLeaf(g: Graph, h: Hash) {
    h in g.vertices && h !in Sources(g.edges)
  }

  function Leaves(g: Graph): (s: set<Hash>)
    ensures forall h :: h in s <==> IsLeaf(g, h)
  {
    g.vertices.Keys - Sources(g.edges)
  }

  predicate IsRoot(g: Graph, h: Hash) {
    h in g.vertices && Parents(g.edges, {h}) == {}
  }

  // ---- the book ----

  datatype Book = Book(
    graph: Graph, stored: map<Hash, Vertex>, index: map<Hash, Hash>, funds: map<Address, Amount>,
    genesis: Address, loaded: bool)

  const FRESH := Book(Graph(map[], {}), map[], map[], map[], "", false)

  /** Every vertex held, in the graph or in storage. */
  function Held(b: Book): map<Hash, Vertex> {
    b.stored + b.graph.vertices
  }

  ghost predicate Keyed(m: map<Hash, Vertex>) {
    forall h :: h in m ==> m[h].hash == h && h != NO_HASH
  }

  /** The edges are exactly the parent references between vertices of the graph. */
  ghost predicate EdgesMatch(g: Graph) {
    forall e: Edge :: e in g.edges <==>
      e.0 in g.vertices && e.1 in g.vertices && IsParent(e.0, g.vertices[e.1])
  }

  predicate Parentless(v: Vertex) {
    v.left == NO_HASH && v.right == NO_HASH
  }

  /** A parent reference leads into the graph or into storage; only a vertex without parents has none. */
  ghost predicate ParentsHeld(b: Book) {
    forall h, p :: h in b.graph.vertices && IsParent(p, b.graph.vertices[h]) ==>
      p in Held(b) || Parentless(b.graph.vertices[h])
  }

  /** From storage a parent reference leads into storage. */
  ghost predicate StoredClosed(stored: map<Hash, Vertex>) {
    forall h, p :: h in stored && IsParent(p, stored[h]) ==> p in stored || Parentless(stored[h])
  }

  /** Transactions and held vertices correspond one to one. */
  ghost predicate Indexed(index: map<Hash, Hash>, held: map<Hash, Vertex>) {
    && (forall h :: h in held ==> held[h].trx.hash in index && index[held[h].trx.hash] == h)
    && (forall t :: t in index ==> index[t] in held && held[index[t]].trx.hash == t)
  }

  /** What every step keeps. */
  ghost predicate Inv(b: Book) {
    && Keyed(b.graph.vertices) && Keyed(b.stored)
    && b.graph.vertices.Keys !! b.stored.Keys
    && EdgesMatch(b.graph)
    && Acyclic(b.graph.edges)
    && ParentsHeld(b) && StoredClosed(b.stored)
    && Indexed(b.index, Held(b))
  }

  /** No transaction sits in two vertices. */
  lemma OneVertexPerTransaction(b: Book, h: Hash, k: Hash)
    requires Inv(b) && h in Held(b) && k in Held(b) && Held(b)[h].trx.hash == Held(b)[k].trx.hash
    ensures h == k
  {
    hide Acyclic, ParentsHeld, EdgesMatch, Keyed;
  }

  /** Every parent of a held vertex is held, in the graph or in storage, or the vertex has none. */
  lemma EveryParentHeld(b: Book, h: Hash, p: Hash)
    requires Inv(b) && h in Held(b) && IsParent(p, Held(b)[h])
    ensures p in Held(b) || (p == NO_HASH && Parentless(Held(b)[h]))
  {
    hide Acyclic, EdgesMatch, Keyed, Indexed;
  }

  // ---- steps ----

  function WithGenesis(b: Book, v: Vertex): Book {
    b.(graph := b.graph.(vertices := b.graph.vertices[v.hash := v]),
       index := b.index[v.trx.hash := v.hash],
       genesis := v.trx.issuer, loaded := true)
  }

  /** A rejected leaf: the vertex and its index entry go. */
  function DropLeaf(b: Book, h: Hash): Book
    requires h in b.graph.vertices
  {
    b.(graph := DeleteVertex(b.graph, h), index := b.index - {b.graph.vertices[h].trx.hash})
  }

  function Attach(b: Book, v: Vertex): Book {
    b.(graph := Graph(b.graph.vertices[v.hash := v], b.graph.edges + {(v.left, v.hash), (v.right, v.hash)}),
       index := b.index[v.trx.hash := v.hash])
  }

  /** Truncation at `top`: its strict ancestors move to storage, funds are rewritten. */
  function Truncated(b: Book, top: Hash, funds: map<Address, Amount>): Book {
    var A := Ancestors(b.graph.edges, top);
    b.(graph := Graph(b.graph.vertices - A, Cut(b.graph.edges, A)),
       stored := b.stored + (map h | h in b.graph.vertices && h in A :: b.graph.vertices[h]),
       funds := funds)
  }

  /** A new vertex: hash and transaction unknown so far. */
  ghost predicate Unknown(b: Book, v: Vertex) {
    v.hash != NO_HASH && v.hash !in Held(b) && v.trx.hash !in b.index
  }

  /** The checks `CreateLeaf` and `AddLeaf` make before a vertex joins the graph. */
  ghost predicate Attachable(b: Book, v: Vertex) {
    && b.loaded && Unknown(b, v)
    && v.left in b.graph.vertices && v.right in b.graph.vertices
    && v.trx.issuer != b.genesis && v.trx.issuer != v.signer && !IsEmpty(v.trx)
  }

  ghost predicate GenesisVertex(v: Vertex) {
    Parentless(v) && v.trx.issuer == v.signer && v.trx.receiver != v.trx.issuer
  }

  datatype Step = Genesis(v: Vertex) | Drop(h: Hash) | Add(v: Vertex) | Truncate(top: Hash, funds: map<Address, Amount>)

  ghost predicate Enabled(b: Book, s: Step) {
    match s
    case Genesis(v) => Unknown(b, v) && GenesisVertex(v)
    case Drop(h) => IsLeaf(b.graph, h)
    case Add(v) => Attachable(b, v)
    case Truncate(top, _) => top in b.graph.vertices
  }

  ghost function After(b: Book, s: Step): Book
    requires Enabled(b, s)
  {
    match s
    case Genesis(v) => WithGenesis(b, v)
    case Drop(h) => DropLeaf(b, h)
    case Add(v) => Attach(b, v)
    case Truncate(top, funds) => Truncated(b, top, funds)
  }

  ghost predicate Legal(b: Book, steps: seq<Step>)
    decreases |steps|
  {
    steps != [] ==> Enabled(b, steps[0]) && Legal(After(b, steps[0]), steps[1..])
  }

  ghost function Run(b: Book, steps: seq<Step>): Book
    requires Legal(b, steps)
    decreases |steps|
  {
    if steps == [] then b else Run(After(b, steps[0]), steps[1..])
  }

  // ---- every step keeps the invariant ----

  lemma IndexedAdd(index: map<Hash, Hash>, held: map<Hash, Vertex>, v: Vertex)
    requires Indexed(index, held) && v.hash !in held && v.trx.hash !in index
    ensures Indexed(index[v.trx.hash := v.hash], held[v.hash := v])
  {
  }

  lemma IndexedRemove(index: map<Hash, Hash>, held: map<Hash, Vertex>, h: Hash)
    requires Indexed(index, held) && h in held
    ensures Indexed(index - {held[h].trx.hash}, held - {h})
  {
  }

  lemma HeldAdd(b: Book, v: Vertex)
    ensures Held(Attach(b, v)) == Held(b)[v.hash := v]
    ensures Held(WithGenesis(b, v)) == Held(b)[v.hash := v]
  {
  }

  lemma HeldDrop(b: Book, h: Hash)
    requires h in b.graph.vertices && h !in b.stored
    ensures Held(DropLeaf(b, h)) == Held(b) - {h}
  {
  }

  /** A hash no vertex has is nobody's parent. */
  lemma UnknownHasNoChildren(b: Book, v: Vertex, h: Hash)
    requires Inv(b) && Unknown(b, v) && h in b.graph.vertices
    ensures !IsParent(v.hash, b.graph.vertices[h])
    ensures v.hash !in Sources(b.graph.edges)
  {
    hide Acyclic, Indexed;
  }

  lemma GenesisKeepsEdges(b: Book, v: Vertex)
    requires Inv(b) && Unknown(b, v) && GenesisVertex(v)
    ensures EdgesMatch(WithGenesis(b, v).graph) && ParentsHeld(WithGenesis(b, v))
  {
    hide Acyclic, Indexed;
    HeldAdd(b, v);
    forall h | h in b.graph.vertices
      ensures !IsParent(v.hash, b.graph.vertices[h])
    {
      UnknownHasNoChildren(b, v, h);
    }
  }

  lemma GenesisKeepsInv(b: Book, v: Vertex)
    requires Inv(b) && Unknown(b, v) && GenesisVertex(v)
    ensures Inv(WithGenesis(b, v))
  {
    hide Acyclic, Indexed, EdgesMatch, ParentsHeld;
    GenesisKeepsEdges(b, v);
    HeldAdd(b, v);
    IndexedAdd(b.index, Held(b), v);
  }

  lemma AttachKeepsEdges(b: Book, v: Vertex)
    requires Inv(b) && Attachable(b, v)
    ensures EdgesMatch(Attach(b, v).graph) && ParentsHeld(Attach(b, v))
  {
    hide Acyclic, Indexed;
    HeldAdd(b, v);
    forall h | h in b.graph.vertices
      ensures !IsParent(v.hash, b.graph.vertices[h])
    {
      UnknownHasNoChildren(b, v, h);
    }
  }

  lemma AttachKeepsAcyclic(b: Book, v: Vertex)
    requires Inv(b) && Attachable(b, v)
    ensures Acyclic(Attach(b, v).graph.edges)
  {
    hide Acyclic, Indexed, Ancestors;
    UnknownHasNoChildren(b, v, v.left);
    SinkKeepsAcyclic(b.graph.edges, Attach(b, v).graph.edges, v.hash);
  }

  lemma AttachKeepsInv(b: Book, v: Vertex)
    requires Inv(b) && Attachable(b, v)
    ensures Inv(Attach(b, v))
  {
    hide Acyclic, Indexed, EdgesMatch, ParentsHeld;
    AttachKeepsEdges(b, v);
    AttachKeepsAcyclic(b, v);
    HeldAdd(b, v);
    IndexedAdd(b.index, Held(b), v);
  }

  lemma DropKeepsEdges(b: Book, h: Hash)
    requires Inv(b) && IsLeaf(b.graph, h)
    ensures EdgesMatch(DropLeaf(b, h).graph) && ParentsHeld(DropLeaf(b, h))
  {
    hide Acyclic, Indexed;
    HeldDrop(b, h);
    forall k | k in b.graph.vertices
      ensures !IsParent(h, b.graph.vertices[k])
    {
      assert (h, k) in b.graph.edges <==> IsParent(h, b.graph.vertices[k]);
    }
  }

  lemma DropKeepsAcyclic(b: Book, h: Hash)
    requires Inv(b) && IsLeaf(b.graph, h)
    ensures Acyclic(DropLeaf(b, h).graph.edges)
  {
    hide Acyclic, Indexed, Ancestors, ParentsHeld, EdgesMatch, Keyed;
    SinkKeepsAcyclic(b.graph.edges, DropLeaf(b, h).graph.edges, h);
  }

  lemma DropKeepsInv(b: Book, h: Hash)
    requires Inv(b) && IsLeaf(b.graph, h)
    ensures Inv(DropLeaf(b, h))
  {
    hide Acyclic, Indexed, EdgesMatch, ParentsHeld;
    DropKeepsEdges(b, h);
    DropKeepsAcyclic(b, h);
    HeldDrop(b, h);
    IndexedRemove(b.index, Held(b), h);
  }

  lemma AncestorsInGraph(b: Book, h: Hash)
    requires EdgesMatch(b.graph)
    ensures Ancestors(b.graph.edges, h) <= b.graph.vertices.Keys
    ensures PastClosed(b.graph.edges, Ancestors(b.graph.edges, h))
  {
    hide Ancestors;
    AncestorsLeast(b.graph.edges, h, {});
  }

  /** Truncation moves vertices and forgets none. */
  lemma HeldTruncated(b: Book, top: Hash, funds: map<Address, Amount>)
    requires b.graph.vertices.Keys !! b.stored.Keys
    ensures Held(Truncated(b, top, funds)) == Held(b)
  {
    hide Ancestors;
  }

  lemma TruncateKeepsEdges(b: Book, top: Hash, funds: map<Address, Amount>)
    requires Inv(b)
    ensures EdgesMatch(Truncated(b, top, funds).graph) && ParentsHeld(Truncated(b, top, funds))
  {
    hide Acyclic, Indexed, Ancestors, Held;
    HeldTruncated(b, top, funds);
  }

  /** The strict ancestors of a vertex take their parents with them into storage. */
  lemma TruncateKeepsStored(b: Book, top: Hash, funds: map<Address, Amount>)
    requires Inv(b)
    ensures StoredClosed(Truncated(b, top, funds).stored)
  {
    hide Acyclic, Indexed, Ancestors, Keyed;
    var A, c := Ancestors(b.graph.edges, top), Truncated(b, top, funds);
    AncestorsInGraph(b, top);
    forall h, p | h in c.stored && IsParent(p, c.stored[h])
      ensures p in c.stored || Parentless(c.stored[h])
    {
      if h in A && p in b.graph.vertices { assert (p, h) in b.graph.edges; }
    }
  }

  lemma TruncateKeepsInv(b: Book, top: Hash, funds: map<Address, Amount>)
    requires Inv(b)
    ensures Inv(Truncated(b, top, funds))
  {
    hide Indexed, Ancestors, EdgesMatch, ParentsHeld, StoredClosed, Held;
    TruncateKeepsEdges(b, top, funds);
    TruncateKeepsStored(b, top, funds);
    HeldTruncated(b, top, funds);
    forall v
      ensures v !in Ancestors(Truncated(b, top, funds).graph.edges, v)
    {
      FewerEdges(Truncated(b, top, funds).graph.edges, b.graph.edges, v);
    }
  }

  /** Every run of steps from a book that satisfies the invariant ends in one that does. */
  lemma {:induction false} RunKeepsInv(b: Book, steps: seq<Step>)
    requires Inv(b) && Legal(b, steps)
    ensures Inv(Run(b, steps))
    decreases |steps|
  {
    hide Inv, IsLeaf, Attachable, Unknown;
    if steps != [] {
      StepKeepsInv(b, steps[0]);
      RunKeepsInv(After(b, steps[0]), steps[1..]);
    }
  }

  lemma StepKeepsInv(b: Book, s: Step)
    requires Inv(b) && Enabled(b, s)
    ensures Inv(After(b, s))
  {
    hide Inv, IsLeaf, Attachable, Unknown, Attach, DropLeaf, WithGenesis, Truncated;
    match s
    case Genesis(v) => GenesisKeepsInv(b, v);
    case Drop(h) => DropKeepsInv(b, h);
    case Add(v) => AttachKeepsInv(b, v);
    case Truncate(top, funds) => TruncateKeepsInv(b, top, funds);
  }

  lemma FreshInv()
    ensures Inv(FRESH)
  {
    forall v
      ensures v !in Ancestors({}, v)
    {
      AncestorsLeast({}, v, {});
    }
  }
}
