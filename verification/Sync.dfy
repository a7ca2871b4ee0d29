/**
 Copying a graph to another node: `StreamDAG` emits the vertices, `LoadDag` rebuilds the book from
 them in whatever order they arrive (accountant.go:663-835).
 */
module Sync {
  import opened Dag
  import opened Sums
  import opened Spice
  import opened Ledger
  import opened Supply
  import opened Audit

  ghost function Hashes(stream: seq<Vertex>): (hs: seq<Hash>)
    ensures |hs| == |stream|
  {
    seq(|stream|, i requires 0 <= i < |stream| => stream[i].hash)
  }

  /** The stream holds each vertex of the graph exactly once, and nothing else. */
  ghost predicate Enumerates(stream: seq<Vertex>, V: map<Hash, Vertex>) {
    && Distinct(Hashes(stream))
    && Elems(Hashes(stream)) == V.Keys
    && forall i :: 0 <= i < |stream| ==> stream[i].hash in V && V[stream[i].hash] == stream[i]
  }

  // ---- streaming ----

  lemma {:induction false} BelowSomeLeaf(b: Book, h: Hash) returns (leaf: Hash)
    requires Inv(b) && h in b.graph.vertices
    ensures IsLeaf(b.graph, leaf) && (leaf == h || h in Ancestors(b.graph.edges, leaf))
    decreases |b.graph.vertices.Keys - Ancestors(b.graph.edges, h)|
  {
    hide Ancestors, Indexed, ParentsHeld, Keyed;
    var E := b.graph.edges;
    if IsLeaf(b.graph, h) {
      leaf := h;
    } else {
      var e :| e in E && e.0 == h;
      var c := e.1;
      EdgeGivesAncestor(E, h, c);
      FewerAbove(b.graph.vertices.Keys, Ancestors(E, h), Ancestors(E, c), h);
      leaf := BelowSomeLeaf(b, c);
      if leaf != c { AncestorsTransitive(E, c, leaf); }
    }
  }

  lemma FewerAbove(K: set<Hash>, A: set<Hash>, B: set<Hash>, h: Hash)
    requires A <= B && h in B && h !in A && h in K
    ensures |K - B| < |K - A|
  {
    assert K - B <= K - A - {h};
    SubsetSize(K - B, K - A - {h});
  }

  ghost predicate Streaming(b: Book, order: seq<Hash>, done: set<Hash>, visited: set<Hash>) {
    && Distinct(order) && Elems(order) == done + visited
    && (forall l :: l in done ==> IsLeaf(b.graph, l))
    && (forall h :: h in visited <==> exists l :: l in done && h in Ancestors(b.graph.edges, l))
  }

  lemma StreamedAll(b: Book, order: seq<Hash>, done: set<Hash>, visited: set<Hash>)
    requires Inv(b) && Streaming(b, order, done, visited) && forall l :: IsLeaf(b.graph, l) ==> l in done
    ensures Elems(order) == b.graph.vertices.Keys
  {
    hide Ancestors, Acyclic, Indexed, ParentsHeld, Keyed, EdgesMatch;
    forall h | h in Elems(order)
      ensures h in b.graph.vertices
    {
      if h in visited {
        var l :| l in done && h in Ancestors(b.graph.edges, l);
        AncestorsInGraph(b, l);
      }
    }
    forall h | h in b.graph.vertices
      ensures h in Elems(order)
    {
      var l := BelowSomeLeaf(b, h);
    }
  }

  /** The ancestors of the next leaf that no earlier leaf had. */
  method StreamNew(order: seq<Hash>, visited: set<Hash>, past: seq<Hash>)
    returns (order': seq<Hash>, visited': set<Hash>)
    requires Distinct(order) && visited <= Elems(order) && Distinct(past)
    requires forall h :: h in past && h in Elems(order) ==> h in visited
    ensures Distinct(order') && Elems(order') == Elems(order) + Elems(past) && visited' == visited + Elems(past)
  {
    order', visited' := order, visited;
    for i := 0 to |past|
      invariant Distinct(order') && visited' == visited + Elems(past[..i])
      invariant Elems(order') == Elems(order) + Elems(past[..i])
    {
      assert past[..i + 1] == past[..i] + [past[i]];
      ElemsSnoc(past[..i], past[i]);
      if past[i] !in visited' {
        visited' := visited' + {past[i]};
        assert past[i] !in Elems(order');
        ElemsSnoc(order', past[i]);
        order' := order' + [past[i]];
      }
    }
    assert past[..|past|] == past;
  }

  lemma NextLeaf(b: Book, order: seq<Hash>, done: set<Hash>, visited: set<Hash>, l: Hash, past: seq<Hash>)
    requires Inv(b) && Streaming(b, order, done, visited) && IsLeaf(b.graph, l) && l !in done
    requires Elems(past) == Ancestors(b.graph.edges, l)
    ensures l !in Elems(order)
    ensures forall h :: h in past && h in Elems(order + [l]) ==> h in visited
  {
    hide Ancestors, Acyclic, Indexed, ParentsHeld, Keyed, EdgesMatch;
    AncestorsLeast(b.graph.edges, l, {});
    forall h | h in visited
      ensures !IsLeaf(b.graph, h)
    {
      var k :| k in done && h in Ancestors(b.graph.edges, k);
      AncestorsLeast(b.graph.edges, k, {});
    }
    ElemsSnoc(order, l);
    forall h | h in past
      ensures h != l && h !in done
    {
      assert h in Elems(past);
    }
  }

  lemma StreamedLeaf(b: Book, order: seq<Hash>, done: set<Hash>, visited: set<Hash>, l: Hash, past: seq<Hash>,
                     order': seq<Hash>)
    requires Streaming(b, order, done, visited) && IsLeaf(b.graph, l)
    requires Elems(past) == Ancestors(b.graph.edges, l)
    requires Distinct(order') && Elems(order') == Elems(order + [l]) + Elems(past)
    ensures Streaming(b, order', done + {l}, visited + Elems(past))
  {
    hide Ancestors, IsLeaf;
    ElemsSnoc(order, l);
    var done', visited' := done + {l}, visited + Elems(past);
    forall h
      ensures h in visited' <==> exists k :: k in done' && h in Ancestors(b.graph.edges, k)
    {
      if h in Elems(past) { assert l in done' && h in Ancestors(b.graph.edges, l); }
    }
  }

  /** Each vertex of the graph is emitted exactly once. */
  method StreamDAG(b: Book) returns (stream: seq<Vertex>)
    requires Inv(b)
    ensures Enumerates(stream, b.graph.vertices)
  {
    hide Ancestors, Inv, IsLeaf;
    var rest := Leaves(b.graph);
    var order: seq<Hash>, visited: set<Hash> := [], {};
    ghost var done: set<Hash> := {};
    while rest != {}
      invariant Streaming(b, order, done, visited)
      invariant forall l :: l in rest <==> IsLeaf(b.graph, l) && l !in done
      decreases |rest|
    {
      var l :| l in rest;
      var past := VisitAncestors(b.graph, l);
      NextLeaf(b, order, done, visited, l, past);
      ElemsSnoc(order, l);
      ghost var was := order;
      var order', visited' := StreamNew(order + [l], visited, past);
      StreamedLeaf(b, was, done, visited, l, past, order');
      order, visited, rest, done := order', visited', rest - {l}, done + {l};
    }
    StreamedAll(b, order, done, visited);
    stream := Lookup(b, order);
  }

  method Lookup(b: Book, order: seq<Hash>) returns (stream: seq<Vertex>)
    requires Inv(b) && Distinct(order) && Elems(order) == b.graph.vertices.Keys
    ensures Enumerates(stream, b.graph.vertices)
  {
    hide Ancestors, Acyclic, Indexed, ParentsHeld, EdgesMatch;
    assert forall i :: 0 <= i < |order| ==> order[i] in Elems(order);
    stream := seq(|order|, i requires 0 <= i < |order| && order[i] in b.graph.vertices => b.graph.vertices[order[i]]);
    assert Hashes(stream) == order;
  }

  // ---- loading: the vertices ----

  /** No vertex and no transaction of the stream repeats or is known already. */
  ghost predicate Arriving(known: map<Hash, Vertex>, indexed: map<Hash, Hash>, stream: seq<Vertex>) {
    && Distinct(Hashes(stream)) && DistinctTrx(stream)
    && forall i :: 0 <= i < |stream| ==> stream[i].hash !in known && stream[i].trx.hash !in indexed
  }

  /** `V` holds the vertices known before, under their hashes. */
  ghost predicate Extends(known: map<Hash, Vertex>, V: map<Hash, Vertex>) {
    && (forall h :: h in known ==> h in V && V[h] == known[h])
    && (forall h :: h in V ==> V[h].hash == h)
  }

  /**
   The first loop of `LoadDag`: the index entry and then the vertex, refused when either is known. A refused
   vertex can leave its index entry behind. `W` and `added` are what came from the stream.
   */
  method LoadVertices(known: map<Hash, Vertex>, indexed: map<Hash, Hash>, stream: seq<Vertex>)
    returns (ok: bool, V: map<Hash, Vertex>, index: map<Hash, Hash>,
             ghost W: map<Hash, Vertex>, ghost added: map<Hash, Hash>, ghost n: nat)
    requires Extends(known, known)
    ensures n <= |stream| && (ok <==> n == |stream|)
    ensures !ok ==> Stopped(known, indexed, stream, n, V, index, W, added)
    ensures ok <==> Arriving(known, indexed, stream)
    ensures ok ==> V == known + W && index == indexed + added && Enumerates(stream, W) && Indexed(added, W)
    ensures Extends(known, V)
  {
    hide Loading, Arriving, Extends, Stopped;
    V, index, W, added, n := known, indexed, map[], map[], 0;
    LoadingNone(known, indexed, stream);
    for i := 0 to |stream|
      invariant n == i && Extends(known, V) && Loading(known, indexed, stream, i, V, index, W, added)
    {
      var vrx := stream[i];
      LoadingNext(known, indexed, stream, i, V, index, W, added);
      LoadingStops(known, indexed, stream, i, V, index, W, added);
      if vrx.trx.hash in index {
        return false, V, index, W, added, n;
      }
      index := index[vrx.trx.hash := vrx.hash];
      if vrx.hash in V {
        return false, V, index, W, added, n;
      }
      V, W, added := V[vrx.hash := vrx], W[vrx.hash := vrx], added[vrx.trx.hash := vrx.hash];
      n := i + 1;
    }
    LoadingDone(known, indexed, stream, V, index, W, added);
    return true, V, index, W, added, n;
  }

  /** The first `i` vertices of the stream were new. */
  ghost predicate Loading(known: map<Hash, Vertex>, indexed: map<Hash, Hash>, stream: seq<Vertex>, i: nat,
                          V: map<Hash, Vertex>, index: map<Hash, Hash>,
                          W: map<Hash, Vertex>, added: map<Hash, Hash>)
    requires i <= |stream|
  {
    && V == known + W && index == indexed + added
    && Enumerates(stream[..i], W) && Indexed(added, W)
    && forall k :: 0 <= k < i ==> stream[k].hash !in known && stream[k].trx.hash !in indexed
  }

  /** The vertex at `n` was refused: for its transaction, or for its hash once its transaction had an entry. */
  ghost predicate Stopped(known: map<Hash, Vertex>, indexed: map<Hash, Hash>, stream: seq<Vertex>, n: nat,
                          V: map<Hash, Vertex>, index: map<Hash, Hash>,
                          W: map<Hash, Vertex>, added: map<Hash, Hash>)
  {
    && n < |stream| && V == known + W && Enumerates(stream[..n], W) && Indexed(added, W)
    && if stream[n].trx.hash in indexed + added then index == indexed + added
       else stream[n].hash in V && index == (indexed + added)[stream[n].trx.hash := stream[n].hash]
  }

  lemma LoadingStops(known: map<Hash, Vertex>, indexed: map<Hash, Hash>, stream: seq<Vertex>, i: nat,
                     V: map<Hash, Vertex>, index: map<Hash, Hash>, W: map<Hash, Vertex>, added: map<Hash, Hash>)
    requires i < |stream| && Loading(known, indexed, stream, i, V, index, W, added)
    ensures stream[i].trx.hash in index ==> Stopped(known, indexed, stream, i, V, index, W, added)
    ensures stream[i].trx.hash !in index && stream[i].hash in V ==>
      Stopped(known, indexed, stream, i, V, index[stream[i].trx.hash := stream[i].hash], W, added)
  {
    hide Enumerates, Indexed;
  }

  lemma LoadingNone(known: map<Hash, Vertex>, indexed: map<Hash, Hash>, stream: seq<Vertex>)
    ensures Loading(known, indexed, stream, 0, known, indexed, map[], map[])
  {
    hide Enumerates, Indexed;
    NothingIndexed();
    assert stream[..0] == [];
  }

  lemma LoadingNext(known: map<Hash, Vertex>, indexed: map<Hash, Hash>, stream: seq<Vertex>, i: nat,
                    V: map<Hash, Vertex>, index: map<Hash, Hash>, W: map<Hash, Vertex>, added: map<Hash, Hash>)
    requires i < |stream| && Extends(known, V) && Loading(known, indexed, stream, i, V, index, W, added)
    ensures stream[i].trx.hash in index || stream[i].hash in V ==> !Arriving(known, indexed, stream)
    ensures var v := stream[i];
      v.trx.hash !in index && v.hash !in V ==>
        && Extends(known, V[v.hash := v])
        && Loading(known, indexed, stream, i + 1, V[v.hash := v], index[v.trx.hash := v.hash],
                   W[v.hash := v], added[v.trx.hash := v.hash])
  {
    hide Enumerates, Indexed, DistinctTrx, Distinct;
    var v := stream[i];
    if v.trx.hash in added {
      RepeatedTrx(stream, i, W, added);
    } else if v.hash in W {
      RepeatedHash(stream, i, W);
    } else {
      OneMore(stream, i, W);
      IndexedAdd(added, W, v);
    }
  }

  lemma LoadingDone(known: map<Hash, Vertex>, indexed: map<Hash, Hash>, stream: seq<Vertex>,
                    V: map<Hash, Vertex>, index: map<Hash, Hash>, W: map<Hash, Vertex>, added: map<Hash, Hash>)
    requires Loading(known, indexed, stream, |stream|, V, index, W, added)
    ensures Arriving(known, indexed, stream)
    ensures V == known + W && index == indexed + added && Enumerates(stream, W) && Indexed(added, W)
  {
    hide Indexed, DistinctTrx;
    assert stream[..|stream|] == stream;
    IndexedDistinct(stream, W, added);
  }

  ghost predicate DistinctTrx(stream: seq<Vertex>) {
    forall i, j :: 0 <= i < j < |stream| ==> stream[i].trx.hash != stream[j].trx.hash
  }

  lemma NothingIndexed()
    ensures Indexed(map[], map[]) && Enumerates([], map[])
  {
    assert Elems<Hash>([]) == {};
  }

  lemma OneMore(stream: seq<Vertex>, i: nat, V: map<Hash, Vertex>)
    requires i < |stream| && Enumerates(stream[..i], V) && stream[i].hash !in V
    ensures Enumerates(stream[..i + 1], V[stream[i].hash := stream[i]])
  {
    var s, v := stream[..i], stream[i];
    assert stream[..i + 1] == s + [v];
    assert Hashes(s + [v]) == Hashes(s) + [v.hash];
    ElemsSnoc(Hashes(s), v.hash);
    forall k | 0 <= k < |s|
      ensures Hashes(s)[k] != v.hash
    {
      assert s[k].hash in V;
    }
  }

  lemma RepeatedHash(stream: seq<Vertex>, i: nat, V: map<Hash, Vertex>)
    requires i < |stream| && Enumerates(stream[..i], V) && stream[i].hash in V
    ensures !Distinct(Hashes(stream))
  {
    var h := stream[i].hash;
    assert h in Elems(Hashes(stream[..i]));
    var k :| 0 <= k < i && Hashes(stream[..i])[k] == h;
    assert Hashes(stream)[k] == Hashes(stream)[i];
  }

  lemma RepeatedTrx(stream: seq<Vertex>, i: nat, V: map<Hash, Vertex>, index: map<Hash, Hash>)
    requires i < |stream| && Enumerates(stream[..i], V) && Indexed(index, V) && stream[i].trx.hash in index
    ensures !DistinctTrx(stream)
  {
    var h := index[stream[i].trx.hash];
    assert h in Elems(Hashes(stream[..i]));
    var k :| 0 <= k < i && Hashes(stream[..i])[k] == h;
    assert stream[k] == stream[..i][k] == V[h];
    assert stream[k].trx.hash == stream[i].trx.hash;
  }

  lemma IndexedDistinct(stream: seq<Vertex>, V: map<Hash, Vertex>, index: map<Hash, Hash>)
    requires Enumerates(stream, V) && Indexed(index, V)
    ensures DistinctTrx(stream)
  {
    forall i, j | 0 <= i < j < |stream|
      ensures stream[i].trx.hash != stream[j].trx.hash
    {
      assert Hashes(stream)[i] != Hashes(stream)[j];
      assert stream[i].hash in V && stream[j].hash in V;
    }
  }

  // ---- loading: the edges ----

  /** The edges `LoadDag` adds for a vertex: none when its left parent is the zero hash. */
  function EdgesOf(v: Vertex): set<Edge> {
    if v.left == NO_HASH then {} else {(v.left, v.hash), (v.right, v.hash)}
  }

  ghost function LoadedEdges(V: map<Hash, Vertex>): set<Edge> {
    set c, p | c in V && V[c].left != NO_HASH && p in {V[c].left, V[c].right} :: (p, c)
  }

  lemma LoadedEdge(V: map<Hash, Vertex>, e: Edge)
    ensures e in LoadedEdges(V) <==> e.1 in V && V[e.1].left != NO_HASH && IsParent(e.0, V[e.1])
  {
    if e.1 in V && V[e.1].left != NO_HASH && IsParent(e.0, V[e.1]) {
      var c, p := e.1, e.0;
      assert c in V && V[c].left != NO_HASH && p in {V[c].left, V[c].right} && e == (p, c);
    }
  }

  /** Issued by the node that signed it, as only the genesis vertex is. */
  predicate GenesisCandidate(v: Vertex) {
    v.trx.issuer == v.signer
  }

  /** What `LoadDag` checks of the vertices it received. */
  ghost predicate Loadable(V: map<Hash, Vertex>) {
    && (forall h :: h in V ==> !IsEmpty(V[h].trx))
    && (forall h, k :: h in V && k in V && GenesisCandidate(V[h]) && GenesisCandidate(V[k]) ==> h == k)
    && (forall h :: h in V && V[h].left != NO_HASH ==> V[h].left in V && V[h].right in V)
    && Acyclic(LoadedEdges(V))
  }

  /**
   By the fields: data or spice in every vertex, at most one issued by its signer, both parents known where
   there is a left one, and no circle.
   */
  lemma LoadableMeans(V: map<Hash, Vertex>)
    ensures Loadable(V) <==>
      && (forall h :: h in V ==> V[h].trx.contract || Val(V[h].trx.spice) > 0)
      && (forall h, k ::
           h in V && k in V && V[h].trx.issuer == V[h].signer && V[k].trx.issuer == V[k].signer ==> h == k)
      && (forall h :: h in V && V[h].left != NO_HASH ==> V[h].left in V && V[h].right in V)
      && Acyclic(LoadedEdges(V))
  {
    hide Acyclic, LoadedEdges, IsEmpty, Val;
    forall h | h in V
      ensures IsEmpty(V[h].trx) <==> !V[h].trx.contract && Val(V[h].trx.spice) == 0
    {
      EmptyMeans(V[h].trx);
    }
  }

  /**
   The edges into one vertex, refused when one is known, a parent is missing or a cycle would close; the first
   edge stays when the second is refused.
   */
  method Connect(g: Graph, v: Vertex) returns (ok: bool, now: Graph)
    requires v.hash in g.vertices && Acyclic(g.edges)
    ensures ok <==>
      && EdgesOf(v) !! g.edges
      && (v.left != NO_HASH ==> v.left in g.vertices && v.right in g.vertices) && Acyclic(g.edges + EdgesOf(v))
    ensures ok ==> now == g.(edges := g.edges + EdgesOf(v))
    ensures now.vertices == g.vertices && g.edges <= now.edges <= g.edges + EdgesOf(v) && Acyclic(now.edges)
  {
    hide Acyclic, Ancestors;
    now := g;
    if v.left == NO_HASH {
      assert g.edges + {} == g.edges;
      return true, g;
    }
    EdgeKeepsAcyclic(g.edges, v.left, v.hash);
    var first := AddEdge(g, v.left, v.hash);
    if first.None? {
      ConnectFails(g.edges, {(v.left, v.hash)}, EdgesOf(v));
      return false, g;
    }
    if v.right == v.left {
      assert EdgesOf(v) == {(v.left, v.hash)};
      return true, first.value;
    }
    EdgeKeepsAcyclic(first.value.edges, v.right, v.hash);
    var second := AddEdge(first.value, v.right, v.hash);
    assert g.edges + EdgesOf(v) == first.value.edges + {(v.right, v.hash)};
    if second.None? {
      return false, first.value;
    }
    return true, second.value;
  }

  lemma ConnectFails(E: set<Edge>, S: set<Edge>, T: set<Edge>)
    requires S <= T
    ensures Acyclic(E + T) ==> Acyclic(E + S)
  {
    hide Acyclic;
    if Acyclic(E + T) { FewerEdgesAcyclic(E + S, E + T); }
  }

  /** The edges there were, all into vertices of `rest`, and the edges into the other vertices. */
  ghost predicate EdgesDone(V: map<Hash, Vertex>, rest: set<Hash>, before: set<Edge>, E: set<Edge>) {
    && (forall e :: e in before ==> e in LoadedEdges(V) && e.1 in rest)
    && (forall e :: e in E <==> e in before || (e in LoadedEdges(V) && e.1 !in rest))
  }

  ghost predicate ChecksDone(V: map<Hash, Vertex>, rest: set<Hash>, candidate: bool) {
    && (forall h :: h in V && h !in rest ==> !IsEmpty(V[h].trx))
    && (candidate <==> exists h :: h in V && h !in rest && GenesisCandidate(V[h]))
    && (forall h, k :: h in V && k in V && h !in rest && k !in rest && GenesisCandidate(V[h]) && GenesisCandidate(V[k])
          ==> h == k)
    && (forall h :: h in V && h !in rest && V[h].left != NO_HASH ==> V[h].left in V && V[h].right in V)
  }

  lemma EdgesDoneNext(V: map<Hash, Vertex>, rest: set<Hash>, before: set<Edge>, E: set<Edge>, h: Hash)
    requires EdgesDone(V, rest, before, E) && h in rest && h in V && V[h].hash == h
    ensures E + EdgesOf(V[h]) <= LoadedEdges(V)
    ensures EdgesOf(V[h]) !! E ==> EdgesDone(V, rest - {h}, before, E + EdgesOf(V[h]))
    ensures before == {} ==> EdgesOf(V[h]) !! E
  {
    hide LoadedEdges;
    forall e: Edge
      ensures e in LoadedEdges(V) <==> e.1 in V && V[e.1].left != NO_HASH && IsParent(e.0, V[e.1])
    {
      LoadedEdge(V, e);
    }
  }

  lemma ChecksNext(V: map<Hash, Vertex>, rest: set<Hash>, candidate: bool, h: Hash)
    requires ChecksDone(V, rest, candidate) && h in rest && h in V
    requires !IsEmpty(V[h].trx) && !(candidate && GenesisCandidate(V[h]))
    requires V[h].left != NO_HASH ==> V[h].left in V && V[h].right in V
    ensures ChecksDone(V, rest - {h}, candidate || GenesisCandidate(V[h]))
  {
    hide IsEmpty, GenesisCandidate;
  }

  lemma TwoCandidates(V: map<Hash, Vertex>, rest: set<Hash>, h: Hash)
    requires ChecksDone(V, rest, true) && h in rest && h in V && GenesisCandidate(V[h])
    ensures !Loadable(V)
  {
    hide IsEmpty, GenesisCandidate, Acyclic, LoadedEdges;
  }

  lemma CannotConnect(V: map<Hash, Vertex>, E: set<Edge>, h: Hash)
    requires h in V && E <= LoadedEdges(V)
    requires !Acyclic(E) || (V[h].left != NO_HASH && (V[h].left !in V || V[h].right !in V))
    ensures !Loadable(V)
  {
    hide Acyclic, LoadedEdges;
    if Acyclic(LoadedEdges(V)) { FewerEdgesAcyclic(E, LoadedEdges(V)); }
  }

  /**
   The second loop of `LoadDag`, over the vertices in any order: succeeds exactly on loadable vertices between
   which there is no edge yet.
   */
  method LoadEdges(g: Graph) returns (ok: bool, now: Graph)
    requires Extends(g.vertices, g.vertices) && Acyclic(g.edges) && g.edges <= LoadedEdges(g.vertices)
    ensures ok <==> g.edges == {} && Loadable(g.vertices)
    ensures ok ==> now.edges == LoadedEdges(g.vertices)
    ensures now.vertices == g.vertices && Acyclic(now.edges) && g.edges <= now.edges <= LoadedEdges(g.vertices)
  {
    hide Acyclic, LoadedEdges, IsEmpty, GenesisCandidate, EdgesDone, ChecksDone, EdgesOf;
    now := g;
    var V := g.vertices;
    var rest, candidate := V.Keys, false;
    LoadStart(V, g.edges);
    while rest != {}
      invariant rest <= V.Keys && now.vertices == V && Acyclic(now.edges) && g.edges <= now.edges <= LoadedEdges(V)
      invariant EdgesDone(V, rest, g.edges, now.edges) && ChecksDone(V, rest, candidate)
      decreases |rest|
    {
      var h :| h in rest;
      var vrx := V[h];
      if GenesisCandidate(vrx) && candidate {
        TwoCandidates(V, rest, h);
        return false, now;
      }
      if IsEmpty(vrx.trx) {
        return false, now;
      }
      EdgesDoneNext(V, rest, g.edges, now.edges, h);
      ghost var E := now.edges;
      var done;
      done, now := Connect(now, vrx);
      if !done {
        if g.edges == {} { CannotConnect(V, E + EdgesOf(vrx), h); }
        return false, now;
      }
      ChecksNext(V, rest, candidate, h);
      rest, candidate := rest - {h}, candidate || GenesisCandidate(vrx);
    }
    LoadEnd(V, g.edges, now.edges, candidate);
    return true, now;
  }

  lemma LoadStart(V: map<Hash, Vertex>, E: set<Edge>)
    requires E <= LoadedEdges(V)
    ensures EdgesDone(V, V.Keys, E, E) && ChecksDone(V, V.Keys, false)
  {
    hide LoadedEdges;
    forall e: Edge
      ensures e in LoadedEdges(V) ==> e.1 in V
    {
      LoadedEdge(V, e);
    }
  }

  lemma LoadEnd(V: map<Hash, Vertex>, before: set<Edge>, E: set<Edge>, candidate: bool)
    requires EdgesDone(V, {}, before, E) && ChecksDone(V, {}, candidate) && Acyclic(E)
    ensures before == {} && E == LoadedEdges(V) && Loadable(V)
  {
    hide Acyclic, LoadedEdges, IsEmpty, GenesisCandidate;
    assert E == LoadedEdges(V);
  }

  lemma MoreEdges(V: map<Hash, Vertex>, W: map<Hash, Vertex>)
    requires Extends(V, W)
    ensures LoadedEdges(V) <= LoadedEdges(W)
  {
    hide LoadedEdges;
    forall e | e in LoadedEdges(V)
      ensures e in LoadedEdges(W)
    {
      LoadedEdge(V, e);
      LoadedEdge(W, e);
    }
  }

  // ---- loading: the book ----

  lemma {:induction false} AboveEverything(g: Graph, h: Hash) returns (root: Hash)
    requires h in g.vertices && Acyclic(g.edges) && Sources(g.edges) <= g.vertices.Keys
    ensures IsRoot(g, root)
    decreases |Ancestors(g.edges, h)|
  {
    hide Ancestors;
    if IsRoot(g, h) {
      root := h;
    } else {
      var p :| p in Parents(g.edges, {h});
      var e :| e in g.edges && e.1 == h && e.0 == p;
      EdgeGivesAncestor(g.edges, p, h);
      assert Ancestors(g.edges, p) <= Ancestors(g.edges, h) - {p};
      SubsetSize(Ancestors(g.edges, p), Ancestors(g.edges, h) - {p});
      root := AboveEverything(g, p);
    }
  }

  lemma LoadedSources(V: map<Hash, Vertex>)
    requires Loadable(V)
    ensures Sources(LoadedEdges(V)) <= V.Keys
  {
    hide Acyclic, IsEmpty, GenesisCandidate, LoadedEdges;
    forall e | e in LoadedEdges(V)
      ensures e.0 in V
    {
      LoadedEdge(V, e);
    }
  }

  /** The roots the last part of `LoadDag` chooses from: some, unless nothing was received. */
  lemma LoadedHasRoot(V: map<Hash, Vertex>)
    requires Loadable(V) && V != map[]
    ensures exists r :: IsRoot(Graph(V, LoadedEdges(V)), r)
  {
    hide Acyclic, LoadedEdges;
    LoadedSources(V);
    var h :| h in V;
    var r := AboveEverything(Graph(V, LoadedEdges(V)), h);
  }

  /** A book that is not loaded: fresh, or what failed loads left behind. */
  ghost predicate Unloaded(b: Book) {
    && !b.loaded && Extends(b.graph.vertices, b.graph.vertices)
    && Acyclic(b.graph.edges) && b.graph.edges <= LoadedEdges(b.graph.vertices)
  }

  ghost predicate RootIssuer(g: Graph, a: Address) {
    exists r :: IsRoot(g, r) && g.vertices[r].trx.issuer == a
  }

  /** What the stream added, `W` with index entries `added`, to the book `was`. */
  ghost predicate Added(was: Book, stream: seq<Vertex>, b: Book, W: map<Hash, Vertex>, added: map<Hash, Hash>) {
    && Arriving(was.graph.vertices, was.index, stream)
    && Enumerates(stream, W) && Indexed(added, W)
    && b.graph.vertices == was.graph.vertices + W && b.index == was.index + added
  }

  /** The book `LoadDag` ends with when it succeeds with `stream` on the book `was`. */
  ghost predicate LoadedFrom(was: Book, stream: seq<Vertex>, b: Book) {
    && (exists W, added :: Added(was, stream, b, W, added))
    && was.graph.edges == {} && Loadable(b.graph.vertices) && b.graph.edges == LoadedEdges(b.graph.vertices)
    && b.stored == was.stored && b.funds == was.funds && b.loaded
    && RootIssuer(b.graph, b.genesis)
  }

  /** The same on a fresh book. */
  ghost predicate LoadedBook(stream: seq<Vertex>, b: Book) {
    var V := b.graph.vertices;
    && Enumerates(stream, V) && Loadable(V)
    && b.graph.edges == LoadedEdges(V) && Indexed(b.index, V)
    && b.stored == map[] && b.funds == map[] && b.loaded
    && RootIssuer(b.graph, b.genesis)
  }

  lemma EnumeratesOne(stream: seq<Vertex>, V: map<Hash, Vertex>, W: map<Hash, Vertex>)
    requires Enumerates(stream, V) && Enumerates(stream, W)
    ensures V == W
  {
    forall h | h in V
      ensures h in W && V[h] == W[h]
    {
      assert h in Elems(Hashes(stream));
      var i :| 0 <= i < |stream| && Hashes(stream)[i] == h;
      assert stream[i].hash == h;
    }
    assert V.Keys == W.Keys;
  }

  lemma IndexOne(index: map<Hash, Hash>, other: map<Hash, Hash>, V: map<Hash, Vertex>)
    requires Indexed(index, V) && Indexed(other, V)
    ensures index == other
  {
    forall t | t in index
      ensures t in other && other[t] == index[t]
    {
    }
    forall t | t in other
      ensures t in index
    {
    }
  }

  /** No vertex and no transaction repeats, there is at least one vertex, and the vertices can be loaded. */
  ghost predicate CanLoad(stream: seq<Vertex>) {
    exists V :: Enumerates(stream, V) && DistinctTrx(stream) && Loadable(V) && V != map[]
  }

  /** Nor is any known already, and no failed load left an edge. */
  ghost predicate CanLoadInto(b: Book, stream: seq<Vertex>) {
    && b.graph.edges == {} && Arriving(b.graph.vertices, b.index, stream)
    && exists W :: Enumerates(stream, W) && Loadable(b.graph.vertices + W) && b.graph.vertices + W != map[]
  }

  /**
   What a failed load leaves: the vertices and index entries up to the one refused, or all of them and the edges
   made until one was; storage, funds and the genesis address as they were.
   */
  ghost predicate LeftBehind(was: Book, stream: seq<Vertex>, b: Book) {
    && b.stored == was.stored && b.funds == was.funds && b.genesis == was.genesis
    && (|| (b.graph.edges == was.graph.edges && exists n, W, added ::
             Stopped(was.graph.vertices, was.index, stream, n, b.graph.vertices, b.index, W, added))
        || (was.graph.edges <= b.graph.edges && exists W, added :: Added(was, stream, b, W, added)))
  }

  /** `LoadDag` on a book that is not loaded: what a failure leaves behind is not loaded either. */
  method Load(was: Book, stream: seq<Vertex>) returns (ok: bool, b: Book)
    requires Unloaded(was)
    ensures ok ==> LoadedFrom(was, stream, b)
    ensures !ok ==> Unloaded(b) && LeftBehind(was, stream, b)
    ensures ok <==> CanLoadInto(was, stream)
  {
    hide Enumerates, Loadable, Indexed, LoadedEdges, Arriving, IsRoot, Acyclic, Stopped;
    var V, index, g;
    ghost var W, added;
    ghost var n;
    ok, V, index, W, added, n := LoadVertices(was.graph.vertices, was.index, stream);
    MoreEdges(was.graph.vertices, V);
    EnumeratedAlike(stream, W);
    b := was.(graph := was.graph.(vertices := V), index := index);
    if !ok {
      assert Stopped(was.graph.vertices, was.index, stream, n, b.graph.vertices, b.index, W, added);
      return;
    }
    assert Added(was, stream, b, W, added);
    ok, g := LoadEdges(b.graph);
    b := b.(graph := g);
    assert Added(was, stream, b, W, added);
    if !ok {
      return;
    }
    var roots := set h | h in V && IsRoot(g, h);
    SomeRoot(V, g, roots);
    if roots == {} {
      ok := false;
      return;
    }
    var root :| root in roots;
    b := b.(genesis := V[root].trx.issuer, loaded := true);
    assert IsRoot(b.graph, root);
    assert Added(was, stream, b, W, added);
  }

  /** On a fresh book. */
  lemma LoadedFresh(stream: seq<Vertex>, b: Book)
    ensures Unloaded(FRESH)
    ensures LoadedFrom(FRESH, stream, b) <==> LoadedBook(stream, b)
    ensures CanLoadInto(FRESH, stream) <==> CanLoad(stream)
  {
    hide Enumerates, Loadable, Indexed, LoadedEdges, IsRoot, DistinctTrx, Distinct, RootIssuer, Acyclic;
    FreshInv();
    EnumeratedAlike(stream, b.graph.vertices);
    EnumeratesDistinct(stream);
    forall W: map<Hash, Vertex>
      ensures FRESH.graph.vertices + W == W
    {
    }
    if LoadedFrom(FRESH, stream, b) {
      var W, added :| Added(FRESH, stream, b, W, added);
      assert FRESH.index + added == added;
    }
    if LoadedBook(stream, b) {
      IndexedDistinct(stream, b.graph.vertices, b.index);
      assert FRESH.index + b.index == b.index;
      assert Added(FRESH, stream, b, b.graph.vertices, b.index);
    }
  }

  lemma EnumeratesDistinct(stream: seq<Vertex>)
    ensures forall W :: Enumerates(stream, W) ==> Distinct(Hashes(stream))
  {
  }

  /** All roots name one issuer. */
  ghost predicate OneIssuer(g: Graph) {
    forall r, q :: IsRoot(g, r) && IsRoot(g, q) ==> g.vertices[r].trx.issuer == g.vertices[q].trx.issuer
  }

  /** The stream determines the loaded book, the genesis address included, exactly when all roots name one issuer. */
  lemma LoadedOnce(stream: seq<Vertex>, b: Book)
    requires LoadedBook(stream, b)
    ensures (forall c :: LoadedBook(stream, c) ==> c == b) <==> OneIssuer(b.graph)
  {
    hide LoadedBook;
    if OneIssuer(b.graph) {
      forall c | LoadedBook(stream, c)
        ensures c == b
      {
        SameIssuerSameBook(stream, b, c);
      }
    } else {
      var r, q :| IsRoot(b.graph, r) && IsRoot(b.graph, q)
                  && b.graph.vertices[r].trx.issuer != b.graph.vertices[q].trx.issuer;
      OtherRoot(stream, b, r);
      OtherRoot(stream, b, q);
    }
  }

  lemma SameIssuerSameBook(stream: seq<Vertex>, b: Book, c: Book)
    requires LoadedBook(stream, b) && LoadedBook(stream, c) && OneIssuer(b.graph)
    ensures c == b
  {
    hide Enumerates, Loadable, Indexed, LoadedEdges, IsRoot;
    EnumeratesOne(stream, b.graph.vertices, c.graph.vertices);
    IndexOne(b.index, c.index, b.graph.vertices);
  }

  /** Any root can give the genesis address. */
  lemma OtherRoot(stream: seq<Vertex>, b: Book, r: Hash)
    requires LoadedBook(stream, b) && IsRoot(b.graph, r)
    ensures LoadedBook(stream, b.(genesis := b.graph.vertices[r].trx.issuer))
  {
    hide Enumerates, Loadable, Indexed, LoadedEdges;
  }

  lemma SomeRoot(V: map<Hash, Vertex>, g: Graph, roots: set<Hash>)
    requires Loadable(V) && g == Graph(V, LoadedEdges(V)) && roots == set h | h in V && IsRoot(g, h)
    ensures roots == {} <==> V == map[]
  {
    hide Loadable, LoadedEdges;
    if V != map[] {
      LoadedHasRoot(V);
      var r :| IsRoot(g, r);
      assert r in roots;
    }
  }

  lemma EnumeratedAlike(stream: seq<Vertex>, V: map<Hash, Vertex>)
    ensures Enumerates(stream, V) ==> forall W :: Enumerates(stream, W) ==> W == V
    ensures forall W :: Enumerates(stream, W) ==> Distinct(Hashes(stream))
  {
    forall W | Enumerates(stream, V) && Enumerates(stream, W)
      ensures W == V
    {
      EnumeratesOne(stream, V, W);
    }
  }

  // ---- a grown book survives the copy ----

  lemma RootedEdges(b: Book, g: Vertex)
    requires Inv(b) && Rooted(b, g)
    ensures LoadedEdges(b.graph.vertices) == b.graph.edges
    ensures forall h :: h in b.graph.vertices && b.graph.vertices[h].left != NO_HASH ==>
      b.graph.vertices[h].left in b.graph.vertices && b.graph.vertices[h].right in b.graph.vertices
  {
    hide Ancestors, Acyclic, Indexed, LoadedEdges, IsEmpty;
    forall e: Edge
      ensures e in LoadedEdges(b.graph.vertices) <==> e in b.graph.edges
    {
      LoadedEdge(b.graph.vertices, e);
    }
  }

  lemma RootedRoot(b: Book, g: Vertex, r: Hash)
    requires Inv(b) && Rooted(b, g) && b.graph.vertices != map[]
    ensures IsRoot(b.graph, r) <==> r == g.hash
  {
    hide Ancestors, Acyclic, Indexed, IsEmpty;
    if r in b.graph.vertices && r != g.hash {
      var v := b.graph.vertices[r];
      assert v.hash == r;
      assert (v.left, r) in b.graph.edges by {
        RootedEdges(b, g);
        LoadedEdge(b.graph.vertices, (v.left, r));
      }
      var e := (v.left, r);
      assert e.0 in Parents(b.graph.edges, {r});
    }
  }

  /** The vertices of a grown book can be loaded exactly when the genesis transaction is not empty. */
  lemma RootedLoadable(b: Book, g: Vertex)
    requires Inv(b) && Rooted(b, g) && b.graph.vertices != map[]
    ensures Loadable(b.graph.vertices) <==> !IsEmpty(g.trx)
  {
    hide Ancestors, Indexed, LoadedEdges, IsEmpty, EdgesMatch, ParentsHeld, Keyed;
    RootedEdges(b, g);
  }

  /** Streamed in any order and loaded by a fresh node, a grown book arrives unchanged, field by field. */
  lemma ReloadRebuilds(b: Book, g: Vertex, stream: seq<Vertex>, c: Book)
    requires Inv(b) && Rooted(b, g) && b.graph.vertices != map[]
    requires Enumerates(stream, b.graph.vertices) && LoadedBook(stream, c)
    ensures c == b
  {
    hide Inv, Rooted, Enumerates, Loadable, Indexed, LoadedEdges;
    EnumeratesOne(stream, b.graph.vertices, c.graph.vertices);
    RootedEdges(b, g);
    SameIndex(b, g, c.index);
    var r :| IsRoot(c.graph, r) && c.graph.vertices[r].trx.issuer == c.genesis;
    assert c.graph == b.graph;
    RootedRoot(b, g, r);
    RootedFields(b, g);
  }

  /** So does the book at the end of every run that grows one from a genesis vertex. */
  lemma RunReloads(g: Vertex, steps: seq<Step>, stream: seq<Vertex>, c: Book)
    requires Unknown(FRESH, g) && GenesisVertex(g)
    requires Legal(WithGenesis(FRESH, g), steps) && Grows(steps)
    requires Run(WithGenesis(FRESH, g), steps).graph.vertices != map[]
    requires Enumerates(stream, Run(WithGenesis(FRESH, g), steps).graph.vertices)
    ensures CanLoad(stream) <==> !IsEmpty(g.trx)
    ensures LoadedBook(stream, c) ==> c == Run(WithGenesis(FRESH, g), steps)
  {
    hide Inv, Rooted, Run, Enumerates, Loadable, LoadedBook, DistinctTrx;
    FreshInv();
    GenesisKeepsInv(FRESH, g);
    GenesisIsRooted(g);
    GrowthKeepsRooted(WithGenesis(FRESH, g), g, steps);
    var b := Run(WithGenesis(FRESH, g), steps);
    RootedFields(b, g);
    GrownStreamDistinct(b, stream);
    RootedLoadable(b, g);
    EnumeratedAlike(stream, b.graph.vertices);
    if LoadedBook(stream, c) { ReloadRebuilds(b, g, stream, c); }
  }

  lemma SameIndex(b: Book, g: Vertex, index: map<Hash, Hash>)
    requires Inv(b) && Rooted(b, g) && Indexed(index, b.graph.vertices)
    ensures index == b.index
  {
    hide Acyclic, EdgesMatch, ParentsHeld, Keyed, Descends, Indexed;
    assert Held(b) == b.graph.vertices;
    IndexOne(index, b.index, b.graph.vertices);
  }

  lemma RootedFields(b: Book, g: Vertex)
    requires Rooted(b, g)
    ensures b.stored == map[] && b.funds == map[] && b.loaded && b.genesis == g.trx.issuer
    ensures b.graph.vertices != map[] ==> g.hash in b.graph.vertices && b.graph.vertices[g.hash] == g
  {
  }

  lemma GrownStreamDistinct(b: Book, stream: seq<Vertex>)
    requires Inv(b) && b.stored == map[] && Enumerates(stream, b.graph.vertices)
    ensures DistinctTrx(stream)
  {
    hide Acyclic, EdgesMatch, ParentsHeld, Keyed;
    assert Held(b) == b.graph.vertices;
    IndexedDistinct(stream, b.graph.vertices, b.index);
  }

  /**
   A loaded book satisfies the invariant exactly when no vertex in it names a right parent but the zero hash
   as its left one, for which the edges and the parent check are skipped, and what earlier failed loads left
   in the index fits the vertices they left.
   */
  lemma LoadedInv(was: Book, stream: seq<Vertex>, b: Book)
    requires LoadedFrom(was, stream, b) && Keyed(b.graph.vertices) && was.stored == map[]
    ensures Inv(b) <==> NoHalfParents(b.graph.vertices) && Indexed(was.index, was.graph.vertices)
  {
    hide Acyclic, Indexed, LoadedEdges, IsEmpty, GenesisCandidate, Added, RootIssuer, NoHalfParents, EdgesMatch;
    hide ParentsHeld;
    assert Held(b) == b.graph.vertices;
    var W, added :| Added(was, stream, b, W, added);
    IndexLeftBehind(was, stream, b, W, added);
    HalfParents(b);
  }

  lemma IndexLeftBehind(was: Book, stream: seq<Vertex>, b: Book, W: map<Hash, Vertex>, added: map<Hash, Hash>)
    requires Added(was, stream, b, W, added)
    ensures Indexed(b.index, b.graph.vertices) <==> Indexed(was.index, was.graph.vertices)
  {
    var V, ix := was.graph.vertices, was.index;
    forall h | h in W
      ensures h !in V && W[h].trx.hash !in ix
    {
      assert h in Elems(Hashes(stream));
      var i :| 0 <= i < |stream| && Hashes(stream)[i] == h;
      assert stream[i].hash == h && W[h] == stream[i];
    }
    forall t | t in added
      ensures t !in ix
    {
    }
  }

  lemma HalfParents(b: Book)
    requires Loadable(b.graph.vertices) && b.graph.edges == LoadedEdges(b.graph.vertices) && b.stored == map[]
    requires Keyed(b.graph.vertices)
    ensures EdgesMatch(b.graph) && ParentsHeld(b) <==> NoHalfParents(b.graph.vertices)
  {
    hide Acyclic, LoadedEdges, IsEmpty, GenesisCandidate;
    var V := b.graph.vertices;
    assert Held(b) == V;
    LoadedSources(V);
    forall e: Edge
      ensures e in b.graph.edges <==> e.1 in V && V[e.1].left != NO_HASH && IsParent(e.0, V[e.1])
    {
      LoadedEdge(V, e);
    }
    if h :| h in V && V[h].left == NO_HASH && V[h].right != NO_HASH {
      var p := V[h].right;
      assert IsParent(p, V[h]);
      if p in V { assert (p, h) !in b.graph.edges; }
    }
  }

  ghost predicate NoHalfParents(V: map<Hash, Vertex>) {
    forall h :: h in V && V[h].left == NO_HASH ==> V[h].right == NO_HASH
  }
}
