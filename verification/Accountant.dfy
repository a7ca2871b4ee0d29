/**
 The accounting book (accountant.go, storage.go): a record whose operations hold the lock from
 start to end, so each call is one atomic change. Every operation that changes the book returns,
 for the proofs only, the steps of `Ledger` it took, and is proved to have done exactly those.
 */
module Accountant {
  import opened Dag
  import opened Basics
  import opened Spice
  import opened Sums
  import opened Ledger
  import opened Supply
  import opened Audit
  import opened Truncation
  import opened Precalculate
  import opened Solvency
  import opened Sync

  const INITIAL_THROUGHPUT: nat := 50
  const TRUNCATE_DIFF: nat := 1000
  const MIN_ADDRESS_LENGTH: nat := 49
  const MAX_MEMORIES: nat := 500
  const MAX_REPEATS: nat := 25

  /** A vertex that waits for its parents. */
  datatype Memory = Memory(vrx: Vertex, repeated: nat)

  datatype Error =
    | Nil
    | ErrDagIsLoaded | ErrDagIsNotLoaded | ErrTrxIsEmpty | ErrCannotTransferFoundsViaOwnedNode
    | ErrCannotTransferFoundsFromGenesisWallet | ErrTrxInVertexAlreadyExists | ErrLeafAlreadyExists
    | ErrLeafRejected | ErrNewLeafRejected | ErrParentDoesNotExists | ErrGenesisRejected | ErrUnexpected
    /** `CreateLeaf` reads the hash of a leaf that is nil. */
    | NilLeaf

  // ---- runs of steps ----

  lemma {:induction false} RunConcat(b: Book, s: seq<Step>, t: seq<Step>)
    requires Legal(b, s) && Legal(Run(b, s), t)
    ensures Legal(b, s + t) && Run(b, s + t) == Run(Run(b, s), t)
    decreases |s|
  {
    hide Enabled, After;
    if s == [] {
      assert s + t == t;
    } else {
      RunConcat(After(b, s[0]), s[1..], t);
      assert (s + t)[1..] == s[1..] + t;
    }
  }

  lemma OneStep(b: Book, s: Step)
    requires Enabled(b, s)
    ensures Legal(b, [s]) && Run(b, [s]) == After(b, s)
  {
    hide Enabled, After;
    assert [s][1..] == [];
    assert Legal(After(b, s), [s][1..]);
  }

  /** `now` came from `was` by `steps`. */
  ghost predicate Took(was: Book, steps: seq<Step>, now: Book) {
    Legal(was, steps) && Run(was, steps) == now
  }

  lemma TookMore(a: Book, s: seq<Step>, b: Book, t: seq<Step>, c: Book)
    requires Took(a, s, b) && Took(b, t, c)
    ensures Took(a, s + t, c)
  {
    hide Legal, Run;
    RunConcat(a, s, t);
  }

  lemma TookOne(b: Book, s: Step)
    requires Enabled(b, s)
    ensures Took(b, [s], After(b, s))
  {
    hide Enabled, After, Legal, Run;
    OneStep(b, s);
  }

  ghost predicate OnlyDrops(steps: seq<Step>) {
    forall i :: 0 <= i < |steps| ==> steps[i].Drop?
  }

  /** Leaves were dropped and nothing else happened. */
  ghost predicate Pruned(was: Book, steps: seq<Step>, now: Book) {
    && Took(was, steps, now) && OnlyDrops(steps)
    && now.loaded == was.loaded && now.genesis == was.genesis && now.stored == was.stored && now.funds == was.funds
    && now.index.Keys <= was.index.Keys && now.graph.vertices.Keys <= was.graph.vertices.Keys
  }

  lemma PrunedNone(b: Book)
    ensures Pruned(b, [], b)
  {
  }

  lemma PrunedMore(was: Book, s: seq<Step>, now: Book, h: Hash)
    requires Pruned(was, s, now) && IsLeaf(now.graph, h)
    requires Took(now, [Drop(h)], DropLeaf(now, h))
    ensures Pruned(was, s + [Drop(h)], DropLeaf(now, h))
  {
    hide Took;
    TookMore(was, s, now, [Drop(h)], DropLeaf(now, h));
  }

  // ---- the library's refusals ----

  /** Refusals of the graph library for reasons of its own, of a vertex or of an edge into it. */
  type Refusals = (Graph, Hash) -> bool

  ghost predicate Reliable(refuses: Refusals) {
    forall g, h :: !refuses(g, h)
  }

  function TryAddVertex(refuses: Refusals, g: Graph, v: Vertex): Option<Graph> {
    if refuses(g, v.hash) then None else AddVertexByID(g, v)
  }

  function TryAddEdge(refuses: Refusals, g: Graph, src: Hash, dst: Hash): Option<Graph> {
    if refuses(g, dst) then None else AddEdge(g, src, dst)
  }

  /** An edge from a known vertex to a new one is never refused by the library's own rules. */
  lemma EdgeIsFree(b: Book, v: Vertex, src: Hash, E: set<Edge>)
    requires Inv(b) && Unknown(b, v) && src in b.graph.vertices && (src, v.hash) !in E
    requires forall e :: e in E ==> e.0 in b.graph.vertices && e.1 == v.hash
    ensures AddEdge(Graph(b.graph.vertices[v.hash := v], b.graph.edges + E), src, v.hash).Some?
  {
    hide Acyclic, ParentsHeld, Indexed, Ancestors;
    UnknownHasNoChildren(b, v, src);
    AncestorsLeast(b.graph.edges + E, src, {});
  }

  lemma AddedEdge(g: Graph, src: Hash, dst: Hash)
    ensures AddEdge(g, src, dst).Some? ==> AddEdge(g, src, dst).value == g.(edges := g.edges + {(src, dst)})
  {
  }

  lemma LeafStays(b: Book, k: Hash, h: Hash)
    requires IsLeaf(b.graph, k) && IsLeaf(b.graph, h) && h != k
    ensures IsLeaf(DropLeaf(b, k).graph, h)
  {
  }

  /** Deleting the vertex just inserted, with whatever edges it got, gives the graph back. */
  lemma Rollback(g: Graph, v: Vertex, E: set<Edge>)
    requires EdgesMatch(g) && v.hash !in g.vertices
    requires forall e :: e in E ==> e.1 == v.hash
    ensures DeleteVertex(Graph(g.vertices[v.hash := v], g.edges + E), v.hash) == g
  {
    assert g.vertices[v.hash := v] - {v.hash} == g.vertices;
  }

  ghost predicate InGraph(g: Graph, v: Vertex) {
    v.hash in g.vertices && g.vertices[v.hash] == v
  }

  function Max(x: nat, y: nat): (m: nat)
    ensures m >= x && m >= y && (m == x || m == y)
  {
    if x > y then x else y
  }

  predicate ValidWeight(current: nat, throughput: nat, w: nat)
    ensures ValidWeight(current, throughput, w) <==> w + throughput >= current
  {
    throughput > current || w >= current - throughput
  }

  lemma ParentsStay(b: Book, v: Vertex)
    requires Attachable(b, v) && v.left in b.graph.vertices && v.right in b.graph.vertices
    ensures var g := Attach(b, v).graph;
      && v.left in g.vertices && g.vertices[v.left] == b.graph.vertices[v.left]
      && v.right in g.vertices && g.vertices[v.right] == b.graph.vertices[v.right]
  {
    hide Acyclic, ParentsHeld, Indexed, EdgesMatch, Ancestors;
  }

  // ---- vertices waiting for their parents ----

  function Attempts(m: Memory): nat {
    if m.repeated <= MAX_REPEATS + 1 then MAX_REPEATS + 2 - m.repeated else 0
  }

  /** How many more attempts the buffer allows for. */
  function Patience(ms: seq<Memory>): nat {
    if ms == [] then 0
    else Patience(ms[..|ms| - 1]) + Attempts(ms[|ms| - 1])
  }

  lemma {:induction false} PatienceOfFirst(ms: seq<Memory>)
    requires ms != []
    ensures Patience(ms) == Patience(ms[..1]) + Patience(ms[1..])
  {
    if |ms| == 1 {
      assert ms[..1] == ms && ms[1..] == [];
    } else {
      var u := ms[..|ms| - 1];
      PatienceOfFirst(u);
      assert u[..1] == ms[..1] && ms[1..][..|ms| - 2] == u[1..];
    }
  }

  /** Trying the first one uses up an attempt, whether it has to wait again or not. */
  lemma PatienceUsed(ms: seq<Memory>)
    requires ms != [] && ms[0].repeated <= MAX_REPEATS + 1
    ensures Patience(ms[1..]) < Patience(ms)
    ensures Patience(ms[1..] + [ms[0].(repeated := ms[0].repeated + 1)]) < Patience(ms)
  {
    PatienceOfFirst(ms);
    assert ms[..1][..0] == [];
    var last := ms[0].(repeated := ms[0].repeated + 1);
    assert (ms[1..] + [last])[..|ms| - 1] == ms[1..];
  }

  // ---- verdicts on leaves ----

  /** What a verdict on a leaf depends on besides the leaf. */
  datatype Moment = Moment(book: Book, weight: nat, throughput: nat)

  type Checker = Vertex -> bool

  /** The leaf passes validation, whatever order a walk over its past takes. */
  ghost predicate Stands(m: Moment, trusted: set<Address>, verified: Checker, leaf: Vertex) {
    var b := m.book;
    && ValidWeight(m.weight, m.throughput, leaf.weight) && verified(leaf)
    && (IsRoot(b.graph, leaf.hash) ||
        if !IsSpiceTransfer(leaf.trx) || leaf.signer in trusted then
          leaf.left in b.graph.vertices && leaf.right in b.graph.vertices
        else
          ParentsVerified(b, leaf, verified) && MustPay(b, leaf.hash, leaf.trx.issuer))
  }

  /** How validation decides; for clear funds, exactly by the sums over the leaf and its whole past. */
  ghost predicate Judged(m: Moment, trusted: set<Address>, verified: Checker, leaf: Vertex, err: Error) {
    var b, h, a := m.book, leaf.hash, leaf.trx.issuer;
    if !ValidWeight(m.weight, m.throughput, leaf.weight) || !verified(leaf) then err != Nil
    else if IsRoot(b.graph, h) then err == Nil
    else if !IsSpiceTransfer(leaf.trx) || leaf.signer in trusted then
      err == Nil <==> leaf.left in b.graph.vertices && leaf.right in b.graph.vertices
    else
      && (err == Nil ==> ParentsVerified(b, leaf, verified) && MayPay(b, h, a))
      && (err != Nil ==> !ParentsVerified(b, leaf, verified) || !MustPay(b, h, a))
      && (Clear(b, h, a) ==>
           (err == Nil <==> ParentsVerified(b, leaf, verified) && Countable(b, h, a) && Balance(b, h, a) >= 0))
  }

  /** A leaf of weight `w` was looked at. */
  function Heard(m: Moment, w: nat): Moment {
    Moment(m.book, Max(m.weight, w), m.throughput + |Leaves(m.book.graph)| + 1)
  }

  /** The leaf `h` was dropped in a search. */
  function Next(m: Moment, h: Hash): Moment
    requires h in m.book.graph.vertices
  {
    Heard(m.(book := DropLeaf(m.book, h)), m.book.graph.vertices[h].weight)
  }

  /** A parent was looked at and let stand. */
  function Passed(m: Moment, h: Hash): Moment
    requires h in m.book.graph.vertices
  {
    if IsLeaf(m.book.graph, h) then Heard(m, m.book.graph.vertices[h].weight) else m
  }

  /** The step drops a leaf that does not stand. */
  ghost predicate Rejectable(m: Moment, s: Step, trusted: set<Address>, verified: Checker) {
    s.Drop? && IsLeaf(m.book.graph, s.h) && !Stands(m, trusted, verified, m.book.graph.vertices[s.h])
  }

  /** From `m` to `n` leaves were dropped, each of which did not stand when it was. */
  ghost predicate Rejected(m: Moment, steps: seq<Step>, n: Moment, trusted: set<Address>, verified: Checker)
    decreases |steps|
  {
    if steps == [] then m == n
    else Rejectable(m, steps[0], trusted, verified)
         && Rejected(Next(m, steps[0].h), steps[1..], n, trusted, verified)
  }

  /** All that happened is that a parent of the leaf was dropped, which did not stand when it was looked at. */
  ghost predicate ParentRejected(m: Moment, leaf: Vertex, steps: seq<Step>, n: Moment,
                                 trusted: set<Address>, verified: Checker)
  {
    || (steps == [Drop(leaf.left)] && Rejectable(m, Drop(leaf.left), trusted, verified) && SameWeight(m, n))
    || (leaf.left in m.book.graph.vertices && steps == [Drop(leaf.right)]
        && Rejectable(Passed(m, leaf.left), Drop(leaf.right), trusted, verified)
        && SameWeight(Passed(m, leaf.left), n))
  }

  /** Both parents of the leaf were looked at and let stand, and nothing else was heard. */
  ghost predicate HeardParents(m: Moment, leaf: Vertex, n: Moment) {
    && leaf.left in m.book.graph.vertices && leaf.right in m.book.graph.vertices
    && SameWeight(Passed(Passed(m, leaf.left), leaf.right), n)
  }

  ghost predicate SameWeight(m: Moment, n: Moment) {
    m.weight == n.weight && m.throughput == n.throughput
  }

  /** Leaves were dropped as above, and what was heard since `m` was heard from them. */
  ghost predicate OnlyRejected(m: Moment, steps: seq<Step>, n: Moment, trusted: set<Address>, verified: Checker) {
    exists k :: Rejected(m, steps, k, trusted, verified) && SameWeight(k, n)
  }

  lemma VerifiedParents(b: Book, leaf: Vertex, verified: Checker)
    ensures ParentsVerified(b, leaf, verified) <==>
      && (leaf.left in b.graph.vertices ==> verified(b.graph.vertices[leaf.left]))
      && (leaf.right in b.graph.vertices ==> verified(b.graph.vertices[leaf.right]))
  {
  }

  /** What is enough, by the fields: a root; both parents, without funds at stake; or verified parents and funds. */
  lemma StandsWhen(m: Moment, trusted: set<Address>, verified: Checker, v: Vertex)
    requires v.weight + m.throughput >= m.weight && verified(v)
    requires var V := m.book.graph.vertices;
      || IsRoot(m.book.graph, v.hash)
      || ((Val(v.trx.spice) == 0 || v.signer in trusted) && v.left in V && v.right in V)
      || (v.left in V && v.right in V && verified(V[v.left]) && verified(V[v.right])
          && MustPay(m.book, v.hash, v.trx.issuer))
    ensures Stands(m, trusted, verified, v)
  {
    hide MustPay, IsRoot, ParentsVerified;
    EmptyMeans(v.trx);
    VerifiedParents(m.book, v, verified);
  }

  ghost predicate RootsStand(m: Moment, trusted: set<Address>, verified: Checker) {
    forall v :: InGraph(m.book.graph, v) && Parents(m.book.graph.edges, {v.hash}) == {} && verified(v) ==>
      Stands(m, trusted, verified, v)
  }

  /** A node that has not seen a weight above its throughput lets every verified root stand. */
  lemma AllRootsStand(m: Moment, trusted: set<Address>, verified: Checker)
    requires m.weight <= m.throughput
    ensures RootsStand(m, trusted, verified)
    ensures forall w :: ValidWeight(m.weight, m.throughput, w)
  {
    hide Parents, Stands;
    forall v | InGraph(m.book.graph, v) && Parents(m.book.graph.edges, {v.hash}) == {} && verified(v)
      ensures Stands(m, trusted, verified, v)
    {
      StandsWhen(m, trusted, verified, v);
    }
  }

  lemma {:induction false} RejectedMore(m: Moment, steps: seq<Step>, n: Moment, h: Hash,
                                       trusted: set<Address>, verified: Checker)
    requires Rejected(m, steps, n, trusted, verified) && Rejectable(n, Drop(h), trusted, verified)
    ensures Rejected(m, steps + [Drop(h)], Next(n, h), trusted, verified)
    decreases |steps|
  {
    hide Stands, Next;
    var s := steps + [Drop(h)];
    if steps == [] {
      assert s[1..] == [];
    } else {
      RejectedMore(Next(m, steps[0].h), steps[1..], n, h, trusted, verified);
      assert s[1..] == steps[1..] + [Drop(h)];
    }
  }

  /** Of the leaves met so far only the first valid one is still there. */
  ghost predicate Examined(leaves: set<Hash>, g: Graph, rest: set<Hash>, left: Option<Vertex>) {
    forall h :: h in leaves && h in g.vertices ==> h in rest || (left.Some? && h == left.value.hash)
  }

  lemma ExaminedNone(leaves: set<Hash>, g: Graph)
    ensures Examined(leaves, g, leaves, None)
  {
  }

  lemma ExaminedDropped(leaves: set<Hash>, b: Book, rest: set<Hash>, left: Option<Vertex>, h: Hash)
    requires h in b.graph.vertices && Examined(leaves, b.graph, rest, left)
    ensures Examined(leaves, DropLeaf(b, h).graph, rest - {h}, left)
  {
  }

  lemma ExaminedTaken(leaves: set<Hash>, g: Graph, rest: set<Hash>, left: Option<Vertex>, v: Vertex)
    requires left.None? ==> Examined(leaves, g, rest, left)
    ensures left.None? ==> Examined(leaves, g, rest - {v.hash}, Some(v))
  {
  }

  /** The search fails exactly when the leaf validated last was dropped; else that leaf is the one found last. */
  ghost predicate LastDecides(left: Option<Vertex>, right: Option<Vertex>, err: Error, steps: seq<Step>,
                          last: Option<Vertex>, g: Graph)
  {
    && (err != Nil <==> last.Some? && last.value.hash !in g.vertices)
    && (err != Nil ==> right.None? && steps != [] && steps[|steps| - 1] == Drop(last.value.hash))
    && (err == Nil ==> last == if right.Some? then right else left)
  }

  lemma DecidedNone(g: Graph)
    ensures LastDecides(None, None, Nil, [], None, g)
  {
  }

  lemma DecidedDropped(left: Option<Vertex>, right: Option<Vertex>, err: Error, steps: seq<Step>, v: Vertex, g: Graph)
    requires err != Nil && right.None? && v.hash !in g.vertices && steps != [] && steps[|steps| - 1] == Drop(v.hash)
    ensures LastDecides(left, right, err, steps, Some(v), g)
  {
  }

  lemma DecidedTaken(left: Option<Vertex>, right: Option<Vertex>, steps: seq<Step>, v: Vertex, g: Graph)
    requires v.hash in g.vertices && Some(v) == if right.Some? then right else left
    ensures LastDecides(left, right, Nil, steps, Some(v), g)
  {
  }

  lemma RejectedNone(m: Moment, trusted: set<Address>, verified: Checker)
    ensures Rejected(m, [], m, trusted, verified)
  {
  }

  lemma LeavesAreLeaves(g: Graph)
    ensures forall h :: h in Leaves(g) ==> IsLeaf(g, h)
  {
  }

  class AccountingBook {
    const signer: Address
    /** The signature checks of a vertex and its transaction. */
    const verified: Vertex -> bool
    const refuses: Refusals
    var graph: Graph
    var stored: map<Hash, Vertex>
    var index: map<Hash, Hash>
    var funds: map<Address, Amount>
    var genesis: Address
    var loaded: bool
    var trusted: set<Address>
    var weight: nat
    var throughput: nat
    /** The vertices to be tried again, in turn. */
    var memories: seq<Memory>
    /** Every node that was ever trusted. */
    ghost var everTrusted: set<Address>

    ghost predicate Valid()
      reads this
    {
      Inv(State()) && trusted <= everTrusted
    }

    function State(): Book
      reads this
    {
      Book(graph, stored, index, funds, genesis, loaded)
    }

    function Now(): Moment
      reads this
    {
      Moment(State(), weight, throughput)
    }

    constructor (signer: Address, verified: Vertex -> bool, refuses: Refusals)
      ensures Now() == Moment(FRESH, 0, 0) && Valid() && this.signer == signer && trusted == everTrusted == {}
      ensures this.verified == verified && this.refuses == refuses && memories == []
    {
      this.signer, this.verified, this.refuses := signer, verified, refuses;
      graph, stored, index, funds := FRESH.graph, map[], map[], map[];
      genesis, loaded, trusted := "", false, {};
      weight, throughput, memories, everTrusted := 0, 0, [], {};
      FreshInv();
    }

    /** A leaf is let stand: weight, signatures, and either it is a root, or its parents are known, or it can pay. */
    method ValidateLeaf(leaf: Vertex) returns (err: Error)
      requires Valid() && InGraph(graph, leaf)
      ensures err == Nil || err == ErrLeafRejected
      ensures err == Nil ==> Covered(State(), everTrusted, leaf.hash)
      ensures err == Nil ==> verified(leaf) && leaf.weight + throughput >= weight
      ensures err == Nil && !IsRoot(graph, leaf.hash) && Val(leaf.trx.spice) > 0 && leaf.signer !in trusted ==>
        && MayPay(State(), leaf.hash, leaf.trx.issuer)
        && (leaf.left in graph.vertices ==> verified(graph.vertices[leaf.left]))
        && (leaf.right in graph.vertices ==> verified(graph.vertices[leaf.right]))
      ensures err == Nil && !IsRoot(graph, leaf.hash) && (Val(leaf.trx.spice) == 0 || leaf.signer in trusted) ==>
        leaf.left in graph.vertices && leaf.right in graph.vertices
      ensures err != Nil ==> !Stands(Now(), trusted, verified, leaf)
      ensures Judged(Now(), trusted, verified, leaf, err)
    {
      hide Inv, Countable, Clear, Balance, ParentsVerified, IsRoot, Visit, Pays;
      EmptyMeans(leaf.trx);
      VerifiedParents(State(), leaf, verified);
      if !ValidWeight(weight, throughput, leaf.weight) {
        return ErrLeafRejected;
      }
      if !verified(leaf) {
        return ErrLeafRejected;
      }
      if IsRoot(graph, leaf.hash) {
        return Nil;
      }
      if !IsSpiceTransfer(leaf.trx) || leaf.signer in trusted {
        if leaf.right !in graph.vertices || leaf.left !in graph.vertices {
          return ErrLeafRejected;
        }
        return Nil;
      }
      var verdict;
      ghost var order;
      verdict, order := CheckFunds(State(), leaf, verified);
      return if verdict == Sound then Nil else ErrLeafRejected;
    }

    method AddTrustedNode(node: Address)
      requires Valid()
      modifies this`trusted, this`everTrusted
      ensures Valid() && trusted == old(trusted) + {node} && everTrusted == old(everTrusted) + {node}
      ensures Solvent(State(), old(everTrusted)) ==> Solvent(State(), everTrusted)
    {
      hide Inv;
      trusted, everTrusted := trusted + {node}, everTrusted + {node};
    }

    method RemoveTrustedNode(node: Address)
      requires Valid()
      modifies this`trusted
      ensures Valid() && trusted == old(trusted) - {node}
    {
      trusted := trusted - {node};
    }

    method UpdateWeightAndThroughput(w: nat)
      modifies this`weight, this`throughput
      ensures Now() == Heard(old(Now()), w)
      ensures weight >= old(weight) && weight >= w && (weight == old(weight) || weight == w)
      ensures throughput == old(throughput) + |Leaves(graph)| + 1
    {
      if weight < w {
        weight := w;
      }
      throughput := throughput + |Leaves(graph)| + 1;
    }

    /** A leaf that failed validation goes, with its index entry; none that stands does. */
    method RejectLeaf(leaf: Vertex)
      requires Valid() && InGraph(graph, leaf) && IsLeaf(graph, leaf.hash)
      requires !Stands(Now(), trusted, verified, leaf)
      modifies this`graph, this`index
      ensures Valid() && State() == DropLeaf(old(State()), leaf.hash)
      ensures Took(old(State()), [Drop(leaf.hash)], State())
      ensures Solvent(old(State()), everTrusted) ==> Solvent(State(), everTrusted)
    {
      hide Inv, IsLeaf, Took, Solvent, Stands;
      DropKeepsInv(State(), leaf.hash);
      if Solvent(State(), everTrusted) { DropKeepsSolvent(State(), everTrusted, leaf.hash); }
      TookOne(State(), Drop(leaf.hash));
      graph := DeleteVertex(graph, leaf.hash);
      index := index - {leaf.trx.hash};
    }

    /** One more leaf rejected since `was`. */
    method RejectNext(leaf: Vertex, ghost was: Book, ghost before: seq<Step>) returns (ghost steps: seq<Step>)
      requires Valid() && InGraph(graph, leaf) && IsLeaf(graph, leaf.hash) && Pruned(was, before, State())
      requires !Stands(Now(), trusted, verified, leaf)
      modifies this`graph, this`index, this`weight, this`throughput
      ensures Valid() && Now() == Next(old(Now()), leaf.hash) && Pruned(was, steps, State())
      ensures weight >= old(weight) && weight >= leaf.weight && (weight == old(weight) || weight == leaf.weight)
      ensures throughput == old(throughput) + |Leaves(graph)| + 1
      ensures State() == DropLeaf(old(State()), leaf.hash) && leaf.hash !in graph.vertices
      ensures steps == before + [Drop(leaf.hash)]
      ensures Solvent(old(State()), everTrusted) ==> Solvent(State(), everTrusted)
    {
      hide Inv, IsLeaf, Leaves, Took, Solvent, OnlyDrops, Stands;
      ghost var now := State();
      RejectLeaf(leaf);
      PrunedMore(was, before, now, leaf.hash);
      steps := before + [Drop(leaf.hash)];
      UpdateWeightAndThroughput(leaf.weight);
    }

    method SaveTrxInVertex(trxHash: Hash, vrxHash: Hash) returns (ok: bool)
      modifies this`index
      ensures ok <==> trxHash !in old(index)
      ensures index == if ok then old(index)[trxHash := vrxHash] else old(index)
    {
      if trxHash in index {
        return false;
      }
      index := index[trxHash := vrxHash];
      return true;
    }

    /** Different verified leaves, the first one first. */
    ghost predicate Picked(leaves: set<Hash>, left: Option<Vertex>, right: Option<Vertex>) {
      && (left.Some? ==> left.value.hash in leaves && verified(left.value))
      && (right.Some? ==>
           left.Some? && right.value.hash in leaves && verified(right.value) && right.value.hash != left.value.hash)
    }

    lemma PickedNone(leaves: set<Hash>)
      ensures Picked(leaves, None, None)
    {
    }

    lemma PickedNext(leaves: set<Hash>, left: Option<Vertex>, right: Option<Vertex>, v: Vertex)
      requires Picked(leaves, left, right) && v.hash in leaves && verified(v)
      requires left.Some? ==> left.value.hash != v.hash
      ensures left.None? ==> Picked(leaves, Some(v), right)
      ensures left.Some? ==> Picked(leaves, left, Some(v))
    {
    }

    /**
     At most two valid leaves, taken in any order; invalid ones met on the way are rejected. The error is
     that of the leaf validated last, whatever was found before it: `last`, none without leaves.
     */
    method GetValidLeaves()
      returns (left: Option<Vertex>, right: Option<Vertex>, err: Error, ghost steps: seq<Step>,
               ghost last: Option<Vertex>)
      requires Valid()
      modifies this`graph, this`index, this`weight, this`throughput
      ensures Valid() && Pruned(old(State()), steps, State())
      ensures Solvent(old(State()), everTrusted) ==> Solvent(State(), everTrusted)
      ensures left.Some? ==> Chosen(State(), everTrusted, left.value)
      ensures right.Some? ==> left.Some? && Chosen(State(), everTrusted, right.value)
      ensures Picked(Leaves(old(graph)), left, right)
      ensures err == Nil || err == ErrLeafRejected
      ensures Rejected(old(Now()), steps, Now(), trusted, verified)
      ensures last.None? <==> Leaves(old(graph)) == {}
      ensures last.None? ==> left.None? && steps == []
      ensures LastDecides(left, right, err, steps, last, graph)
      ensures right.None? ==> Examined(Leaves(old(graph)), graph, {}, left)
    {
      hide Inv, IsLeaf, Leaves, DropLeaf, Stands, Next, Examined, Pruned, Solvent, Covered, Chosen;
      hide Rejected, LastDecides, Judged, Picked;
      left, right, err, steps, last := None, None, Nil, [], None;
      DecidedNone(graph);
      PickedNone(Leaves(graph));
      assert Rejected(Now(), [], Now(), trusted, verified) by { RejectedNone(Now(), trusted, verified); }
      var rest := Leaves(graph);
      var i := 0;
      PrunedNone(State());
      LeavesAreLeaves(graph);
      ExaminedNone(rest, graph);
      while rest != {} && i < 2
        invariant Valid() && Pruned(old(State()), steps, State())
        invariant Solvent(old(State()), everTrusted) ==> Solvent(State(), everTrusted)
        invariant rest <= Leaves(old(graph)) && forall h :: h in rest ==> IsLeaf(graph, h)
        invariant Picked(Leaves(old(graph)), left, right)
        invariant 0 <= i <= 2 && (i == 0 <==> left.None?) && (i < 2 <==> right.None?)
        invariant left.Some? ==> Chosen(State(), everTrusted, left.value) && left.value.hash !in rest
        invariant right.Some? ==> left.Some? && Chosen(State(), everTrusted, right.value) && right.value.hash !in rest
        invariant err == Nil || err == ErrLeafRejected
        invariant right.None? ==> Examined(Leaves(old(graph)), graph, rest, left)
        invariant Rejected(old(Now()), steps, Now(), trusted, verified)
        invariant LastDecides(left, right, err, steps, last, graph)
        invariant last.None? ==> rest == Leaves(old(graph)) && left.None? && steps == []
        invariant last.Some? ==> Leaves(old(graph)) != {}
        decreases |rest|
      {
        ghost var before := rest;
        var h :| h in rest;
        rest := rest - {h};
        LeafInGraph(State(), h);
        var vrx := graph.vertices[h];
        err := ValidateLeaf(vrx);
        if err != Nil {
          KeepRest(State(), everTrusted, h, rest, left, right);
          ExaminedDropped(Leaves(old(graph)), State(), before, left, h);
          RejectedMore(old(Now()), steps, Now(), h, trusted, verified);
          steps := RejectNext(vrx, old(State()), steps);
          DecidedDropped(left, right, err, steps, vrx, graph);
        } else {
          ChosenNow(State(), everTrusted, vrx);
          ExaminedTaken(Leaves(old(graph)), graph, before, left, vrx);
          PickedNext(Leaves(old(graph)), left, right, vrx);
          if i == 0 { left := Some(vrx); } else { right := Some(vrx); }
          i := i + 1;
          DecidedTaken(left, right, steps, vrx, graph);
        }
        last := Some(vrx);
      }
    }

    /**
     The end of `CreateLeaf` and `AddLeaf`: index entry, vertex, one edge from each parent. Whatever is
     refused on the way is undone, so that the book is as it was.
     */
    method Join(v: Vertex) returns (ok: bool)
      requires Inv(State()) && loaded && v.hash != NO_HASH && v.hash !in stored
      requires v.left in graph.vertices && v.right in graph.vertices
      requires v.trx.issuer != genesis && v.trx.issuer != v.signer && !IsEmpty(v.trx)
      modifies this`graph, this`index
      ensures ok ==> Attachable(old(State()), v) && State() == Attach(old(State()), v)
      ensures !ok ==> State() == old(State())
      ensures Reliable(refuses) ==> (ok <==> v.trx.hash !in old(index) && v.hash !in old(graph).vertices)
    {
      hide Acyclic, ParentsHeld, Indexed, EdgesMatch, Ancestors, AddEdge;
      ghost var b, g, ix := State(), graph, index;
      ok := SaveTrxInVertex(v.trx.hash, v.hash);
      if !ok {
        return false;
      }
      assert index - {v.trx.hash} == ix;
      var added := TryAddVertex(refuses, graph, v);
      if added.None? {
        index := index - {v.trx.hash};
        return false;
      }
      graph := added.value;
      var edged := TryAddEdge(refuses, graph, v.left, v.hash);
      EdgeIsFree(b, v, v.left, {});
      AddedEdge(graph, v.left, v.hash);
      if edged.None? {
        RollbackTo(g, v, graph, {});
        graph := DeleteVertex(graph, v.hash);
        index := index - {v.trx.hash};
        return false;
      }
      graph := edged.value;
      if v.right != v.left {
        edged := TryAddEdge(refuses, graph, v.right, v.hash);
        EdgeIsFree(b, v, v.right, {(v.left, v.hash)});
        AddedEdge(graph, v.right, v.hash);
        if edged.None? {
          RollbackTo(g, v, graph, {(v.left, v.hash)});
          graph := DeleteVertex(graph, v.hash);
          index := index - {v.trx.hash};
          return false;
        }
        graph := edged.value;
      }
      assert graph.edges == g.edges + {(v.left, v.hash), (v.right, v.hash)};
      return true;
    }

    /** Attaches a vertex to two covered parents, or leaves the book alone. */
    method Grow(v: Vertex) returns (ok: bool, ghost steps: seq<Step>)
      requires Valid() && loaded && v.hash != NO_HASH && v.hash !in stored
      requires v.left in graph.vertices && v.right in graph.vertices
      requires Solvent(State(), everTrusted) ==> Vetted(State(), everTrusted, Add(v))
      requires v.trx.issuer != genesis && v.trx.issuer != v.signer && !IsEmpty(v.trx)
      modifies this`graph, this`index
      ensures Valid() && Grew(old(State()), everTrusted, steps, State())
      ensures steps == if ok then [Add(v)] else []
      ensures State() == if ok then Attach(old(State()), v) else old(State())
      ensures Reliable(refuses) ==> (ok <==> v.trx.hash !in old(index) && v.hash !in old(graph).vertices)
      ensures v.left in graph.vertices && graph.vertices[v.left] == old(graph.vertices[v.left])
      ensures v.right in graph.vertices && graph.vertices[v.right] == old(graph.vertices[v.right])
    {
      hide Inv, Solvent, Vetted, Took, Attachable, Attach;
      ok := Join(v);
      steps := if ok then [Add(v)] else [];
      if ok {
        GrewByOne(old(State()), everTrusted, v);
        ParentsStay(old(State()), v);
      } else {
        GrewNone(State(), everTrusted);
      }
    }

    /** What keeps a transaction out whatever the leaves are. */
    ghost predicate Refused(trx: Transaction)
      reads this
    {
      !loaded || IsEmpty(trx) || trx.issuer == signer || trx.issuer == genesis || trx.hash in index
    }

    /** A transaction becomes a leaf on top of one or two leaves that passed validation. */
    method CreateLeaf(trx: Transaction, newHash: Hash)
      returns (err: Error, tip: Vertex, ghost steps: seq<Step>, ghost last: Option<Vertex>)
      requires (loaded ==> Valid()) && newHash != NO_HASH && newHash !in stored
      modifies this`graph, this`index, this`weight, this`throughput
      ensures (loaded ==> Valid()) && Grew(old(State()), everTrusted, steps, State())
      ensures err == Nil ==>
        && steps != [] && steps[|steps| - 1] == Add(tip) && OnlyDrops(steps[..|steps| - 1])
        && tip.trx == trx && tip.hash == newHash && tip.signer == signer
        && tip.left in graph.vertices && tip.right in graph.vertices
        && tip.weight == 1 + Max(graph.vertices[tip.left].weight, graph.vertices[tip.right].weight)
        && OnTop(old(graph), tip, graph)
      ensures err != Nil ==> OnlyDrops(steps)
      ensures OnlyRejected(old(Now()), if err == Nil then steps[..|steps| - 1] else steps, Now(), trusted, verified)
      ensures err == ErrDagIsNotLoaded <==> !loaded
      ensures err == ErrTrxIsEmpty <==> loaded && !trx.contract && Val(trx.spice) == 0
      ensures err == ErrCannotTransferFoundsViaOwnedNode <==>
        loaded && (trx.contract || Val(trx.spice) > 0) && trx.issuer == signer
      ensures err == ErrCannotTransferFoundsFromGenesisWallet <==>
        loaded && (trx.contract || Val(trx.spice) > 0) && trx.issuer != signer && trx.issuer == genesis
      ensures err == ErrTrxInVertexAlreadyExists <==>
        && loaded && (trx.contract || Val(trx.spice) > 0) && trx.issuer != signer && trx.issuer != genesis
        && trx.hash in old(index)
      ensures old(Refused(trx)) ==> err != Nil && Now() == old(Now())
      ensures !old(Refused(trx)) ==>
        && (err == NilLeaf <==> old(graph).vertices == map[])
        && (err == ErrLeafRejected <==> last.Some? && last.value.hash !in graph.vertices)
        && (last.None? <==> old(graph).vertices == map[])
      ensures Reliable(refuses) && newHash !in old(graph).vertices ==> err != ErrNewLeafRejected
    {
      hide Inv, Solvent, Took, IsEmpty, Rejected, OnTop;
      EmptyMeans(trx);
      tip, steps, last := Vertex(newHash, signer, trx, NO_HASH, NO_HASH, 0), [], None;
      RejectedNone(Now(), trusted, verified);
      GrewNone(State(), everTrusted);
      if !loaded {
        return ErrDagIsNotLoaded, tip, steps, last;
      }
      if IsEmpty(trx) {
        return ErrTrxIsEmpty, tip, steps, last;
      }
      if trx.issuer == signer {
        return ErrCannotTransferFoundsViaOwnedNode, tip, steps, last;
      }
      if trx.issuer == genesis {
        return ErrCannotTransferFoundsFromGenesisWallet, tip, steps, last;
      }
      if trx.hash in index {
        return ErrTrxInVertexAlreadyExists, tip, steps, last;
      }
      err, tip, steps, last := CreateTip(trx, newHash);
    }

    /** The new leaf sits on verified leaves of the graph it came to, on one of them twice only if no other is left. */
    ghost predicate OnTop(was: Graph, tip: Vertex, now: Graph) {
      && tip.left in Leaves(was) && tip.left in now.vertices && verified(now.vertices[tip.left])
      && tip.right in Leaves(was) && tip.right in now.vertices && verified(now.vertices[tip.right])
      && (tip.left == tip.right ==>
           forall h :: h in Leaves(was) && h in now.vertices ==> h == tip.left || h == tip.hash)
    }

    /** The part of `CreateLeaf` under the lock. */
    method CreateTip(trx: Transaction, newHash: Hash)
      returns (err: Error, tip: Vertex, ghost steps: seq<Step>, ghost last: Option<Vertex>)
      requires Valid() && !Refused(trx) && newHash != NO_HASH && newHash !in stored
      modifies this`graph, this`index, this`weight, this`throughput
      ensures Valid() && Grew(old(State()), everTrusted, steps, State())
      ensures err == Nil ==>
        && steps != [] && steps[|steps| - 1] == Add(tip) && OnlyDrops(steps[..|steps| - 1])
        && tip.trx == trx && tip.hash == newHash && tip.signer == signer
        && tip.left in graph.vertices && tip.right in graph.vertices
        && tip.weight == 1 + Max(graph.vertices[tip.left].weight, graph.vertices[tip.right].weight)
        && OnTop(old(graph), tip, graph)
      ensures err != Nil ==> OnlyDrops(steps)
      ensures OnlyRejected(old(Now()), if err == Nil then steps[..|steps| - 1] else steps, Now(), trusted, verified)
      ensures err == Nil || err == NilLeaf || err == ErrLeafRejected || err == ErrNewLeafRejected
      ensures err == NilLeaf <==> old(graph).vertices == map[]
      ensures err == ErrLeafRejected <==> last.Some? && last.value.hash !in graph.vertices
      ensures last.None? <==> old(graph).vertices == map[]
      ensures Reliable(refuses) && newHash !in old(graph).vertices ==> err != ErrNewLeafRejected
    {
      hide Inv, Solvent, Took, Chosen, IsEmpty, IsLeaf, Covered, Leaves, Rejected;
      hide OnTop, Examined, Attach, Grew, OnlyDrops;
      tip := Vertex(newHash, signer, trx, NO_HASH, NO_HASH, 0);
      var left, right;
      left, right, err, steps, last := GetValidLeaves();
      NoLeavesNoVertices(old(State()));
      PrunedGrew(old(State()), everTrusted, steps, State());
      if err != Nil {
        return err, tip, steps, last;
      }
      if left.None? {
        // The second attempt finds the same empty graph.
        return NilLeaf, tip, steps, last;
      }
      ghost var alone := right.None?;
      if right.None? {
        right := left;
      }
      ghost var mid := State();
      var ok;
      ghost var more;
      ok, tip, more := Sprout(trx, newHash, left.value, right.value);
      GrewMore(old(State()), everTrusted, steps, mid, more, State());
      LastOf(steps, more, tip);
      if ok { OnTopNow(old(graph), mid, tip, graph, left, alone); }
      steps := steps + more;
      err := if ok then Nil else ErrNewLeafRejected;
    }

    /** The new vertex on two chosen leaves. */
    method Sprout(trx: Transaction, newHash: Hash, left: Vertex, right: Vertex)
      returns (ok: bool, tip: Vertex, ghost steps: seq<Step>)
      requires Valid() && !Refused(trx) && newHash != NO_HASH && newHash !in stored
      requires Chosen(State(), everTrusted, left) && Chosen(State(), everTrusted, right)
      modifies this`graph, this`index
      ensures Valid() && Grew(old(State()), everTrusted, steps, State())
      ensures steps == if ok then [Add(tip)] else []
      ensures ok ==> graph == Attach(old(State()), tip).graph
      ensures Reliable(refuses) && newHash !in old(graph).vertices ==> ok
      ensures tip == Vertex(newHash, signer, trx, left.hash, right.hash, 1 + Max(left.weight, right.weight))
      ensures InGraph(graph, left) && InGraph(graph, right)
    {
      hide Inv, Solvent, Took, Chosen, IsEmpty, Covered, Attach, Grew;
      ParentsChosen(State(), everTrusted, left, right);
      tip := Vertex(newHash, signer, trx, left.hash, right.hash, 1 + Max(left.weight, right.weight));
      ok, steps := Grow(tip);
    }

    lemma OnTopNow(was: Graph, mid: Book, tip: Vertex, now: Graph, left: Option<Vertex>, alone: bool)
      requires tip.left in Leaves(was) && tip.left in now.vertices && verified(now.vertices[tip.left])
      requires tip.right in Leaves(was) && tip.right in now.vertices && verified(now.vertices[tip.right])
      requires now == Attach(mid, tip).graph
      requires alone ==> Examined(Leaves(was), mid.graph, {}, left) && left.Some? && left.value.hash == tip.left
      requires !alone ==> tip.left != tip.right
      ensures OnTop(was, tip, now)
    {
      hide Leaves;
    }

    /**
     One parent named by a new leaf: unknown, or valid and left alone, or a leaf that fails validation and
     is rejected.
     */
    method CheckParent(hash: Hash) returns (err: Error, ghost steps: seq<Step>)
      requires Valid()
      modifies this`graph, this`index, this`weight, this`throughput
      ensures Valid() && Pruned(old(State()), steps, State())
      ensures Solvent(old(State()), everTrusted) ==> Solvent(State(), everTrusted)
      ensures err == Nil || err == ErrLeafRejected || err == ErrParentDoesNotExists
      ensures err == Nil ==> steps == [] && State() == old(State()) && hash in graph.vertices
      ensures err == Nil && Solvent(State(), everTrusted) ==> Covered(State(), everTrusted, hash)
      ensures err == ErrParentDoesNotExists ==> steps == [] && Now() == old(Now()) && hash !in graph.vertices
      ensures err == ErrLeafRejected ==> steps == [Drop(hash)] && hash !in graph.vertices
      ensures err == ErrLeafRejected ==> Rejectable(old(Now()), Drop(hash), trusted, verified)
      ensures err == Nil ==> Now() == Passed(old(Now()), hash)
      ensures err != Nil || hash !in Leaves(graph) ==> weight == old(weight) && throughput == old(throughput)
      ensures err == Nil && hash in Leaves(graph) ==>
        && verified(graph.vertices[hash]) && throughput == old(throughput) + |Leaves(graph)| + 1
        && weight >= old(weight) && weight >= graph.vertices[hash].weight
        && (weight == old(weight) || weight == graph.vertices[hash].weight)
    {
      hide Inv, Took, Stands, Leaves, Covered, Judged;
      steps := [];
      PrunedNone(State());
      if hash !in graph.vertices {
        return ErrParentDoesNotExists, steps;
      }
      if IsLeaf(graph, hash) {
        LeafInGraph(State(), hash);
        var existing := graph.vertices[hash];
        err := ValidateLeaf(existing);
        if err != Nil {
          ghost var was := State();
          RejectLeaf(existing);
          PrunedMore(old(State()), steps, was, hash);
          return ErrLeafRejected, steps + [Drop(hash)];
        }
        UpdateWeightAndThroughput(existing.weight);
      }
      return Nil, steps;
    }

    /** What keeps a vertex out whatever its parents are. */
    ghost predicate Barred(leaf: Vertex)
      reads this
    {
      || !loaded || leaf.trx.issuer == leaf.signer || IsEmpty(leaf.trx) || leaf.trx.issuer == genesis
      || leaf.hash in Held(State()) || leaf.trx.hash in index || !verified(leaf)
    }

    /** What the buffer holds passed the checks of `AddLeaf` and has been tried a limited number of times. */
    ghost predicate Patient()
      reads this
    {
      && |memories| <= MAX_MEMORIES && (memories != [] ==> loaded)
      && forall i :: 0 <= i < |memories| ==> Retriable(memories[i])
    }

    ghost predicate Retriable(m: Memory) {
      && m.repeated <= MAX_REPEATS + 1 && m.vrx.trx.issuer != m.vrx.signer && !IsEmpty(m.vrx.trx)
      && (verified(m.vrx) ==> m.vrx.hash != NO_HASH)
    }

    /** The buffer is bounded, and so is the number of times a vertex enters it. */
    method Memorize(m: Memory) returns (ok: bool)
      modifies this`memories
      ensures ok <==> |old(memories)| != 500 && m.repeated <= 25
      ensures memories == if ok then old(memories) + [m.(repeated := m.repeated + 1)] else old(memories)
    {
      if |memories| == MAX_MEMORIES || m.repeated > MAX_REPEATS {
        return false;
      }
      memories := memories + [m.(repeated := m.repeated + 1)];
      return true;
    }

    /** Both parents of a new leaf, the left one first. */
    method CheckParents(leaf: Vertex) returns (err: Error, ghost steps: seq<Step>)
      requires Valid()
      modifies this`graph, this`index, this`weight, this`throughput
      ensures Valid() && Pruned(old(State()), steps, State())
      ensures Solvent(old(State()), everTrusted) ==> Solvent(State(), everTrusted)
      ensures err == Nil ==> steps == [] && State() == old(State())
      ensures err == Nil ==> leaf.left in graph.vertices && leaf.right in graph.vertices
      ensures err == Nil && Solvent(State(), everTrusted) ==> Vetted(State(), everTrusted, Add(leaf))
      ensures err == Nil ==> Now() == Passed(Passed(old(Now()), leaf.left), leaf.right)
      ensures err == Nil || err == ErrLeafRejected || err == ErrParentDoesNotExists
      ensures err == ErrParentDoesNotExists ==>
        && steps == [] && !(leaf.left in graph.vertices && leaf.right in graph.vertices)
        && Now() == if leaf.left in old(graph).vertices then Passed(old(Now()), leaf.left) else old(Now())
      ensures err == ErrLeafRejected ==>
        steps != [] && ParentRejected(old(Now()), leaf, steps, Now(), trusted, verified)
    {
      hide Inv, Solvent, Took, Covered, Rejectable, Passed, OnlyDrops;
      err, steps := CheckParent(leaf.left);
      if err == Nil {
        err, steps := CheckParent(leaf.right);
      }
    }

    /**
     A vertex that passed the checks of `AddLeaf` becomes a leaf, if all it refers to is known and valid; if a
     parent is missing it is remembered to be tried again.
     */
    method AddLeafMemorized(m: Memory) returns (err: Error, ghost steps: seq<Step>)
      requires Valid() && Patient() && Retriable(m) && loaded
      modifies this`graph, this`index, this`weight, this`throughput, this`memories
      ensures Valid() && Patient() && Grew(old(State()), everTrusted, steps, State())
      ensures err == Nil ==> steps == [Add(m.vrx)] && verified(m.vrx) && HeardParents(old(Now()), m.vrx, Now())
      ensures err != Nil ==> OnlyDrops(steps)
      ensures err == ErrCannotTransferFoundsFromGenesisWallet <==> m.vrx.trx.issuer == genesis
      ensures err == ErrLeafAlreadyExists <==>
        m.vrx.trx.issuer != genesis && (m.vrx.hash in old(graph).vertices || m.vrx.hash in stored)
      ensures err == ErrTrxInVertexAlreadyExists <==>
        && m.vrx.trx.issuer != genesis && m.vrx.hash !in old(graph).vertices && m.vrx.hash !in stored
        && m.vrx.trx.hash in old(index)
      ensures err == Nil || err == ErrLeafRejected || err == ErrParentDoesNotExists || err == ErrLeafAlreadyExists
           || err == ErrCannotTransferFoundsFromGenesisWallet || err == ErrTrxInVertexAlreadyExists
      ensures err == ErrParentDoesNotExists ==>
        && !(m.vrx.left in graph.vertices && m.vrx.right in graph.vertices)
        && Now() == if m.vrx.left in old(graph).vertices then Passed(old(Now()), m.vrx.left) else old(Now())
      ensures memories == old(memories)
              + if err == ErrParentDoesNotExists then [m.(repeated := m.repeated + 1)] else []
      ensures old(Barred(m.vrx)) ==> err != Nil && Now() == old(Now())
      ensures err != Nil && steps != [] ==> ParentRejected(old(Now()), m.vrx, steps, Now(), trusted, verified)
      ensures Reliable(refuses) && err != Nil && !old(Barred(m.vrx)) ==>
        steps != [] || !(m.vrx.left in graph.vertices && m.vrx.right in graph.vertices)
    {
      hide Inv, Solvent, Took, IsEmpty, ParentRejected, Passed, HeardParents;
      var leaf := m.vrx;
      steps := [];
      GrewNone(State(), everTrusted);
      if leaf.trx.issuer == genesis {
        return ErrCannotTransferFoundsFromGenesisWallet, steps;
      }
      if leaf.hash in graph.vertices || leaf.hash in stored {
        return ErrLeafAlreadyExists, steps;
      }
      if leaf.trx.hash in index {
        return ErrTrxInVertexAlreadyExists, steps;
      }
      if !verified(leaf) {
        return ErrLeafRejected, steps;
      }
      err, steps := AddVerified(m);
    }

    /** A vertex that nothing bars becomes a leaf, if its parents are known and valid. */
    method AddVerified(m: Memory) returns (err: Error, ghost steps: seq<Step>)
      requires Valid() && Patient() && Retriable(m) && !Barred(m.vrx)
      modifies this`graph, this`index, this`weight, this`throughput, this`memories
      ensures Valid() && Patient() && Grew(old(State()), everTrusted, steps, State())
      ensures err == Nil ==> steps == [Add(m.vrx)] && HeardParents(old(Now()), m.vrx, Now())
      ensures err != Nil ==> OnlyDrops(steps)
      ensures err == Nil || err == ErrLeafRejected || err == ErrParentDoesNotExists
      ensures err == ErrParentDoesNotExists ==>
        && !(m.vrx.left in graph.vertices && m.vrx.right in graph.vertices)
        && Now() == if m.vrx.left in old(graph).vertices then Passed(old(Now()), m.vrx.left) else old(Now())
      ensures memories == old(memories)
              + if err == ErrParentDoesNotExists then [m.(repeated := m.repeated + 1)] else []
      ensures err != Nil && steps != [] ==> ParentRejected(old(Now()), m.vrx, steps, Now(), trusted, verified)
      ensures Reliable(refuses) && err != Nil ==>
        steps != [] || !(m.vrx.left in graph.vertices && m.vrx.right in graph.vertices)
    {
      hide Inv, Solvent, Took, IsEmpty, Covered, Vetted, ParentRejected, Passed;
      var leaf := m.vrx;
      err, steps := CheckParents(leaf);
      PrunedGrew(old(State()), everTrusted, steps, State());
      if err == ErrParentDoesNotExists {
        var ok := Memorize(m);
        return if ok then ErrParentDoesNotExists else ErrLeafRejected, steps;
      }
      if err != Nil {
        return err, steps;
      }
      var ok;
      ok, steps := Grow(leaf);
      err := if ok then Nil else ErrLeafRejected;
    }

    /** A vertex received from another node. */
    method AddLeaf(leaf: Vertex) returns (err: Error, ghost steps: seq<Step>)
      requires (loaded ==> Valid()) && Patient() && (verified(leaf) ==> leaf.hash != NO_HASH)
      modifies this`graph, this`index, this`weight, this`throughput, this`memories
      ensures (loaded ==> Valid()) && Patient()
      ensures Grew(old(State()), everTrusted, steps, State())
      ensures err == Nil ==> steps == [Add(leaf)] && verified(leaf) && HeardParents(old(Now()), leaf, Now())
      ensures err != Nil ==> OnlyDrops(steps)
      ensures err == ErrDagIsNotLoaded <==> !loaded
      ensures err == ErrCannotTransferFoundsViaOwnedNode <==> loaded && leaf.trx.issuer == leaf.signer
      ensures err == ErrTrxIsEmpty <==>
        loaded && leaf.trx.issuer != leaf.signer && !leaf.trx.contract && Val(leaf.trx.spice) == 0
      ensures err == ErrCannotTransferFoundsFromGenesisWallet <==>
        && loaded && leaf.trx.issuer != leaf.signer && (leaf.trx.contract || Val(leaf.trx.spice) > 0)
        && leaf.trx.issuer == genesis
      ensures err == ErrLeafAlreadyExists <==>
        && loaded && leaf.trx.issuer != leaf.signer && (leaf.trx.contract || Val(leaf.trx.spice) > 0)
        && leaf.trx.issuer != genesis && (leaf.hash in old(graph).vertices || leaf.hash in stored)
      ensures err == ErrTrxInVertexAlreadyExists <==>
        && loaded && leaf.trx.issuer != leaf.signer && (leaf.trx.contract || Val(leaf.trx.spice) > 0)
        && leaf.trx.issuer != genesis && leaf.hash !in old(graph).vertices && leaf.hash !in stored
        && leaf.trx.hash in old(index)
      ensures err == ErrParentDoesNotExists ==>
        && !(leaf.left in graph.vertices && leaf.right in graph.vertices)
        && Now() == if leaf.left in old(graph).vertices then Passed(old(Now()), leaf.left) else old(Now())
      ensures memories == old(memories) + if err == ErrParentDoesNotExists then [Memory(leaf, 1)] else []
      ensures old(Barred(leaf)) ==> err != Nil && Now() == old(Now())
      ensures err != Nil && steps != [] ==> ParentRejected(old(Now()), leaf, steps, Now(), trusted, verified)
      ensures Reliable(refuses) && err != Nil && !old(Barred(leaf)) ==>
        steps != [] || !(leaf.left in graph.vertices && leaf.right in graph.vertices)
    {
      hide Inv, Solvent, Took, IsEmpty, ParentRejected, HeardParents, Passed;
      EmptyMeans(leaf.trx);
      steps := [];
      GrewNone(State(), everTrusted);
      if !loaded {
        return ErrDagIsNotLoaded, steps;
      }
      if leaf.trx.issuer == leaf.signer {
        return ErrCannotTransferFoundsViaOwnedNode, steps;
      }
      if IsEmpty(leaf.trx) {
        return ErrTrxIsEmpty, steps;
      }
      err, steps := AddLeafMemorized(Memory(leaf, 0));
    }

    /** The next vertex waiting is tried again: without new ones the buffer runs empty. */
    method Replay() returns (ghost err: Error, ghost steps: seq<Step>)
      requires (loaded ==> Valid()) && Patient()
      modifies this`graph, this`index, this`weight, this`throughput, this`memories
      ensures (loaded ==> Valid()) && Patient()
      ensures Grew(old(State()), everTrusted, steps, State())
      ensures old(memories) == [] ==> steps == [] && memories == [] && Now() == old(Now())
      ensures old(memories) != [] ==>
        var m := old(memories)[0];
        && Patience(memories) < Patience(old(memories))
        && memories == old(memories)[1..]
                       + (if err == ErrParentDoesNotExists then [m.(repeated := m.repeated + 1)] else [])
        && (err == Nil ==> steps == [Add(m.vrx)] && verified(m.vrx) && HeardParents(old(Now()), m.vrx, Now()))
        && (err == ErrParentDoesNotExists ==>
             && !(m.vrx.left in graph.vertices && m.vrx.right in graph.vertices)
             && Now() == if m.vrx.left in old(graph).vertices then Passed(old(Now()), m.vrx.left) else old(Now()))
        && (err != Nil && steps != [] ==> ParentRejected(old(Now()), m.vrx, steps, Now(), trusted, verified))
    {
      hide Inv, Solvent, Took, IsEmpty, ParentRejected, Patience, HeardParents, Passed, Grew, OnlyDrops, Barred;
      err, steps := Nil, [];
      GrewNone(State(), everTrusted);
      if memories == [] {
        return;
      }
      var m := memories[0];
      PatienceUsed(memories);
      assert Retriable(m);
      hide Retriable;
      ghost var rest := memories[1..];
      memories := memories[1..];
      err, steps := AddLeafMemorized(m);
      assert rest + [] == rest;
    }

    /** The first vertex: from the node's own wallet to another one. */
    method CreateGenesis(subject: string, spice: Amount, contract: bool, receiver: Address,
                         trxHash: Hash, vrxHash: Hash)
      returns (err: Error, v: Vertex, ghost steps: seq<Step>)
      requires Valid() && vrxHash != NO_HASH && vrxHash !in graph.vertices && vrxHash !in stored
      modifies this`graph, this`index, this`weight, this`throughput, this`genesis, this`loaded
      ensures Valid() && Took(old(State()), steps, State())
      ensures v == Vertex(vrxHash, signer, Transaction(trxHash, signer, receiver, contract, spice), NO_HASH, NO_HASH, 0)
      ensures steps == if err == Nil then [Genesis(v)] else []
      ensures err == Nil <==>
        receiver != signer && subject != "" && |receiver| >= 49 && trxHash !in old(index)
      ensures err == Nil ==> weight == Max(old(weight), 50) && throughput == 51 + |Leaves(graph)|
      ensures err == Nil && old(weight) <= 50 ==>
        (forall w :: ValidWeight(weight, throughput, w)) && RootsStand(Now(), trusted, verified)
      ensures err != Nil ==> Now() == old(Now())
    {
      hide Inv, Took, Leaves, RootsStand, ValidWeight;
      v := Vertex(vrxHash, signer, Transaction(trxHash, signer, receiver, contract, spice), NO_HASH, NO_HASH, 0);
      NoStepTook(State());
      if receiver == signer || subject == "" || |receiver| < MIN_ADDRESS_LENGTH || trxHash in index {
        return ErrGenesisRejected, v, [];
      }
      GenesisKeepsInv(State(), v);
      TookOne(State(), Genesis(v));
      index := index[trxHash := vrxHash];
      graph := graph.(vertices := graph.vertices[vrxHash := v]);
      loaded, genesis := true, signer;
      StartFirst();
      return Nil, v, [Genesis(v)];
    }

    /** The throughput of a book that has its first vertex. */
    method StartFirst()
      modifies this`weight, this`throughput
      ensures weight == Max(old(weight), 50) && throughput == 51 + |Leaves(graph)|
      ensures old(weight) <= 50 ==>
        (forall w :: ValidWeight(weight, throughput, w)) && RootsStand(Now(), trusted, verified)
    {
      hide RootsStand, ValidWeight;
      throughput := INITIAL_THROUGHPUT;
      UpdateWeightAndThroughput(INITIAL_THROUGHPUT);
      if old(weight) <= 50 { AllRootsStand(Now(), trusted, verified); }
    }

    /** The balance of an address seen from some leaf. */
    method CalculateBalance(a: Address) returns (err: Error, s: Amount)
      requires Inv(State())
      ensures Leaves(graph) == {} ==> err == ErrUnexpected
      ensures Leaves(graph) != {} ==> exists leaf :: IsLeaf(graph, leaf) && BalanceReported(State(), leaf, a, err, s)
    {
      hide Inv, Countable, Clear, Balance, Normal, Val, Visit, WordBalance;
      var leaves := Leaves(graph);
      if leaves == {} {
        return ErrUnexpected, ZERO;
      }
      var leaf :| leaf in leaves;
      var ok;
      ghost var order;
      ok, s, order := BalanceFrom(State(), leaf, a);
      err := if ok then Nil else ErrUnexpected;
      assert IsLeaf(graph, leaf) && BalanceReported(State(), leaf, a, err, s);
    }

    /**
     Moves the strict ancestors of the thousandth ancestor of some leaf to storage and settles their funds.
     With no leaf there is nothing to do; with too short a past the top is unknown and nothing is done.
     */
    method Truncate() returns (err: Error, ghost leaf: Hash, ghost order: seq<Hash>, ghost steps: seq<Step>)
      requires Valid()
      modifies this`graph, this`stored, this`funds
      ensures Valid() && Took(old(State()), steps, State())
      ensures Leaves(old(graph)) == {} ==> err == Nil && steps == []
      ensures Leaves(old(graph)) != {} ==>
        && leaf in Leaves(old(graph)) && Walk(old(graph), leaf, order)
        && (err == Nil <==> |order| >= 1000) && (err != Nil ==> steps == [])
        && (err == Nil ==>
             && CutPoint(old(State()), order[999])
             && exists funds' ::
                  steps == [Step.Truncate(order[999], funds')] && TruncatedWell(old(State()), order[999], funds'))
    {
      hide Inv, Took, Ancestors, CutCountable, Settled, Counted, Truncated, DeleteVertex, Cut, IsLeaf;
      leaf, order, steps := NO_HASH, [], [];
      NoStepTook(State());
      var leaves := Leaves(graph);
      if leaves == {} {
        return Nil, leaf, order, steps;
      }
      var some :| some in leaves;
      var depths := VisitAncestors(graph, some);
      DistinctSize(depths);
      leaf, order := some, depths;
      if |depths| < TRUNCATE_DIFF {
        return ErrUnexpected, leaf, order, steps;
      }
      var top := depths[TRUNCATE_DIFF - 1];
      assert top in Elems(depths);
      assert IsLeaf(graph, some) && CutPoint(State(), top);
      TopIsInGraph(State(), some, top);
      steps := TruncateAt(top);
      return Nil, leaf, order, steps;
    }

    /** The cut itself: count the founds, store the vertices, settle the funds, delete the vertices. */
    method TruncateAt(top: Hash) returns (ghost steps: seq<Step>)
      requires Valid() && top in graph.vertices
      modifies this`graph, this`stored, this`funds
      ensures Valid() && Took(old(State()), steps, State())
      ensures exists funds' :: steps == [Step.Truncate(top, funds')] && TruncatedWell(old(State()), top, funds')
    {
      hide Inv, Took, Ancestors, CutCountable, Settled, Counted, Truncated, DeleteVertex, Cut, IsLeaf, Distinct;
      ghost var was := State();
      var order := VisitAncestors(graph, top);
      VisitedInBook(was, top, order);
      var fm := CountFounds(State(), order);
      stored := MoveToStorage(graph.vertices, stored, order);
      funds := fm.SaveToStorage(funds);
      var doomed := VisitAncestors(graph, top);
      graph := DeleteAll(graph, doomed);

      forall a | CutCountable(was, Elems(order), a)
        ensures Settled(was, Elems(order), funds, a)
      {
        SavedIsSettled(was, order, fm.m, funds, a);
      }
      TruncatedState(was, top, funds, State());
      TruncateKeepsInv(was, top, funds);
      TookOne(was, Step.Truncate(top, funds));
      steps := [Step.Truncate(top, funds)];
      assert steps == [Step.Truncate(top, funds)] && TruncatedWell(was, top, funds);
    }

    /**
     Builds the book of a node that is not loaded from a stream of vertices; a loaded node refuses and keeps
     its book. After a failure the book is still not loaded, and the next attempt starts from what it left.
     */
    method LoadDag(stream: seq<Vertex>) returns (err: Error)
      requires loaded || Unloaded(State())
      modifies this
      ensures trusted == old(trusted) && everTrusted == old(everTrusted) && memories == old(memories)
      ensures old(loaded) ==> err == ErrDagIsLoaded && Now() == old(Now())
      ensures !old(loaded) ==> weight == Max(old(weight), 50) && throughput == 50
      ensures !old(loaded) && old(weight) <= 50 ==>
        (forall w :: ValidWeight(weight, throughput, w)) && RootsStand(Now(), trusted, verified)
      ensures err == Nil ==> LoadedFrom(old(State()), stream, State())
      ensures !old(loaded) && err != Nil ==> Unloaded(State()) && LeftBehind(old(State()), stream, State())
      ensures !old(loaded) ==> (err == Nil <==> CanLoadInto(old(State()), stream))
    {
      hide CanLoadInto, LoadedFrom, Extends, RootsStand, Unloaded, LeftBehind, ValidWeight, Max;
      if loaded {
        return ErrDagIsLoaded;
      }
      var ok, b := Load(State(), stream);
      graph, stored, index, funds, genesis, loaded := b.graph, b.stored, b.index, b.funds, b.genesis, b.loaded;
      StartOver();
      return if ok then Nil else ErrUnexpected;
    }

    /** The deferred calls of `LoadDag`: whatever was heard before, the throughput starts over. */
    method StartOver()
      modifies this`weight, this`throughput
      ensures weight == Max(old(weight), 50) && throughput == 50
      ensures old(weight) <= 50 ==>
        (forall w :: ValidWeight(weight, throughput, w)) && RootsStand(Now(), trusted, verified)
    {
      hide RootsStand, ValidWeight;
      UpdateWeightAndThroughput(INITIAL_THROUGHPUT);
      throughput := INITIAL_THROUGHPUT;
      if old(weight) <= 50 { AllRootsStand(Now(), trusted, verified); }
    }
  }

  /** An ancestor of a leaf whose past is deep enough. */
  ghost predicate CutPoint(b: Book, top: Hash) {
    exists leaf :: IsLeaf(b.graph, leaf) && top in Ancestors(b.graph.edges, leaf)
                   && |Ancestors(b.graph.edges, leaf)| >= TRUNCATE_DIFF
  }

  /** The cut is made in the graph and the funds stored are the settled ones, when they can be counted. */
  ghost predicate TruncatedWell(b: Book, top: Hash, funds: map<Address, Amount>) {
    var A := Ancestors(b.graph.edges, top);
    top in b.graph.vertices && forall a :: CutCountable(b, A, a) ==> Settled(b, A, funds, a)
  }

  /**
   Seen from a leaf above the whole cut, an address that could be counted before a truncation can be counted
   after it, so its computed balance is its balance both times; they agree exactly when it paid itself nothing
   in the cut and had received enough there.
   */
  lemma ComputedBalanceAfterTruncation(b: Book, top: Hash, funds: map<Address, Amount>, leaf: Hash, a: Address)
    requires Inv(b) && leaf in b.graph.vertices && TruncatedWell(b, top, funds) && Countable(b, leaf, a)
    requires leaf !in Ancestors(b.graph.edges, top)
    requires Ancestors(b.graph.edges, top) <= Ancestors(b.graph.edges, leaf)
    ensures Countable(Truncated(b, top, funds), leaf, a)
    ensures var A := Ancestors(b.graph.edges, top);
      Balance(Truncated(b, top, funds), leaf, a) == Balance(b, leaf, a) <==>
        SelfSent(b.graph.vertices, A, a) == 0 && Outflow(b.graph.vertices, A, a) <= Received(b, A, a)
  {
    hide Acyclic, Indexed, ParentsHeld, Keyed, StoredClosed, EdgesMatch, Held;
    hide Ancestors, Balance, Settled, Countable, CutCountable, SelfSent, Outflow, Received, Truncated;
    CutOfCountable(b, leaf, Ancestors(b.graph.edges, top), a);
    CountableAfterTruncation(b, top, funds, leaf, a);
    TruncationKeepsBalance(b, top, funds, leaf, a);
  }

  /**
   After a truncation the funds of the cut point, and of every leaf whose parents were all cut, are not checked:
   it stands whatever it spends.
   */
  lemma CutLeafStands(b: Book, top: Hash, funds: map<Address, Amount>, leaf: Vertex, m: Moment,
                      trusted: set<Address>, verified: Checker)
    requires Inv(b) && InGraph(b.graph, leaf) && m.book == Truncated(b, top, funds)
    requires leaf.hash !in Ancestors(b.graph.edges, top)
    requires leaf.hash == top || Parents(b.graph.edges, {leaf.hash}) <= Ancestors(b.graph.edges, top)
    ensures Stands(m, trusted, verified, leaf) <==> ValidWeight(m.weight, m.throughput, leaf.weight) && verified(leaf)
  {
    hide Inv, Ancestors, Parents, ParentsVerified, MustPay, IsRoot, Truncated;
    CutMakesRoots(b, top, funds, leaf.hash);
  }

  lemma TopIsInGraph(b: Book, leaf: Hash, top: Hash)
    requires Inv(b) && top in Ancestors(b.graph.edges, leaf)
    ensures top in b.graph.vertices
  {
    hide Ancestors;
    AncestorsInGraph(b, leaf);
  }

  lemma VisitedInBook(b: Book, top: Hash, order: seq<Hash>)
    requires Inv(b) && Elems(order) == Ancestors(b.graph.edges, top)
    ensures Elems(order) <= b.graph.vertices.Keys
    ensures forall i :: 0 <= i < |order| ==> order[i] in b.graph.vertices && order[i] !in b.stored
  {
    hide Ancestors;
    AncestorsInGraph(b, top);
    assert forall i :: 0 <= i < |order| ==> order[i] in Elems(order);
  }

  lemma TruncatedState(b: Book, top: Hash, funds: map<Address, Amount>, now: Book)
    requires Inv(b)
    requires var A := Ancestors(b.graph.edges, top);
      && now.graph == Graph(b.graph.vertices - A, Cut(b.graph.edges, A))
      && (forall h :: h in now.stored <==> h in b.stored || h in A)
      && (forall h :: h in now.stored && h in A ==> h in b.graph.vertices && now.stored[h] == b.graph.vertices[h])
      && (forall h :: h in b.stored && h !in A ==> now.stored[h] == b.stored[h])
    requires now.funds == funds && now.index == b.index && now.genesis == b.genesis && now.loaded == b.loaded
    ensures now == Truncated(b, top, funds)
  {
    hide Ancestors, Acyclic, Indexed, ParentsHeld, Keyed, EdgesMatch, Cut;
    AncestorsInGraph(b, top);
    StoredTogether(b.graph.vertices, b.stored, Ancestors(b.graph.edges, top), now.stored);
  }

  lemma StoredTogether(vertices: map<Hash, Vertex>, stored: map<Hash, Vertex>, A: set<Hash>, now: map<Hash, Vertex>)
    requires A <= vertices.Keys
    requires forall h :: h in now <==> h in stored || h in A
    requires forall h :: h in now && h in A ==> now[h] == vertices[h]
    requires forall h :: h in stored && h !in A ==> now[h] == stored[h]
    ensures now == stored + (map h | h in vertices && h in A :: vertices[h])
  {
  }

  /** `saveVertexToStorage` for each vertex of `order`; none is there already. */
  method MoveToStorage(vertices: map<Hash, Vertex>, stored: map<Hash, Vertex>, order: seq<Hash>)
    returns (now: map<Hash, Vertex>)
    requires forall i :: 0 <= i < |order| ==> order[i] in vertices && order[i] !in stored
    requires Distinct(order)
    ensures forall h :: h in now <==> h in stored || h in Elems(order)
    ensures forall h :: h in now && h in Elems(order) ==> h in vertices && now[h] == vertices[h]
    ensures forall h :: h in stored && h !in Elems(order) ==> now[h] == stored[h]
  {
    now := stored;
    for i := 0 to |order|
      invariant forall h :: h in now <==> h in stored || h in order[..i]
      invariant forall h :: h in now && h in order[..i] ==> h in vertices && now[h] == vertices[h]
      invariant forall h :: h in stored ==> h in now && now[h] == stored[h]
    {
      assert order[i] !in now;
      now := now[order[i] := vertices[order[i]]];
      assert order[..i + 1] == order[..i] + [order[i]];
    }
    assert order[..|order|] == order;
  }

  /** `DeleteVertex` for each hash of `doomed`: the vertices and every edge at them. */
  method DeleteAll(g: Graph, doomed: seq<Hash>) returns (now: Graph)
    ensures now == Graph(g.vertices - Elems(doomed), Cut(g.edges, Elems(doomed)))
  {
    hide Cut;
    now := g;
    CutNothing(g);
    assert doomed[..0] == [];
    for i := 0 to |doomed|
      invariant now == Graph(g.vertices - Elems(doomed[..i]), Cut(g.edges, Elems(doomed[..i])))
    {
      assert doomed[..i + 1] == doomed[..i] + [doomed[i]];
      ElemsSnoc(doomed[..i], doomed[i]);
      CutOneMore(g, Elems(doomed[..i]), doomed[i]);
      now := DeleteVertex(now, doomed[i]);
    }
    assert doomed[..|doomed|] == doomed;
  }

  lemma CutNothing(g: Graph)
    ensures g == Graph(g.vertices - Elems([]), Cut(g.edges, Elems([])))
  {
    assert Elems<Hash>([]) == {};
  }

  lemma CutOneMore(g: Graph, A: set<Hash>, h: Hash)
    ensures DeleteVertex(Graph(g.vertices - A, Cut(g.edges, A)), h)
         == Graph(g.vertices - (A + {h}), Cut(g.edges, A + {h}))
  {
    assert g.vertices - A - {h} == g.vertices - (A + {h});
  }

  /** What was reported for `a` is what the words of a walk from `leaf` give, and its balance if those are clear. */
  ghost predicate BalanceReported(b: Book, leaf: Hash, a: Address, err: Error, s: Amount) {
    && (exists order :: Visit(b, leaf, order) && WordBalance(b, leaf, a, order) == if err == Nil then Some(s) else None)
    && (Clear(b, leaf, a) ==>
         && (err == Nil <==> Countable(b, leaf, a) && Balance(b, leaf, a) >= 0)
         && (err == Nil ==> Normal(s) && Val(s) == Balance(b, leaf, a)))
  }

  /** `now` grew from `was` by `steps`, and stayed solvent. */
  ghost predicate Grew(was: Book, T: set<Address>, steps: seq<Step>, now: Book) {
    Took(was, steps, now) && Grows(steps) && (Solvent(was, T) ==> Solvent(now, T))
  }

  lemma NoStepTook(b: Book)
    ensures Took(b, [], b)
  {
  }

  lemma GrewNone(b: Book, T: set<Address>)
    ensures Grew(b, T, [], b)
  {
    hide Solvent, Took;
    NoStepTook(b);
  }

  lemma GrewByOne(b: Book, T: set<Address>, v: Vertex)
    requires Inv(b) && Attachable(b, v) && (Solvent(b, T) ==> Vetted(b, T, Add(v)))
    ensures Inv(Attach(b, v)) && Grew(b, T, [Add(v)], Attach(b, v))
  {
    hide Inv, Solvent, Took, Attachable, Vetted;
    AttachKeepsInv(b, v);
    TookOne(b, Add(v));
    if Solvent(b, T) { AttachKeepsSolvent(b, T, v); }
  }

  lemma PrunedGrew(was: Book, T: set<Address>, steps: seq<Step>, now: Book)
    requires Pruned(was, steps, now) && (Solvent(was, T) ==> Solvent(now, T))
    ensures Grew(was, T, steps, now)
  {
    hide Solvent, Took;
  }

  lemma GrewMore(a: Book, T: set<Address>, s: seq<Step>, b: Book, t: seq<Step>, c: Book)
    requires Grew(a, T, s, b) && Grew(b, T, t, c)
    ensures Grew(a, T, s + t, c)
  {
    hide Solvent, Took;
    TookMore(a, s, b, t, c);
  }

  lemma LastOf(s: seq<Step>, t: seq<Step>, v: Vertex)
    requires OnlyDrops(s) && (t == [] || t == [Add(v)])
    ensures t == [] ==> s + t == s
    ensures t == [Add(v)] ==> |s + t| > 0 && (s + t)[|s + t| - 1] == Add(v) && OnlyDrops((s + t)[..|s + t| - 1])
  {
    if t != [] { assert (s + t)[..|s + t| - 1] == s; }
  }

  lemma ParentsChosen(b: Book, T: set<Address>, left: Vertex, right: Vertex)
    requires Chosen(b, T, left) && Chosen(b, T, right)
    ensures InGraph(b.graph, left) && InGraph(b.graph, right)
    ensures Covered(b, T, left.hash) && Covered(b, T, right.hash)
  {
  }

  lemma RollbackTo(g: Graph, v: Vertex, now: Graph, E: set<Edge>)
    requires EdgesMatch(g) && v.hash !in g.vertices && forall e :: e in E ==> e.1 == v.hash
    requires now.vertices == g.vertices[v.hash := v] && now.edges == g.edges + E
    ensures DeleteVertex(now, v.hash) == g
  {
    hide EdgesMatch;
    Rollback(g, v, E);
  }

  /** A vertex of the graph that passed validation. */
  ghost predicate Chosen(b: Book, T: set<Address>, v: Vertex) {
    InGraph(b.graph, v) && Covered(b, T, v.hash)
  }

  lemma ChosenNow(b: Book, T: set<Address>, v: Vertex)
    requires InGraph(b.graph, v) && Covered(b, T, v.hash)
    ensures Chosen(b, T, v)
  {
  }

  lemma NoLeavesNoVertices(b: Book)
    requires Inv(b)
    ensures Leaves(b.graph) == {} <==> b.graph.vertices == map[]
  {
    hide Inv;
    if b.graph.vertices != map[] {
      var h :| h in b.graph.vertices;
      var leaf := BelowSomeLeaf(b, h);
    }
  }

  lemma LeafInGraph(b: Book, h: Hash)
    requires Inv(b) && IsLeaf(b.graph, h)
    ensures h in b.graph.vertices && InGraph(b.graph, b.graph.vertices[h]) && b.graph.vertices[h].hash == h
  {
  }

  /** Dropping one leaf leaves the other leaves leaves, and the vertices chosen so far chosen. */
  lemma KeepRest(b: Book, T: set<Address>, h: Hash, rest: set<Hash>, left: Option<Vertex>, right: Option<Vertex>)
    requires Inv(b) && IsLeaf(b.graph, h) && h !in rest && forall k :: k in rest ==> IsLeaf(b.graph, k)
    requires left.Some? ==> Chosen(b, T, left.value) && left.value.hash != h
    requires right.Some? ==> Chosen(b, T, right.value) && right.value.hash != h
    ensures forall k :: k in rest ==> IsLeaf(DropLeaf(b, h).graph, k)
    ensures left.Some? ==> Chosen(DropLeaf(b, h), T, left.value)
    ensures right.Some? ==> Chosen(DropLeaf(b, h), T, right.value)
  {
    hide Inv, Covered;
    forall k | k in rest
      ensures IsLeaf(DropLeaf(b, h).graph, k)
    {
      LeafStays(b, h, k);
    }
    if left.Some? { CoveredAfterDrop(b, T, h, left.value.hash); }
    if right.Some? { CoveredAfterDrop(b, T, h, right.value.hash); }
  }
}
