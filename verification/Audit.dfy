/**
 Walking a vertex's past and adding up its funds (accountant.go:256-414 and 968-1052,
 founds.go). Nothing here changes the book.
 */
module Audit {
  import opened Dag
  import opened Basics
  import opened Spice
  import opened Sums
  import opened Ledger
  import opened Supply

  // ---- walking ----

  /** The library's walker: the strict ancestors in some order. Repetitions are allowed by its contract. */
  method AncestorsWalker(g: Graph, h: Hash) returns (walk: seq<Hash>)
    ensures Elems(walk) == Ancestors(g.edges, h)
  {
    var rest := Ancestors(g.edges, h);
    walk := [];
    while rest != {}
      invariant Elems(walk) + rest == Ancestors(g.edges, h)
      decreases |rest|
    {
      var x :| x in rest;
      rest := rest - {x};
      ElemsSnoc(walk, x);
      walk := walk + [x];
    }
  }

  /** The walk loop with its `visited` map: every strict ancestor once, whatever the walker repeats. */
  method VisitAncestors(g: Graph, h: Hash) returns (order: seq<Hash>)
    ensures Distinct(order) && Elems(order) == Ancestors(g.edges, h)
  {
    var walk := AncestorsWalker(g, h);
    var visited: set<Hash> := {};
    order := [];
    for i := 0 to |walk|
      invariant Distinct(order) && Elems(order) == visited == Elems(walk[..i])
    {
      assert walk[..i + 1] == walk[..i] + [walk[i]];
      ElemsSnoc(walk[..i], walk[i]);
      if walk[i] !in visited {
        visited := visited + {walk[i]};
        ElemsSnoc(order, walk[i]);
        order := order + [walk[i]];
      }
    }
    assert walk[..|walk|] == walk;
  }

  // ---- pouring funds ----

  datatype Verdict = Sound | Overflowed | Unverified | Overspent

  /** The two sums kept for an address. */
  datatype Side = Receiving | Spending

  function Party(side: Side, v: Vertex): Address {
    if side == Receiving then v.trx.receiver else v.trx.issuer
  }

  /** What the vertex adds to one side of `a`. */
  ghost function SideFlow(side: Side, V: map<Hash, Vertex>, a: Address): Hash -> int {
    if side == Receiving then InOf(V, a) else OutOf(V, a)
  }

  /** One side after the vertex, in words; nothing once an addition was refused. */
  function Pour(side: Side, r: Option<Amount>, v: Vertex, a: Address): Option<Amount> {
    if r.Some? && IsSpiceTransfer(v.trx) && Party(side, v) == a then Added(r.value, v.trx.spice) else r
  }

  function Poured(side: Side, V: map<Hash, Vertex>, a: Address, start: Amount, hs: seq<Hash>): Option<Amount>
    requires forall i :: 0 <= i < |hs| ==> hs[i] in V
  {
    if hs == [] then Some(start)
    else Pour(side, Poured(side, V, a, start, hs[..|hs| - 1]), V[hs[|hs| - 1]], a)
  }

  method PourFunds(a: Address, v: Vertex, spiceIn: Melange, spiceOut: Melange) returns (ok: bool)
    requires spiceIn != spiceOut
    modifies spiceIn, spiceOut
    ensures var x := Pour(Receiving, Some(old(spiceIn.Get())), v, a);
      var y := Pour(Spending, Some(old(spiceOut.Get())), v, a);
      (ok <==> x.Some? && y.Some?) && (ok ==> x == Some(spiceIn.Get()) && y == Some(spiceOut.Get()))
  {
    hide Plus, Added;
    if !IsSpiceTransfer(v.trx) {
      return true;
    }
    if v.trx.issuer == a {
      var err := spiceOut.Supply(v.trx.spice);
      if err != Err.Ok { return false; }
    }
    if v.trx.receiver == a {
      var err := spiceIn.Supply(v.trx.spice);
      if err != Err.Ok { return false; }
    }
    return true;
  }

  /** `out` is at most `in`, by words; by value for amounts in normal form. */
  method CheckHasSufficientFunds(spiceIn: Melange, spiceOut: Melange) returns (ok: bool)
    requires spiceIn != spiceOut
    modifies spiceIn
    ensures ok <==> AtMost(spiceOut.Get(), old(spiceIn.Get()))
    ensures Normal(old(spiceIn.Get())) && Normal(spiceOut.Get()) ==>
      (ok <==> Val(spiceOut.Get()) <= Val(old(spiceIn.Get())))
  {
    hide Of, Move, Plus;
    ComparisonAgrees(spiceOut.Get(), spiceIn.Get());
    var sink := new Melange(New(0, 0));
    var err := spiceIn.Drain(spiceOut.Get(), sink);
    ok := err == Err.Ok;
  }

  // ---- the words of a past ----

  /** The strict ancestors of `h`, each once, in some order. */
  ghost predicate Walk(g: Graph, h: Hash, order: seq<Hash>) {
    Distinct(order) && Elems(order) == Ancestors(g.edges, h)
  }

  /** The vertex `h` and then the rest of its past, all of it in the graph. */
  ghost predicate Visit(b: Book, h: Hash, order: seq<Hash>) {
    h in b.graph.vertices && Walk(b.graph, h, order) && forall i :: 0 <= i < |order| ==> order[i] in b.graph.vertices
  }

  /** One side of `a` over the past of `h`. */
  ghost function Tallied(side: Side, b: Book, h: Hash, a: Address, start: Amount, order: seq<Hash>): Option<Amount>
    requires Visit(b, h, order)
  {
    Poured(side, b.graph.vertices, a, start, [h] + order)
  }

  /** `readAddressFundsFromStorage`, with an empty amount for an unknown address. */
  function StoredFunds(b: Book, a: Address): Amount {
    if a in b.funds then b.funds[a] else ZERO
  }

  /** The funds check on the words the walk adds up. */
  ghost predicate Pays(b: Book, h: Hash, a: Address, order: seq<Hash>)
    requires Visit(b, h, order)
  {
    var s := StoredFunds(b, a);
    var x := Tallied(Receiving, b, h, a, New(s.currency, s.supplementary), order);
    var y := Tallied(Spending, b, h, a, ZERO, order);
    x.Some? && y.Some? && AtMost(y.value, x.value)
  }

  /** The last two operations of `CalculateBalance`: add the inflow to the stored funds, then take the outflow. */
  function Settling(stored: Amount, spiceIn: Amount, spiceOut: Amount): Option<Amount> {
    match Added(stored, spiceIn)
    case None => None
    case Some(sum) => if AtMost(spiceOut, sum) then Some(Taken(sum, spiceOut)) else None
  }

  /** The balance computed from those words. */
  ghost function WordBalance(b: Book, h: Hash, a: Address, order: seq<Hash>): Option<Amount>
    requires Visit(b, h, order)
  {
    var x, y := Tallied(Receiving, b, h, a, ZERO, order), Tallied(Spending, b, h, a, ZERO, order);
    if x.None? || y.None? then None else Settling(StoredFunds(b, a), x.value, y.value)
  }

  /** The check passes for some order of the walk, and for every order. */
  ghost predicate MayPay(b: Book, h: Hash, a: Address) {
    exists order :: Visit(b, h, order) && Pays(b, h, a, order)
  }

  ghost predicate MustPay(b: Book, h: Hash, a: Address) {
    forall order :: Visit(b, h, order) ==> Pays(b, h, a, order)
  }

  lemma {:induction false} SomeOrder<T>(S: set<T>) returns (order: seq<T>)
    ensures Distinct(order) && Elems(order) == S
    decreases |S|
  {
    if S == {} {
      order := [];
    } else {
      var x :| x in S;
      var rest := SomeOrder(S - {x});
      ElemsSnoc(rest, x);
      order := rest + [x];
    }
  }

  lemma VisitFits(b: Book, h: Hash, order: seq<Hash>)
    requires Inv(b) && h in b.graph.vertices && Walk(b.graph, h, order)
    ensures Visit(b, h, order)
    ensures forall i :: 0 <= i < |order| ==>
      order[i] in b.graph.vertices && b.graph.vertices[order[i]].hash == order[i]
  {
    hide Ancestors, Acyclic, ParentsHeld, Indexed, StoredClosed;
    AncestorsInGraph(b, h);
    assert forall i :: 0 <= i < |order| ==> order[i] in Elems(order);
  }

  lemma SomeVisit(b: Book, h: Hash) returns (order: seq<Hash>)
    requires Inv(b) && h in b.graph.vertices
    ensures Visit(b, h, order)
  {
    hide Inv, Ancestors;
    order := SomeOrder(Ancestors(b.graph.edges, h));
    VisitFits(b, h, order);
  }

  // ---- what the words mean ----

  ghost predicate NormalFor(b: Book, S: set<Hash>, a: Address) {
    forall k :: k in S && k in b.graph.vertices && Concerns(b.graph.vertices[k], a) ==>
      Normal(b.graph.vertices[k].trx.spice)
  }

  /** Every amount `a` moved in the past of `h` is normal, and what it received and spent there fits one record. */
  ghost predicate Countable(b: Book, h: Hash, a: Address) {
    && NormalFor(b, Past(b.graph, h), a)
    && (a in b.funds ==> Normal(b.funds[a]))
    && FundsOf(b, a) + Inflow(b.graph.vertices, Past(b.graph, h), a) < LIMIT
    && Outflow(b.graph.vertices, Past(b.graph, h), a) < LIMIT
  }

  /** No part of `S` brings a sum to exactly what one record cannot hold any more. */
  ghost predicate NeverBrimful(b: Book, S: set<Hash>, a: Address) {
    forall R :: R <= S ==>
      && Inflow(b.graph.vertices, R, a) != LIMIT && FundsOf(b, a) + Inflow(b.graph.vertices, R, a) != LIMIT
      && Outflow(b.graph.vertices, R, a) != LIMIT
  }

  /** Every amount `a` moved in the past of `h` is normal, and no sum over it meets the gap in the overflow guard. */
  ghost predicate Clear(b: Book, h: Hash, a: Address) {
    && NormalFor(b, Past(b.graph, h), a)
    && (a in b.funds ==> Normal(b.funds[a]))
    && NeverBrimful(b, Past(b.graph, h), a)
  }

  lemma FlowsNonNegative(b: Book, a: Address)
    ensures forall k :: InOf(b.graph.vertices, a)(k) >= 0
    ensures forall k :: OutOf(b.graph.vertices, a)(k) >= 0
  {
  }

  lemma CountableIsClear(b: Book, h: Hash, a: Address)
    requires Countable(b, h, a)
    ensures Clear(b, h, a)
  {
    hide Past, Val, Normal, NormalFor;
    FlowsNonNegative(b, a);
    forall R | R <= Past(b.graph, h)
      ensures Inflow(b.graph.vertices, R, a) <= Inflow(b.graph.vertices, Past(b.graph, h), a)
      ensures Outflow(b.graph.vertices, R, a) <= Outflow(b.graph.vertices, Past(b.graph, h), a)
    {
      SumMonotone(R, Past(b.graph, h), InOf(b.graph.vertices, a));
      SumMonotone(R, Past(b.graph, h), OutOf(b.graph.vertices, a));
    }
  }

  /** `r` holds the total `t`, or nothing because the total does not fit. */
  ghost predicate Holds(r: Option<Amount>, t: int) {
    if t < LIMIT then r.Some? && Normal(r.value) && Val(r.value) == t else r.None?
  }

  lemma AddedHolds(r: Option<Amount>, t: int, a: Amount)
    requires Holds(r, t) && Normal(a) && t + Val(a) != LIMIT
    ensures Holds(if r.Some? then Added(r.value, a) else None, t + Val(a))
  {
    hide Added, Of, New;
    if r.Some? { AddedIsPlus(r.value, a); }
  }

  /** The vertices of `hs` add up, while no sum on the way is exactly the limit. */
  ghost predicate Summable(side: Side, V: map<Hash, Vertex>, a: Address, start: int, hs: seq<Hash>) {
    && (forall i :: 0 <= i < |hs| ==> hs[i] in V && (Concerns(V[hs[i]], a) ==> Normal(V[hs[i]].trx.spice)))
    && (forall i :: 0 <= i <= |hs| ==> start + SumSeq(hs[..i], SideFlow(side, V, a)) != LIMIT)
  }

  lemma SummablePrefix(side: Side, V: map<Hash, Vertex>, a: Address, start: int, hs: seq<Hash>)
    requires hs != [] && Summable(side, V, a, start, hs)
    ensures Summable(side, V, a, start, hs[..|hs| - 1]) && forall i :: 0 <= i < |hs| ==> hs[i] in V
    ensures hs[|hs| - 1] in V && start + SumSeq(hs, SideFlow(side, V, a)) != LIMIT
    ensures Concerns(V[hs[|hs| - 1]], a) ==> Normal(V[hs[|hs| - 1]].trx.spice)
  {
    hide SumSeq, SideFlow, Concerns;
    var p := hs[..|hs| - 1];
    assert hs[..|hs|] == hs;
    assert forall i :: 0 <= i <= |p| ==> p[..i] == hs[..i];
  }

  /** Words poured one after the other hold the sum, or nothing exactly when it does not fit. */
  lemma {:induction false} PouredHolds(side: Side, V: map<Hash, Vertex>, a: Address, start: Amount, hs: seq<Hash>)
    requires Normal(start) && Summable(side, V, a, Val(start), hs)
    ensures Holds(Poured(side, V, a, start, hs), Val(start) + SumSeq(hs, SideFlow(side, V, a)))
  {
    hide Added, Normal, Val, Summable, Empty, Holds;
    if hs == [] {
      StartHolds(start);
    } else {
      SummablePrefix(side, V, a, Val(start), hs);
      var p, v := hs[..|hs| - 1], V[hs[|hs| - 1]];
      PouredHolds(side, V, a, start, p);
      var r, t := Poured(side, V, a, start, p), Val(start) + SumSeq(p, SideFlow(side, V, a));
      if IsSpiceTransfer(v.trx) && Party(side, v) == a {
        AddedHolds(r, t, v.trx.spice);
      } else {
        NothingPoured(side, V, a, hs[|hs| - 1]);
      }
    }
  }

  lemma NothingPoured(side: Side, V: map<Hash, Vertex>, a: Address, h: Hash)
    requires h in V && !(IsSpiceTransfer(V[h].trx) && Party(side, V[h]) == a)
    ensures SideFlow(side, V, a)(h) == 0
  {
  }

  lemma StartHolds(start: Amount)
    requires Normal(start)
    ensures Holds(Some(start), Val(start))
  {
    ValBelowLimit(start);
  }

  ghost predicate Partial(b: Book, start: int, a: Address) {
    start == 0 || start == FundsOf(b, a)
  }

  lemma VisitDistinct(b: Book, h: Hash, order: seq<Hash>)
    requires Inv(b) && Visit(b, h, order)
    ensures Distinct([h] + order) && Elems([h] + order) == Past(b.graph, h)
  {
    hide Ancestors, EdgesMatch, ParentsHeld, StoredClosed, Indexed, Keyed;
    forall i | 0 <= i < |order|
      ensures order[i] != h
    {
      assert order[i] in Elems(order);
    }
    forall x | x in Elems(order)
      ensures x in Elems([h] + order)
    {
      var i :| 0 <= i < |order| && order[i] == x;
      assert ([h] + order)[i + 1] == x;
    }
    assert ([h] + order)[0] == h;
  }

  lemma {:induction false} DistinctPrefix<T>(s: seq<T>, i: nat)
    requires i <= |s| && Distinct(s)
    ensures Distinct(s[..i]) && Elems(s[..i]) <= Elems(s)
  {
  }

  lemma PrefixSum(b: Book, h: Hash, order: seq<Hash>, i: nat, f: Hash -> int)
    requires Inv(b) && Visit(b, h, order) && i <= |[h] + order|
    ensures Elems(([h] + order)[..i]) <= Past(b.graph, h)
    ensures SumSeq(([h] + order)[..i], f) == Sum(Elems(([h] + order)[..i]), f)
  {
    hide Inv, Past, Sum, SumSeq, Distinct, Elems, Visit;
    VisitDistinct(b, h, order);
    DistinctPrefix([h] + order, i);
    SumSeqIsSum(([h] + order)[..i], f);
  }

  lemma VisitSummable(side: Side, b: Book, h: Hash, a: Address, start: int, order: seq<Hash>)
    requires Inv(b) && Visit(b, h, order) && Clear(b, h, a) && Partial(b, start, a)
    requires side == Spending ==> start == 0
    ensures Summable(side, b.graph.vertices, a, start, [h] + order)
  {
    hide Inv, Past, Sum, SumSeq, Normal, Val, Concerns, FundsOf;
    var hs, V := [h] + order, b.graph.vertices;
    VisitDistinct(b, h, order);
    forall i | 0 <= i < |hs|
      ensures hs[i] in V && (Concerns(V[hs[i]], a) ==> Normal(V[hs[i]].trx.spice))
    {
      assert hs[i] in Elems(hs);
    }
    forall i | 0 <= i <= |hs|
      ensures start + SumSeq(hs[..i], SideFlow(side, V, a)) != LIMIT
    {
      PrefixSum(b, h, order, i, SideFlow(side, V, a));
      BelowTheBrim(side, b, Past(b.graph, h), a, start, Elems(hs[..i]));
    }
  }

  lemma BelowTheBrim(side: Side, b: Book, S: set<Hash>, a: Address, start: int, R: set<Hash>)
    requires NeverBrimful(b, S, a) && Partial(b, start, a) && R <= S && (side == Spending ==> start == 0)
    ensures start + Sum(R, SideFlow(side, b.graph.vertices, a)) != LIMIT
  {
    assert Inflow(b.graph.vertices, R, a) != LIMIT && Outflow(b.graph.vertices, R, a) != LIMIT;
  }

  /** One side of the walk holds its sum over the past, whatever the order. */
  lemma TalliedHolds(side: Side, b: Book, h: Hash, a: Address, start: Amount, order: seq<Hash>)
    requires Inv(b) && Visit(b, h, order) && Clear(b, h, a) && Normal(start) && Partial(b, Val(start), a)
    requires side == Spending ==> Val(start) == 0
    ensures Holds(Tallied(side, b, h, a, start, order),
                  Val(start) + Sum(Past(b.graph, h), SideFlow(side, b.graph.vertices, a)))
  {
    hide Inv, Past, Sum, SumSeq, Clear, Val, Normal, Holds, Poured, SideFlow, Visit;
    var hs := [h] + order;
    VisitSummable(side, b, h, a, Val(start), order);
    PouredHolds(side, b.graph.vertices, a, start, hs);
    VisitDistinct(b, h, order);
    SumSeqIsSum(hs, SideFlow(side, b.graph.vertices, a));
  }

  lemma StoredNormal(b: Book, h: Hash, a: Address)
    requires Clear(b, h, a)
    ensures var s := StoredFunds(b, a);
      Normal(s) && Val(s) == FundsOf(b, a) && New(s.currency, s.supplementary) == s
    ensures Normal(ZERO) && Val(ZERO) == 0
  {
    hide NeverBrimful, NormalFor;
  }

  /**
   The funds check passes exactly when both sums over the leaf and its whole past fit a record and what was
   received, stored funds included, covers what was spent; whatever the order of the walk.
   */
  lemma PaysMeans(b: Book, h: Hash, a: Address, order: seq<Hash>)
    requires Inv(b) && Visit(b, h, order) && Clear(b, h, a)
    ensures Pays(b, h, a, order) <==> Countable(b, h, a) && Balance(b, h, a) >= 0
  {
    hide Inv, Past, Sum, Val, Normal, NormalFor, NeverBrimful, Visit, Tallied, New, AtMost;
    var s := StoredFunds(b, a);
    StoredNormal(b, h, a);
    TalliedHolds(Receiving, b, h, a, s, order);
    TalliedHolds(Spending, b, h, a, ZERO, order);
    var x, y := Tallied(Receiving, b, h, a, s, order), Tallied(Spending, b, h, a, ZERO, order);
    if x.Some? && y.Some? { ComparisonAgrees(y.value, x.value); }
  }

  /** The balance is computed exactly when it is not negative and the sums fit, and is then exact. */
  lemma WordBalanceMeans(b: Book, h: Hash, a: Address, order: seq<Hash>)
    requires Inv(b) && Visit(b, h, order) && Clear(b, h, a)
    ensures var r := WordBalance(b, h, a, order);
      && (r.Some? <==> Countable(b, h, a) && Balance(b, h, a) >= 0)
      && (r.Some? ==> Normal(r.value) && Val(r.value) == Balance(b, h, a))
  {
    hide Inv, Past, Sum, Val, Normal, NormalFor, Visit, Tallied, Settling, NeverBrimful;
    StoredNormal(b, h, a);
    TalliedHolds(Receiving, b, h, a, ZERO, order);
    TalliedHolds(Spending, b, h, a, ZERO, order);
    var x, y := Tallied(Receiving, b, h, a, ZERO, order), Tallied(Spending, b, h, a, ZERO, order);
    NeverBrimfulWhole(b, h, a);
    FlowsAreNat(b, h, a);
    if x.Some? && y.Some? { SettlingMeans(StoredFunds(b, a), x.value, y.value); }
  }

  /** So no order makes a difference. */
  lemma PayingMeans(b: Book, h: Hash, a: Address)
    requires Inv(b) && h in b.graph.vertices && Clear(b, h, a)
    ensures MayPay(b, h, a) <==> Countable(b, h, a) && Balance(b, h, a) >= 0
    ensures MustPay(b, h, a) <==> Countable(b, h, a) && Balance(b, h, a) >= 0
  {
    hide Inv, Visit, Pays, Clear, Countable, Balance;
    forall order | Visit(b, h, order)
      ensures Pays(b, h, a, order) <==> Countable(b, h, a) && Balance(b, h, a) >= 0
    {
      PaysMeans(b, h, a, order);
    }
    var order := SomeVisit(b, h);
    assert Pays(b, h, a, order) <==> Countable(b, h, a) && Balance(b, h, a) >= 0;
  }

  lemma NeverBrimfulWhole(b: Book, h: Hash, a: Address)
    requires Clear(b, h, a)
    ensures FundsOf(b, a) + Inflow(b.graph.vertices, Past(b.graph, h), a) != LIMIT
  {
    hide Past, NormalFor;
  }

  lemma FlowsAreNat(b: Book, h: Hash, a: Address)
    ensures Inflow(b.graph.vertices, Past(b.graph, h), a) >= 0
    ensures Outflow(b.graph.vertices, Past(b.graph, h), a) >= 0
  {
    hide Past;
    SumNonNegative(Past(b.graph, h), InOf(b.graph.vertices, a));
    SumNonNegative(Past(b.graph, h), OutOf(b.graph.vertices, a));
  }

  lemma SettlingMeans(stored: Amount, spiceIn: Amount, spiceOut: Amount)
    requires Normal(stored) && Normal(spiceIn) && Normal(spiceOut) && Val(stored) + Val(spiceIn) != LIMIT
    ensures var r := Settling(stored, spiceIn, spiceOut);
      && (r.Some? <==> Val(stored) + Val(spiceIn) < LIMIT && Val(spiceOut) <= Val(stored) + Val(spiceIn))
      && (r.Some? ==> Normal(r.value) && Val(r.value) == Val(stored) + Val(spiceIn) - Val(spiceOut))
  {
    hide Added, Of, Taken, New;
    AddedIsPlus(stored, spiceIn);
    var sum := Added(stored, spiceIn);
    if sum.Some? {
      ComparisonAgrees(spiceOut, sum.value);
      if AtMost(spiceOut, sum.value) { TakenMeans(sum.value, spiceOut); }
    }
  }

  lemma TakenMeans(m: Amount, a: Amount)
    requires Normal(m) && Normal(a) && AtMost(a, m)
    ensures Normal(Taken(m, a)) && Val(Taken(m, a)) == Val(m) - Val(a)
  {
  }

  // ---- signatures of the parents ----

  ghost predicate ParentsVerified(b: Book, leaf: Vertex, verified: Vertex -> bool) {
    forall p :: p in b.graph.vertices && IsParent(p, leaf) ==> verified(b.graph.vertices[p])
  }

  ghost predicate ParentsVerifiedUpTo(b: Book, leaf: Vertex, verified: Vertex -> bool, order: seq<Hash>, i: nat)
    requires i <= |order|
  {
    forall j :: 0 <= j < i && order[j] in b.graph.vertices && IsParent(order[j], leaf) ==>
      verified(b.graph.vertices[order[j]])
  }

  lemma NextVerified(b: Book, leaf: Vertex, verified: Vertex -> bool, order: seq<Hash>, i: nat)
    requires i < |order| && ParentsVerifiedUpTo(b, leaf, verified, order, i) && order[i] in b.graph.vertices
    ensures var v := b.graph.vertices[order[i]];
      if IsParent(order[i], leaf) && !verified(v) then !ParentsVerified(b, leaf, verified)
      else ParentsVerifiedUpTo(b, leaf, verified, order, i + 1)
  {
  }

  lemma NoneVerified(b: Book, leaf: Vertex, verified: Vertex -> bool, order: seq<Hash>)
    ensures ParentsVerifiedUpTo(b, leaf, verified, order, 0)
  {
  }

  lemma AllParentsVisited(b: Book, leaf: Vertex, verified: Vertex -> bool, order: seq<Hash>)
    requires Inv(b) && Visit(b, leaf.hash, order) && b.graph.vertices[leaf.hash] == leaf
    requires ParentsVerifiedUpTo(b, leaf, verified, order, |order|)
    ensures ParentsVerified(b, leaf, verified)
  {
    hide Ancestors, Acyclic, ParentsHeld, Indexed, Keyed, StoredClosed;
    forall p | p in b.graph.vertices && IsParent(p, leaf)
      ensures verified(b.graph.vertices[p])
    {
      assert (p, leaf.hash) in b.graph.edges;
      EdgeGivesAncestor(b.graph.edges, p, leaf.hash);
      assert p in Elems(order);
    }
  }

  // ---- the two walks ----

  lemma PouredNext(side: Side, b: Book, h: Hash, a: Address, start: Amount, order: seq<Hash>, i: nat)
    requires Visit(b, h, order) && i < |order|
    ensures Poured(side, b.graph.vertices, a, start, [h] + order[..i + 1]) ==
            Pour(side, Poured(side, b.graph.vertices, a, start, [h] + order[..i]), b.graph.vertices[order[i]], a)
  {
    hide Pour, Walk;
    var hs := [h] + order[..i + 1];
    assert hs[..|hs| - 1] == [h] + order[..i] && hs[|hs| - 1] == order[i];
  }

  lemma PouredFirst(side: Side, b: Book, h: Hash, a: Address, start: Amount, order: seq<Hash>)
    requires Visit(b, h, order)
    ensures Poured(side, b.graph.vertices, a, start, [h] + order[..0]) ==
            Pour(side, Some(start), b.graph.vertices[h], a)
  {
    hide Pour, Walk;
    var hs := [h] + order[..0];
    assert hs == [h] && hs[..0] == [];
    assert Poured(side, b.graph.vertices, a, start, hs[..0]) == Some(start);
  }

  /** Once refused, a side stays refused. */
  lemma {:induction false} PouredFails(side: Side, b: Book, h: Hash, a: Address, start: Amount, order: seq<Hash>,
                                      i: nat)
    requires Visit(b, h, order) && i <= |order|
    requires Poured(side, b.graph.vertices, a, start, [h] + order[..i]).None?
    ensures Tallied(side, b, h, a, start, order).None?
    decreases |order| - i
  {
    hide Poured, Visit;
    if i == |order| {
      assert order[..i] == order;
    } else {
      PouredNext(side, b, h, a, start, order, i);
      PouredFails(side, b, h, a, start, order, i + 1);
    }
  }

  /** Both sides hold what was poured up to `i`. */
  ghost predicate Pouring(b: Book, h: Hash, a: Address, start: Amount, order: seq<Hash>, i: nat, x: Amount, y: Amount)
    requires Visit(b, h, order) && i <= |order|
  {
    && Poured(Receiving, b.graph.vertices, a, start, [h] + order[..i]) == Some(x)
    && Poured(Spending, b.graph.vertices, a, ZERO, [h] + order[..i]) == Some(y)
  }

  lemma PouringFirst(b: Book, h: Hash, a: Address, start: Amount, order: seq<Hash>)
    requires Visit(b, h, order)
    ensures var v := b.graph.vertices[h];
      var x, y := Pour(Receiving, Some(start), v, a), Pour(Spending, Some(ZERO), v, a);
      if x.Some? && y.Some? then Pouring(b, h, a, start, order, 0, x.value, y.value)
      else Tallied(Receiving, b, h, a, start, order).None? || Tallied(Spending, b, h, a, ZERO, order).None?
  {
    hide Poured, Pour, Walk;
    PouredFirst(Receiving, b, h, a, start, order);
    PouredFirst(Spending, b, h, a, ZERO, order);
    var v := b.graph.vertices[h];
    if Pour(Receiving, Some(start), v, a).None? { PouredFails(Receiving, b, h, a, start, order, 0); }
    if Pour(Spending, Some(ZERO), v, a).None? { PouredFails(Spending, b, h, a, ZERO, order, 0); }
  }

  lemma PouringNext(b: Book, h: Hash, a: Address, start: Amount, order: seq<Hash>, i: nat, x: Amount, y: Amount)
    requires Visit(b, h, order) && i < |order| && Pouring(b, h, a, start, order, i, x, y)
    ensures var v := b.graph.vertices[order[i]];
      var x', y' := Pour(Receiving, Some(x), v, a), Pour(Spending, Some(y), v, a);
      if x'.Some? && y'.Some? then Pouring(b, h, a, start, order, i + 1, x'.value, y'.value)
      else Tallied(Receiving, b, h, a, start, order).None? || Tallied(Spending, b, h, a, ZERO, order).None?
  {
    hide Poured, Pour, Walk;
    PouredNext(Receiving, b, h, a, start, order, i);
    PouredNext(Spending, b, h, a, ZERO, order, i);
    var v := b.graph.vertices[order[i]];
    if Pour(Receiving, Some(x), v, a).None? { PouredFails(Receiving, b, h, a, start, order, i + 1); }
    if Pour(Spending, Some(y), v, a).None? { PouredFails(Spending, b, h, a, ZERO, order, i + 1); }
  }

  lemma PouringDone(b: Book, h: Hash, a: Address, start: Amount, order: seq<Hash>, x: Amount, y: Amount)
    requires Visit(b, h, order) && Pouring(b, h, a, start, order, |order|, x, y)
    ensures Tallied(Receiving, b, h, a, start, order) == Some(x) && Tallied(Spending, b, h, a, ZERO, order) == Some(y)
  {
    hide Poured, Visit;
    assert order[..|order|] == order;
  }

  /** The funds check of `validateLeaf` on a spice transfer, with the order its walk took. */
  method CheckFunds(b: Book, leaf: Vertex, verified: Vertex -> bool) returns (verdict: Verdict, ghost order: seq<Hash>)
    requires Inv(b) && leaf.hash in b.graph.vertices && b.graph.vertices[leaf.hash] == leaf
    ensures Visit(b, leaf.hash, order)
    ensures verdict == Sound <==> ParentsVerified(b, leaf, verified) && Pays(b, leaf.hash, leaf.trx.issuer, order)
    ensures Clear(b, leaf.hash, leaf.trx.issuer) ==>
      (verdict == Sound <==>
         ParentsVerified(b, leaf, verified)
         && Countable(b, leaf.hash, leaf.trx.issuer) && Balance(b, leaf.hash, leaf.trx.issuer) >= 0)
  {
    hide Inv, Ancestors, Visit, Clear, Countable, Balance, Pouring, Tallied, Pour, Plus, AtMost, Normal, Val;
    hide ParentsVerified, ParentsVerifiedUpTo, Added, New, IsParent, StoredFunds;
    var a, h := leaf.trx.issuer, leaf.hash;
    var walk := VisitAncestors(b.graph, h);
    order := walk;
    VisitFits(b, h, walk);
    if Clear(b, h, a) { PaysMeans(b, h, a, order); }
    var spiceOut := new Melange(New(0, 0));
    var spiceIn := new Melange(New(0, 0));
    FromNothing(StoredFunds(b, a));
    var err := spiceIn.Supply(StoredFunds(b, a));
    if err != Err.Ok {
      return Overflowed, order;
    }
    ghost var start := spiceIn.Get();
    PouringFirst(b, h, a, start, order);
    var ok := PourFunds(a, leaf, spiceIn, spiceOut);
    if !ok {
      return Overflowed, order;
    }
    NoneVerified(b, leaf, verified, order);
    for i := 0 to |walk|
      invariant fresh(spiceIn) && fresh(spiceOut)
      invariant Pouring(b, h, a, start, order, i, spiceIn.Get(), spiceOut.Get())
      invariant ParentsVerifiedUpTo(b, leaf, verified, order, i)
    {
      var vrx := b.graph.vertices[walk[i]];
      NextVerified(b, leaf, verified, order, i);
      if IsParent(vrx.hash, leaf) && !verified(vrx) {
        return Unverified, order;
      }
      PouringNext(b, h, a, start, order, i, spiceIn.Get(), spiceOut.Get());
      ok := PourFunds(a, vrx, spiceIn, spiceOut);
      if !ok {
        return Overflowed, order;
      }
    }
    AllParentsVisited(b, leaf, verified, order);
    PouringDone(b, h, a, start, order, spiceIn.Get(), spiceOut.Get());
    ok := CheckHasSufficientFunds(spiceIn, spiceOut);
    verdict := if ok then Sound else Overspent;
  }

  /** Supplying an empty record never fails. */
  lemma FromNothing(s: Amount)
    ensures New(0, 0) == ZERO && Added(New(0, 0), s) == Some(New(s.currency, s.supplementary))
  {
  }

  method Settle(stored: Amount, spiceIn: Amount, spiceOut: Amount) returns (ok: bool, s: Amount)
    ensures Settling(stored, spiceIn, spiceOut) == if ok then Some(s) else None
  {
    hide Added, Taken, AtMost, Plus, Move;
    var m := new Melange(stored);
    var err := m.Supply(spiceIn);
    if err != Err.Ok {
      return false, ZERO;
    }
    var sink := new Melange(ZERO);
    EmptySinkAccepts(spiceOut);
    err := m.Drain(spiceOut, sink);
    return err == Err.Ok, m.Get();
  }

  lemma EmptySinkAccepts(a: Amount)
    ensures Accepts(ZERO, a)
  {
  }

  /** `CalculateBalance` from the leaf `h`: the balance of `a`, or a refusal. */
  method BalanceFrom(b: Book, h: Hash, a: Address) returns (ok: bool, s: Amount, ghost order: seq<Hash>)
    requires Inv(b) && h in b.graph.vertices
    ensures Visit(b, h, order) && WordBalance(b, h, a, order) == if ok then Some(s) else None
    ensures Clear(b, h, a) ==>
      && (ok <==> Countable(b, h, a) && Balance(b, h, a) >= 0)
      && (ok ==> Normal(s) && Val(s) == Balance(b, h, a))
  {
    hide Inv, Ancestors, Visit, Clear, Countable, Balance, Pouring, Tallied, Pour, Normal, Val, Settling;
    var walk := VisitAncestors(b.graph, h);
    order := walk;
    VisitFits(b, h, walk);
    if Clear(b, h, a) { WordBalanceMeans(b, h, a, order); }
    var spiceOut := new Melange(New(0, 0));
    var spiceIn := new Melange(New(0, 0));
    PouringFirst(b, h, a, ZERO, order);
    ok := PourFunds(a, b.graph.vertices[h], spiceIn, spiceOut);
    if !ok {
      return false, ZERO, order;
    }
    for i := 0 to |walk|
      invariant fresh(spiceIn) && fresh(spiceOut)
      invariant Pouring(b, h, a, ZERO, order, i, spiceIn.Get(), spiceOut.Get())
    {
      PouringNext(b, h, a, ZERO, order, i, spiceIn.Get(), spiceOut.Get());
      ok := PourFunds(a, b.graph.vertices[walk[i]], spiceIn, spiceOut);
      if !ok {
        return false, ZERO, order;
      }
    }
    PouringDone(b, h, a, ZERO, order, spiceIn.Get(), spiceOut.Get());
    ok, s := Settle(StoredFunds(b, a), spiceIn.Get(), spiceOut.Get());
  }
}
