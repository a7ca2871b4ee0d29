/**
 The in-memory funds of a truncation (precalculate.go): one entry of received and spent for each
 address, filled from storage and from the vertices cut off, then settled and stored.
 */
module Precalculate {
  import opened Dag
  import opened Spice
  import opened Sums
  import opened Ledger
  import opened Supply
  import opened Audit
  import opened Truncation

  datatype Founds = Founds(received: Amount, spent: Amount)

  /** A missing entry reads as the empty one. */
  function EntryOf(m: map<Address, Founds>, a: Address): Founds {
    if a in m then m[a] else Founds(ZERO, ZERO)
  }

  /** What a record worth `x` holds after `s` was added, or refused. */
  function Topped(x: Amount, s: Amount): Amount {
    if Added(x, s).Some? then Added(x, s).value else x
  }

  /** `Supply` on a copy, its error ignored. */
  method Supplied(x: Amount, s: Amount) returns (r: Amount)
    ensures r == Topped(x, s)
    ensures Normal(x) && Normal(s) && Val(x) + Val(s) < LIMIT ==> Normal(r) && Val(r) == Val(x) + Val(s)
  {
    hide Of;
    var m := new Melange(x);
    var _ := m.Supply(s);
    r := m.Get();
  }

  /** `Drain` into nothing, its error ignored: what is left, or everything when it does not suffice. */
  method Drained(e: Founds) returns (r: Amount)
    ensures Left(e, r)
    ensures r == if AtMost(e.spent, e.received) then Taken(e.received, e.spent) else e.received
  {
    hide Of, Taken, AtMost;
    EmptySinkAccepts(e.spent);
    var m := new Melange(e.received);
    var sink := new Melange(ZERO);
    if Normal(e.spent) { ValBelowLimit(e.spent); }
    var _ := m.Drain(e.spent, sink);
    r := m.Get();
  }

  ghost predicate EntryIs(m: map<Address, Founds>, a: Address, received: int, spent: int) {
    var e := EntryOf(m, a);
    Normal(e.received) && Normal(e.spent) && Val(e.received) == received && Val(e.spent) == spent
  }

  /** The vertex can be counted on top of `received` and `spent`. */
  ghost predicate HasRoom(v: Vertex, a: Address, received: int, spent: int) {
    (Concerns(v, a) ==> Normal(v.trx.spice)) && received + In(v, a) < LIMIT && spent + Out(v, a) < LIMIT
  }

  class FundsMemMap {
    var m: map<Address, Founds>

    constructor ()
      ensures m == map[]
    {
      m := map[];
    }

    method Set(address: Address, s: Amount)
      modifies this
      ensures m == old(m)[address := Founds(s, ZERO)]
    {
      m := m[address := Founds(s, ZERO)];
    }

    /** Both entries are read before either is written. */
    method UpdateFounds(issuer: Address, receiver: Address, s: Amount)
      modifies this
      ensures m.Keys == old(m).Keys + {issuer, receiver}
      ensures forall a :: a != issuer && a != receiver ==> EntryOf(m, a) == EntryOf(old(m), a)
      ensures EntryOf(m, receiver).spent == EntryOf(old(m), receiver).spent
      ensures issuer != receiver ==> EntryOf(m, issuer).received == EntryOf(old(m), issuer).received
      ensures EntryOf(m, receiver).received == Topped(EntryOf(old(m), receiver).received, s)
      ensures issuer != receiver ==> EntryOf(m, issuer).spent == Topped(EntryOf(old(m), issuer).spent, s)
      ensures var x := EntryOf(old(m), receiver).received;
        Normal(x) && Normal(s) && Val(x) + Val(s) < LIMIT ==>
          Normal(EntryOf(m, receiver).received) && Val(EntryOf(m, receiver).received) == Val(x) + Val(s)
      ensures var y := EntryOf(old(m), issuer).spent;
        issuer != receiver && Normal(y) && Normal(s) && Val(y) + Val(s) < LIMIT ==>
          Normal(EntryOf(m, issuer).spent) && Val(EntryOf(m, issuer).spent) == Val(y) + Val(s)
    {
      hide Val, Topped;
      var ip, rp := EntryOf(m, issuer), EntryOf(m, receiver);
      var spent := Supplied(ip.spent, s);
      var received := Supplied(rp.received, s);
      m := m[issuer := ip.(spent := spent)];
      m := m[receiver := rp.(received := received)];
    }

    method NextVertex(v: Vertex)
      modifies this
      ensures old(m).Keys <= m.Keys
      ensures forall a, x, y ::
        EntryIs(old(m), a, x, y) && HasRoom(v, a, x, y) ==>
        EntryIs(m, a, x + In(v, a), y + Out(v, a) - Self(v, a))
    {
      hide Val;
      if !IsSpiceTransfer(v.trx) {
        return;
      }
      UpdateFounds(v.trx.issuer, v.trx.receiver, v.trx.spice);
    }

    /** Settles every entry over the funds stored so far. */
    method SaveToStorage(stored: map<Address, Amount>) returns (funds: map<Address, Amount>)
      ensures forall a :: a in funds <==> a in stored || a in m
      ensures forall a :: a in m ==> Left(m[a], funds[a])
      ensures forall a :: a in stored && a !in m ==> funds[a] == stored[a]
    {
      hide Left;
      funds := stored;
      var rest := m.Keys;
      while rest != {}
        invariant rest <= m.Keys
        invariant forall a :: a in funds <==> a in stored || (a in m && a !in rest)
        invariant forall a :: a in m && a !in rest ==> Left(m[a], funds[a])
        invariant forall a :: a in stored && a !in m ==> funds[a] == stored[a]
        decreases |rest|
      {
        var address :| address in rest;
        var left := Drained(m[address]);
        funds := funds[address := left];
        rest := rest - {address};
      }
    }
  }

  /** What `saveToStorage` leaves of an entry. */
  ghost predicate Left(e: Founds, r: Amount) {
    Normal(e.received) && Normal(e.spent) ==>
      Normal(r) && Val(r) == if Val(e.spent) <= Val(e.received) then Val(e.received) - Val(e.spent) else Val(e.received)
  }

  /** Every amount `a` moved in `S` or has in storage is normal, and what it received and spent fits one record. */
  ghost predicate CutCountable(b: Book, S: set<Hash>, a: Address) {
    && NormalFor(b, S, a)
    && (a in b.funds ==> Normal(b.funds[a]))
    && Received(b, S, a) < LIMIT && Outflow(b.graph.vertices, S, a) < LIMIT
  }

  /** The entries after `order` has been counted, for the addresses that can be counted over `S`. */
  ghost predicate Counted(b: Book, S: set<Hash>, order: seq<Hash>, m: map<Address, Founds>) {
    forall a :: CutCountable(b, S, a) ==> EntryIs(m, a, SeqReceived(b, order, a), SeqSpent(b, order, a))
  }

  ghost function SeqReceived(b: Book, order: seq<Hash>, a: Address): int {
    FundsOf(b, a) + SumSeq(order, InOf(b.graph.vertices, a))
  }

  ghost function SeqSpent(b: Book, order: seq<Hash>, a: Address): int {
    SumSeq(order, OutOf(b.graph.vertices, a)) - SumSeq(order, SelfOf(b.graph.vertices, a))
  }

  lemma SeqCounts(b: Book, order: seq<Hash>, a: Address)
    requires Distinct(order)
    ensures SeqReceived(b, order, a) == Received(b, Elems(order), a)
    ensures SeqSpent(b, order, a) == Spent(b, Elems(order), a)
  {
    var V := b.graph.vertices;
    SumSeqIsSum(order, InOf(V, a));
    SumSeqIsSum(order, OutOf(V, a));
    SumSeqIsSum(order, SelfOf(V, a));
  }

  lemma CountNext(b: Book, order: seq<Hash>, i: nat, a: Address)
    requires i < |order| && order[i] in b.graph.vertices
    ensures var v := b.graph.vertices[order[i]];
      && SeqReceived(b, order[..i + 1], a) == SeqReceived(b, order[..i], a) + In(v, a)
      && SeqSpent(b, order[..i + 1], a) == SeqSpent(b, order[..i], a) + Out(v, a) - Self(v, a)
  {
    hide In, Out, Self;
    var V := b.graph.vertices;
    SumSeqNext(order, InOf(V, a), i);
    SumSeqNext(order, OutOf(V, a), i);
    SumSeqNext(order, SelfOf(V, a), i);
  }

  /** Counting part of the cut never exceeds what fits. */
  lemma CountFits(b: Book, order: seq<Hash>, i: nat, a: Address)
    requires Distinct(order) && i < |order| && order[i] in b.graph.vertices && CutCountable(b, Elems(order), a)
    ensures HasRoom(b.graph.vertices[order[i]], a, SeqReceived(b, order[..i], a), SeqSpent(b, order[..i], a))
  {
    hide Val, Normal, Concerns;
    var V, S := b.graph.vertices, Elems(order);
    assert order[i] in S;
    SumSeqPrefix(order, InOf(V, a), i + 1, S);
    SumSeqPrefix(order, OutOf(V, a), i + 1, S);
    SumSeqPrefix(order, SelfOf(V, a), i, S);
    SumSeqNext(order, InOf(V, a), i);
    SumSeqNext(order, OutOf(V, a), i);
    assert Received(b, S, a) < LIMIT && Outflow(V, S, a) < LIMIT;
  }

  /** `forEachfundFromStorage(fm.set)`. */
  method FromStorage(funds: map<Address, Amount>) returns (fm: FundsMemMap)
    ensures fresh(fm) && fm.m.Keys == funds.Keys
    ensures forall a :: a in funds ==> fm.m[a] == Founds(funds[a], ZERO)
  {
    fm := new FundsMemMap();
    var rest := funds.Keys;
    while rest != {}
      invariant rest <= funds.Keys && fm.m.Keys == funds.Keys - rest
      invariant forall a :: a in fm.m ==> fm.m[a] == Founds(funds[a], ZERO)
      decreases |rest|
    {
      var address :| address in rest;
      fm.Set(address, funds[address]);
      rest := rest - {address};
    }
  }

  lemma NothingCounted(b: Book, S: set<Hash>, m: map<Address, Founds>)
    requires m.Keys == b.funds.Keys && forall a :: a in m ==> m[a] == Founds(b.funds[a], ZERO)
    ensures Counted(b, S, [], m)
  {
    hide Val, NormalFor, Received;
    assert Normal(ZERO) && Val(ZERO) == 0 by { ZeroIsNothing(); }
  }

  lemma ZeroIsNothing()
    ensures Normal(ZERO) && Val(ZERO) == 0
  {
  }

  /** The counting of a truncation over the vertices of `order`. */
  method CountFounds(b: Book, order: seq<Hash>) returns (fm: FundsMemMap)
    requires Distinct(order) && Elems(order) <= b.graph.vertices.Keys
    ensures fresh(fm) && b.funds.Keys <= fm.m.Keys
    ensures Counted(b, Elems(order), order, fm.m)
  {
    hide CutCountable, Counted, EntryIs, HasRoom;
    fm := FromStorage(b.funds);
    NothingCounted(b, Elems(order), fm.m);
    assert order[..0] == [];
    for i := 0 to |order|
      invariant fresh(fm) && b.funds.Keys <= fm.m.Keys
      invariant Counted(b, Elems(order), order[..i], fm.m)
    {
      assert order[i] in Elems(order);
      ghost var was := fm.m;
      fm.NextVertex(b.graph.vertices[order[i]]);
      KeepCounting(b, order, i, was, fm.m);
    }
    assert order[..|order|] == order;
  }

  lemma KeepCounting(b: Book, order: seq<Hash>, i: nat, was: map<Address, Founds>, now: map<Address, Founds>)
    requires Distinct(order) && i < |order| && order[i] in b.graph.vertices
    requires Counted(b, Elems(order), order[..i], was)
    requires var v := b.graph.vertices[order[i]];
      forall a, x, y ::
        EntryIs(was, a, x, y) && HasRoom(v, a, x, y) ==>
        EntryIs(now, a, x + In(v, a), y + Out(v, a) - Self(v, a))
    ensures Counted(b, Elems(order), order[..i + 1], now)
  {
    hide CutCountable, EntryIs, In, Out, Self, HasRoom, SeqReceived, SeqSpent;
    var next := order[..i + 1];
    forall a | CutCountable(b, Elems(order), a)
      ensures EntryIs(now, a, SeqReceived(b, next, a), SeqSpent(b, next, a))
    {
      CountFits(b, order, i, a);
      CountNext(b, order, i, a);
    }
  }

  /** Counted and saved, the funds of an address that can be counted are settled. */
  lemma SavedIsSettled(b: Book, order: seq<Hash>, m: map<Address, Founds>, funds: map<Address, Amount>, a: Address)
    requires Distinct(order) && Counted(b, Elems(order), order, m) && CutCountable(b, Elems(order), a)
    requires (a in funds <==> a in m) && (a in m ==> Left(m[a], funds[a]))
    ensures Settled(b, Elems(order), funds, a)
  {
    hide Received, Spent, SeqReceived, SeqSpent, Val, CutCountable;
    SeqCounts(b, order, a);
    ZeroIsNothing();
    assert EntryIs(m, a, SeqReceived(b, order, a), SeqSpent(b, order, a));
  }

  /** What can be counted from a leaf can be counted over any part of its past. */
  lemma CutOfCountable(b: Book, leaf: Hash, S: set<Hash>, a: Address)
    requires Countable(b, leaf, a) && S <= Past(b.graph, leaf)
    ensures CutCountable(b, S, a)
  {
    hide Past, Val, Normal;
    FlowsNonNegative(b, a);
    SumMonotone(S, Past(b.graph, leaf), InOf(b.graph.vertices, a));
    SumMonotone(S, Past(b.graph, leaf), OutOf(b.graph.vertices, a));
  }

  /** After a truncation below the leaf it can still be counted from there, so the next one is settled too. */
  lemma CountableAfterTruncation(b: Book, top: Hash, funds: map<Address, Amount>, leaf: Hash, a: Address)
    requires EdgesMatch(b.graph) && Countable(b, leaf, a)
    requires var A := Ancestors(b.graph.edges, top);
      leaf !in A && A <= Ancestors(b.graph.edges, leaf) && Settled(b, A, funds, a)
    ensures Countable(Truncated(b, top, funds), leaf, a)
  {
    hide EdgesMatch, Ancestors, Val, Normal, SelfSent;
    var A := Ancestors(b.graph.edges, top);
    assert A * Past(b.graph, leaf) == A;
    PastAfterTruncation(b, top, funds, leaf);
    FlowAfterTruncation(b, top, funds, leaf, a);
    SpentWithin(b, A, a);
  }
}
