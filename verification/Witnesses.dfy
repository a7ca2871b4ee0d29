/**
 Small books that show where the code does not do what one might expect of it. Alice receives her units,
 mostly ten, from the genesis vertex; the books differ in what is built on it.
 */
module Witnesses {
  import opened Basics
  import opened Dag
  import opened Spice
  import opened Sums
  import opened Ledger
  import opened Supply
  import opened Audit
  import opened Truncation
  import opened Solvency
  import opened Sync
  import opened Accountant

  function Issue(units: U64): Vertex {
    Vertex(1, "node", Transaction(1, "node", "alice", false, Amount(units, 0)), NO_HASH, NO_HASH, 0)
  }

  function Begin(units: U64): Book {
    WithGenesis(FRESH, Issue(units))
  }

  const GENESIS := Issue(10)

  const START := Begin(10)

  /** A payment signed by another node. */
  function Pay(h: Hash, from: Address, to: Address, units: U64, left: Hash, right: Hash, weight: nat): Vertex {
    Vertex(h, "other", Transaction(h, from, to, false, Amount(units, 0)), left, right, weight)
  }

  lemma GrownPast(b: Book, v: Vertex)
    requires Inv(b) && Attachable(b, v)
    ensures Inv(Attach(b, v))
    ensures forall h :: h in b.graph.vertices ==> Past(Attach(b, v).graph, h) == Past(b.graph, h)
    ensures Past(Attach(b, v).graph, v.hash) == Past(b.graph, v.left) + Past(b.graph, v.right) + {v.hash}
  {
    hide Inv, Attachable, Ancestors;
    AttachKeepsInv(b, v);
    AttachedPast(b, v);
    forall h | h in b.graph.vertices
      ensures Past(Attach(b, v).graph, h) == Past(b.graph, h)
    {
      AttachKeepsPast(b, v, h);
    }
  }

  lemma BeginPast(units: U64)
    ensures Inv(Begin(units)) && Past(Begin(units).graph, 1) == {1}
  {
    hide Inv, Ancestors;
    FreshInv();
    GenesisKeepsInv(FRESH, Issue(units));
    AncestorsLeast({}, 1, {});
  }

  lemma TookTwo(b: Book, v: Vertex, w: Vertex)
    requires Attachable(b, v) && Attachable(Attach(b, v), w)
    ensures Took(b, [Add(v), Add(w)], Attach(Attach(b, v), w))
  {
    hide Attachable, Attach, Took;
    var c := Attach(b, v);
    TookOne(b, Add(v));
    TookOne(c, Add(w));
    TookMore(b, [Add(v)], c, [Add(w)], Attach(c, w));
    assert [Add(v)] + [Add(w)] == [Add(v), Add(w)];
  }

  // ---- data without spice ----

  /**
   A node starts a book and receives a vertex that carries data and no spice: it becomes a leaf, whoever issued it
   and however little they own.
   */
  method DataIsAttached(receiver: Address, verified: Vertex -> bool, refuses: Refusals, note: Vertex)
    returns (book: AccountingBook)
    requires |receiver| >= 49 && receiver != "node" && Reliable(refuses) && forall v :: verified(v)
    requires note.trx.contract && Val(note.trx.spice) == 0 && note.left == 1 && note.right == 1
    requires note.hash > 1 && note.trx.hash != 1 && note.trx.issuer != note.signer && note.trx.issuer != "node"
    ensures fresh(book) && book.graph.vertices.Keys == {1, note.hash} && book.graph.vertices[note.hash] == note
    ensures book.graph.edges == {(1, note.hash)} && book.funds == map[]
  {
    hide Inv, Took, Solvent, ParentRejected, HeardParents, Passed, Grew, OnlyDrops, Leaves, IsEmpty;
    ghost var v;
    book, v := FirstVertex(receiver, verified, refuses);
    ghost var m := book.Now();
    EmptyMeans(note.trx);
    var err;
    ghost var steps;
    err, steps := book.AddLeaf(note);
    GrewTook(m.book, book.everTrusted, steps, book.State());
    GenesisNotRejected(m, v, note, steps, book.Now(), book.trusted, verified);
    TookOnly(m.book, Add(note), steps, book.State());
  }

  method FirstVertex(receiver: Address, verified: Vertex -> bool, refuses: Refusals)
    returns (book: AccountingBook, ghost v: Vertex)
    requires |receiver| >= 49 && receiver != "node"
    ensures fresh(book) && book.Valid() && book.memories == []
    ensures book.signer == "node" && book.verified == verified && book.refuses == refuses
    ensures v.hash == 1 && v.weight == 0 && v.trx.hash == 1 && v.trx.issuer == "node"
    ensures book.State() == WithGenesis(FRESH, v) && book.weight == 50 && book.throughput >= 51
  {
    hide Inv, Took, RootsStand, Leaves;
    book := new AccountingBook("node", verified, refuses);
    var err, first;
    ghost var steps;
    err, first, steps := book.CreateGenesis("first", Amount(10, 0), false, receiver, 1, 1);
    v := first;
    TookOnly(FRESH, Genesis(v), steps, book.State());
  }

  lemma GrewTook(was: Book, T: set<Address>, steps: seq<Step>, now: Book)
    requires Grew(was, T, steps, now)
    ensures Took(was, steps, now)
  {
  }

  lemma TookOnly(b: Book, s: Step, steps: seq<Step>, now: Book)
    requires Took(b, steps, now)
    ensures steps == [] ==> now == b
    ensures steps == [s] ==> Enabled(b, s) && now == After(b, s)
  {
    hide Enabled, After;
    if steps == [s] { OneStep(b, s); }
  }

  lemma GenesisNotRejected(m: Moment, v: Vertex, note: Vertex, steps: seq<Step>, n: Moment,
                           trusted: set<Address>, verified: Checker)
    requires m.book == WithGenesis(FRESH, v) && v.hash == 1 && v.weight <= m.weight <= m.throughput && verified(v)
    requires note.left == 1 && note.right == 1
    ensures !ParentRejected(m, note, steps, n, trusted, verified)
  {
    hide Stands, Leaves, IsLeaf;
    assert Parents(m.book.graph.edges, {v.hash}) == {};
    StandsWhen(m, trusted, verified, v);
    StandsWhen(Passed(m, 1), trusted, verified, v);
  }

  // ---- two payments that do not see each other ----

  function ToBob(x: U64): Vertex {
    Pay(2, "alice", "bob", x, 1, 1, 1)
  }

  function ToCarol(y: U64): Vertex {
    Pay(3, "alice", "carol", y, 1, 1, 1)
  }

  function Half(x: U64): Book {
    Attach(START, ToBob(x))
  }

  /** Alice pays twice on top of the genesis vertex. */
  function Fork(x: U64, y: U64): Book {
    Attach(Half(x), ToCarol(y))
  }

  lemma HalfPast(x: U64)
    requires x > 0
    ensures Attachable(START, ToBob(x)) && Inv(Half(x))
    ensures Past(Half(x).graph, 1) == {1} && Past(Half(x).graph, 2) == {1, 2}
  {
    hide Inv, Past;
    BeginPast(10);
    GrownPast(START, ToBob(x));
  }

  lemma ForkPast(x: U64, y: U64)
    requires x > 0 && y > 0
    ensures Attachable(Half(x), ToCarol(y)) && Inv(Fork(x, y))
    ensures Past(Fork(x, y).graph, 1) == {1}
    ensures Past(Fork(x, y).graph, 2) == {1, 2} && Past(Fork(x, y).graph, 3) == {1, 3}
  {
    hide Inv, Past;
    HalfPast(x);
    GrownPast(Half(x), ToCarol(y));
  }

  /** Bob passes a unit on, in a vertex built on both payments. */
  const JOIN := Pay(4, "bob", "dave", 1, 2, 3, 2)

  const JOINED := Attach(Fork(10, 10), JOIN)

  lemma JoinedPast()
    ensures Attachable(Fork(10, 10), JOIN) && Inv(JOINED) && Past(JOINED.graph, 4) == FOUR
  {
    hide Inv, Past;
    ForkPast(10, 10);
    GrownPast(Fork(10, 10), JOIN);
  }

  lemma SumOfTwo(x: Hash, y: Hash, f: Hash -> int)
    requires x != y
    ensures Sum({x, y}, f) == f(x) + f(y)
  {
    SumTake({x, y}, f, x);
    SumTake({y}, f, y);
    assert {x, y} - {x} == {y} && {y} - {y} == {};
  }

  const FOUR: set<Hash> := {1, 2, 3, 4}

  lemma SumOfFour(f: Hash -> int)
    ensures Sum(FOUR, f) == f(1) + f(2) + f(3) + f(4)
  {
    var S: set<Hash>, R: set<Hash> := {1, 2}, {3, 4};
    SumOfTwo(1, 2, f);
    SumOfTwo(3, 4, f);
    SumUnion(S, R, f);
    assert S + R == FOUR;
  }

  /** The balance over a past of two vertices. */
  lemma BalanceOfTwo(b: Book, g: Hash, h: Hash, a: Address)
    requires Past(b.graph, h) == {g, h} && g != h && g in b.graph.vertices && h in b.graph.vertices && b.funds == map[]
    requires var v, w := b.graph.vertices[g], b.graph.vertices[h];
      && Normal(v.trx.spice) && Normal(w.trx.spice)
      && In(v, a) + In(w, a) < LIMIT && Out(v, a) + Out(w, a) < LIMIT
    ensures Countable(b, h, a)
    ensures var v, w := b.graph.vertices[g], b.graph.vertices[h];
      Balance(b, h, a) == In(v, a) - Out(v, a) + In(w, a) - Out(w, a)
  {
    hide Past, In, Out, Normal, Val, Concerns;
    SumOfTwo(g, h, InOf(b.graph.vertices, a));
    SumOfTwo(g, h, OutOf(b.graph.vertices, a));
  }

  lemma Units(x: U64)
    ensures Normal(Amount(x, 0)) && Val(Amount(x, 0)) == x * PART < LIMIT
  {
  }

  /** What Alice has left, seen from a payment of hers. */
  lemma ForkBalance(x: U64, y: U64)
    requires x > 0 && y > 0
    ensures Countable(Fork(x, y), 2, "alice") && Balance(Fork(x, y), 2, "alice") == (10 - x) * PART
    ensures Countable(Fork(x, y), 3, "alice") && Balance(Fork(x, y), 3, "alice") == (10 - y) * PART
  {
    hide Past, Balance, Countable, Normal, Val;
    ForkPast(x, y);
    Units(10);
    Units(x);
    Units(y);
    BalanceOfTwo(Fork(x, y), 1, 2, "alice");
    BalanceOfTwo(Fork(x, y), 1, 3, "alice");
  }

  lemma JoinedBalance()
    ensures Countable(JOINED, 4, "alice") && Balance(JOINED, 4, "alice") == -10 * PART
  {
    hide Past, Inflow, Outflow, NormalFor;
    JoinedPast();
    JoinedFlows();
    JoinedNormal();
    NetBalance(JOINED, 4, "alice");
  }

  lemma NetBalance(b: Book, h: Hash, a: Address)
    requires b.funds == map[] && NormalFor(b, Past(b.graph, h), a)
    requires Inflow(b.graph.vertices, Past(b.graph, h), a) < LIMIT
    requires Outflow(b.graph.vertices, Past(b.graph, h), a) < LIMIT
    ensures Countable(b, h, a)
    ensures Balance(b, h, a) ==
            Inflow(b.graph.vertices, Past(b.graph, h), a) - Outflow(b.graph.vertices, Past(b.graph, h), a)
  {
  }

  lemma JoinedNormal()
    ensures JOINED.funds == map[] && NormalFor(JOINED, FOUR, "alice")
  {
    hide Normal;
    Units(10);
    Units(1);
  }

  lemma JoinedFlows()
    ensures Inflow(JOINED.graph.vertices, FOUR, "alice") == 10 * PART
    ensures Outflow(JOINED.graph.vertices, FOUR, "alice") == 20 * PART
  {
    hide Val, Sum;
    Units(10);
    var V := JOINED.graph.vertices;
    assert V[1] == GENESIS && V[2] == ToBob(10) && V[3] == ToCarol(10) && V[4] == JOIN;
    SumOfFour(InOf(V, "alice"));
    SumOfFour(OutOf(V, "alice"));
  }

  /**
   Both payments are covered when they are confirmed, and every step is one the operations allow; yet Alice,
   who had ten units, has spent twenty, and every vertex from here on can see it.
   */
  lemma ConfirmedTwice()
    ensures Took(START, [Add(ToBob(10)), Add(ToCarol(10)), Add(JOIN)], JOINED)
    ensures Vetted(START, {}, Add(ToBob(10))) && Vetted(Half(10), {}, Add(ToCarol(10)))
    ensures Vetted(Fork(10, 10), {}, Add(JOIN))
    ensures Countable(JOINED, 4, "alice") && Balance(JOINED, 4, "alice") == -10 * PART
  {
    hide Inv, Past, Attachable, Attach, Balance, Countable, Took;
    HalfPast(10);
    ForkPast(10, 10);
    JoinedPast();
    TookTwo(START, ToBob(10), ToCarol(10));
    TookOne(Fork(10, 10), Add(JOIN));
    TookMore(START, [Add(ToBob(10)), Add(ToCarol(10))], Fork(10, 10), [Add(JOIN)], JOINED);
    assert [Add(ToBob(10)), Add(ToCarol(10))] + [Add(JOIN)] == [Add(ToBob(10)), Add(ToCarol(10)), Add(JOIN)];
    ForkCovered();
    JoinedBalance();
  }

  lemma ForkCovered()
    ensures Vetted(START, {}, Add(ToBob(10))) && Vetted(Half(10), {}, Add(ToCarol(10)))
    ensures Vetted(Fork(10, 10), {}, Add(JOIN))
  {
    hide Balance, Countable, MayPay, Inv, Past;
    ForkPast(10, 10);
    ForkBalance(10, 10);
    CountableIsClear(Fork(10, 10), 2, "alice");
    CountableIsClear(Fork(10, 10), 3, "alice");
    PayingMeans(Fork(10, 10), 2, "alice");
    PayingMeans(Fork(10, 10), 3, "alice");
  }

  // ---- money that comes back ----

  /** Alice pays Bob all she has, gets all of it back and pays Carol one unit. */
  const MUCH: U64 := 10_000_000_000_000_000_000

  const SPENT := Pay(2, "alice", "bob", MUCH, 1, 1, 1)
  const RETURNED := Pay(3, "bob", "alice", MUCH, 2, 2, 2)
  const ONE_MORE := Pay(4, "alice", "carol", 1, 3, 3, 3)

  const RICH := Attach(Attach(Attach(Begin(MUCH), SPENT), RETURNED), ONE_MORE)

  lemma RichPast()
    ensures Took(Begin(MUCH), [Add(SPENT), Add(RETURNED)] + [Add(ONE_MORE)], RICH)
    ensures Inv(RICH) && Past(RICH.graph, 4) == FOUR
  {
    hide Inv, Past, Took;
    var b := Attach(Begin(MUCH), SPENT);
    var c := Attach(b, RETURNED);
    BeginPast(MUCH);
    GrownPast(Begin(MUCH), SPENT);
    GrownPast(b, RETURNED);
    GrownPast(c, ONE_MORE);
    TookTwo(Begin(MUCH), SPENT, RETURNED);
    TookOne(c, Add(ONE_MORE));
    TookMore(Begin(MUCH), [Add(SPENT), Add(RETURNED)], c, [Add(ONE_MORE)], RICH);
  }

  ghost function Pick(R: set<Hash>, x: Hash, f: Hash -> int): int {
    if x in R then f(x) else 0
  }

  lemma TakePick(R: set<Hash>, x: Hash, f: Hash -> int)
    ensures Sum(R, f) == Pick(R, x, f) + Sum(R - {x}, f)
  {
    if x in R { SumTake(R, f, x); } else { assert R - {x} == R; }
  }

  lemma SumOfPart(R: set<Hash>, f: Hash -> int)
    requires R <= FOUR
    ensures Sum(R, f) == Pick(R, 1, f) + Pick(R, 2, f) + Pick(R, 3, f) + Pick(R, 4, f)
  {
    hide Sum;
    TakePick(R, 1, f);
    TakePick(R - {1}, 2, f);
    TakePick(R - {1} - {2}, 3, f);
    TakePick(R - {1} - {2} - {3}, 4, f);
    NothingSums(R - {1} - {2} - {3} - {4}, f);
  }

  lemma NothingSums(S: set<Hash>, f: Hash -> int)
    requires S == {}
    ensures Sum(S, f) == 0
  {
  }

  /** Parts of her past: what Alice received is a multiple of all there is, and what she spent at most a unit more. */
  lemma RichFlows(R: set<Hash>)
    requires R <= FOUR
    ensures Inflow(RICH.graph.vertices, R, "alice") ==
            (if 1 in R then MUCH * PART else 0) + (if 3 in R then MUCH * PART else 0)
    ensures Outflow(RICH.graph.vertices, R, "alice") ==
            (if 2 in R then MUCH * PART else 0) + (if 4 in R then PART else 0)
  {
    hide Val, Sum;
    Units(MUCH);
    Units(1);
    var V := RICH.graph.vertices;
    assert V[1] == Issue(MUCH) && V[2] == SPENT && V[3] == RETURNED && V[4] == ONE_MORE;
    SumOfPart(R, InOf(V, "alice"));
    SumOfPart(R, OutOf(V, "alice"));
  }

  lemma RichIsClear()
    ensures RICH.funds == map[] && Clear(RICH, 4, "alice")
  {
    hide Past, Inflow, Outflow;
    RichPast();
    Units(MUCH);
    Units(1);
    RichNormal();
    forall R | R <= FOUR
      ensures Inflow(RICH.graph.vertices, R, "alice") != LIMIT && Outflow(RICH.graph.vertices, R, "alice") != LIMIT
    {
      RichFlows(R);
    }
  }

  lemma RichNormal()
    ensures NormalFor(RICH, FOUR, "alice")
  {
    hide Normal;
    Units(MUCH);
    Units(1);
  }

  /**
   Alice has all but one unit left, but she received all of it twice, and that sum does not fit a record: no walk
   lets her pay.
   */
  lemma SolventButRefused()
    ensures Took(Begin(MUCH), [Add(SPENT), Add(RETURNED)] + [Add(ONE_MORE)], RICH)
    ensures Clear(RICH, 4, "alice") && Balance(RICH, 4, "alice") == (MUCH - 1) * PART
    ensures !MayPay(RICH, 4, "alice")
  {
    hide Past, Inv, Clear, MayPay, MustPay, Inflow, Outflow, NormalFor, Took;
    RichPast();
    RichIsClear();
    RichFlows(FOUR);
    PayingMeans(RICH, 4, "alice");
  }

  // ---- parts beyond a unit ----

  /** Eight units, and more than eighteen in parts. */
  const IN_PARTS := Vertex(2, "other", Transaction(2, "alice", "bob", false, Amount(8, TWO64 - 1)), 1, 1, 1)

  const SHIFTED := Attach(START, IN_PARTS)

  lemma ShiftedPast()
    ensures Attachable(START, IN_PARTS) && Inv(SHIFTED) && Past(SHIFTED.graph, 2) == {1, 2}
  {
    hide Inv, Past;
    BeginPast(10);
    GrownPast(START, IN_PARTS);
  }

  lemma OnlyOrder(order: seq<Hash>)
    requires Visit(SHIFTED, 2, order)
    ensures order == [1]
  {
    hide Ancestors, Inv;
    ShiftedPast();
    OwnAncestors();
    assert Elems(order) == {1};
    DistinctSize(order);
    assert order[0] in Elems(order);
  }

  lemma OwnAncestors()
    ensures Ancestors(SHIFTED.graph.edges, 2) == {1}
  {
    hide Inv, Past, Ancestors;
    BeginPast(10);
    ShiftedPast();
    AttachedPast(START, IN_PARTS);
  }

  /** The words of both sides: one carry turns the payment into nine units and some parts, less than ten units. */
  lemma ShiftedWords(order: seq<Hash>)
    requires Visit(SHIFTED, 2, order)
    ensures Tallied(Receiving, SHIFTED, 2, "alice", ZERO, order) == Some(Amount(10, 0))
    ensures Tallied(Spending, SHIFTED, 2, "alice", ZERO, order) == Some(Amount(9, TWO64 - 1 - PART))
  {
    hide Visit;
    OnlyOrder(order);
    var b := SHIFTED;
    assert [1][..0] == [] && [1][..1] == [1];
    PouredFirst(Receiving, b, 2, "alice", ZERO, order);
    PouredFirst(Spending, b, 2, "alice", ZERO, order);
    PouredNext(Receiving, b, 2, "alice", ZERO, order, 0);
    PouredNext(Spending, b, 2, "alice", ZERO, order, 0);
    assert b.graph.vertices[1] == GENESIS && b.graph.vertices[2] == IN_PARTS;
  }

  /** With ten units received, a payment of more than twenty-six passes the funds check. */
  lemma PaidInParts()
    ensures Attachable(START, IN_PARTS) && MustPay(SHIFTED, 2, "alice")
    ensures Balance(SHIFTED, 2, "alice") < -16 * PART
  {
    hide Past, Inv, Visit, Tallied, Sum;
    ShiftedPast();
    forall order | Visit(SHIFTED, 2, order)
      ensures Pays(SHIFTED, 2, "alice", order)
    {
      ShiftedWords(order);
    }
    SumOfTwo(1, 2, InOf(SHIFTED.graph.vertices, "alice"));
    SumOfTwo(1, 2, OutOf(SHIFTED.graph.vertices, "alice"));
  }

  // ---- searches for leaves ----

  /** Every signature holds. */
  const ALL: Checker := (v: Vertex) => true

  lemma PaymentIsNoRoot(b: Book, v: Vertex)
    ensures !IsRoot(Attach(b, v).graph, v.hash)
  {
    var e := (v.left, v.hash);
    assert e in Attach(b, v).graph.edges && e.0 in Parents(Attach(b, v).graph.edges, {v.hash});
  }

  /**
   A leaf that stands beside one that does not, whatever weight the book has seen below its throughput: a search
   that meets Bob's payment first and Carol's last finds a valid leaf and fails with the error of the other one.
   */
  lemma FailsDespiteValidLeaf(weight: nat, throughput: nat)
    requires weight < throughput
    ensures Took(START, [Add(ToBob(10)), Add(ToCarol(20))], Fork(10, 20)) && Leaves(Fork(10, 20).graph) == {2, 3}
    ensures Stands(Moment(Fork(10, 20), weight, throughput), {}, ALL, ToBob(10))
    ensures Rejectable(Moment(Fork(10, 20), weight, throughput), Drop(3), {}, ALL)
  {
    hide Past, Balance, Countable, Inv, Took, Attachable, MustPay, MayPay;
    var b := Fork(10, 20);
    HalfPast(10);
    ForkPast(10, 20);
    TookTwo(START, ToBob(10), ToCarol(20));
    ForkBalance(10, 20);
    CountableIsClear(b, 2, "alice");
    CountableIsClear(b, 3, "alice");
    PayingMeans(b, 2, "alice");
    PayingMeans(b, 3, "alice");
    assert (1, 2) in b.graph.edges && (1, 3) in b.graph.edges;
    assert Sources(b.graph.edges) == {1};
    PaymentIsNoRoot(Half(10), ToCarol(20));
  }

  /** More than Alice has, from a node that claims a great weight. */
  const OVERSPENT := Pay(2, "alice", "bob", 20, 1, 1, 1000000)

  lemma OverspentFails()
    ensures Attachable(START, OVERSPENT) && Rejectable(Moment(Attach(START, OVERSPENT), 50, 56), Drop(2), {}, ALL)
  {
    hide Past, Balance, Countable, Inv, Val, Normal, MustPay, MayPay;
    var b := Attach(START, OVERSPENT);
    BeginPast(10);
    GrownPast(START, OVERSPENT);
    Units(10);
    Units(20);
    BalanceOfTwo(b, 1, 2, "alice");
    CountableIsClear(b, 2, "alice");
    PayingMeans(b, 2, "alice");
    PaymentIsNoRoot(START, OVERSPENT);
    assert Sources(b.graph.edges) == {1} by { assert (1, 2) in b.graph.edges; }
  }

  lemma BackToStart()
    ensures Next(Moment(Attach(START, OVERSPENT), 50, 56), 2) == Moment(START, 1000000, 58)
  {
    var b := Attach(START, OVERSPENT);
    assert DropLeaf(b, 2) == START;
    assert Leaves(START.graph) == {1};
  }

  /**
   The weight of a rejected leaf counts, so that after it the genesis vertex is too light and is rejected by
   the next search: the graph is empty, and the search after that finds no leaf to build on.
   */
  lemma GraphRunsEmpty() returns (n: Moment)
    ensures Attachable(START, OVERSPENT)
    ensures Rejected(Moment(Attach(START, OVERSPENT), 50, 56), [Drop(2), Drop(1)], n, {}, ALL)
    ensures n.book.graph.vertices == map[] && n.book.loaded
  {
    hide *;
    OverspentFails();
    BackToStart();
    GenesisTooLight();
    n := TwoRejections(Moment(Attach(START, OVERSPENT), 50, 56), 2, Moment(START, 1000000, 58), 1);
  }

  lemma TwoRejections(m: Moment, h: Hash, k: Moment, g: Hash) returns (n: Moment)
    requires Rejectable(m, Drop(h), {}, ALL) && Next(m, h) == k && Rejectable(k, Drop(g), {}, ALL)
    ensures Rejected(m, [Drop(h), Drop(g)], n, {}, ALL) && n == Next(k, g)
  {
    hide Stands, Next, Rejected, ALL;
    n := Next(k, g);
    RejectedNone(m, {}, ALL);
    RejectedMore(m, [], m, h, {}, ALL);
    assert [] + [Drop(h)] == [Drop(h)];
    RejectedMore(m, [Drop(h)], k, g, {}, ALL);
    assert [Drop(h)] + [Drop(g)] == [Drop(h), Drop(g)];
  }

  lemma GenesisTooLight()
    ensures Rejectable(Moment(START, 1000000, 58), Drop(1), {}, ALL)
    ensures Next(Moment(START, 1000000, 58), 1).book.graph.vertices == map[]
    ensures Next(Moment(START, 1000000, 58), 1).book.loaded
  {
  }

  // ---- loading ----

  /** Two vertices whose left parents are the zero hash. */
  function Unlinked(v: Vertex, w: Vertex, genesis: Address): Book {
    Book(Graph(map[v.hash := v, w.hash := w], {}), map[],
         map[v.trx.hash := v.hash, w.trx.hash := w.hash], map[], genesis, true)
  }

  lemma UnlinkedLoads(v: Vertex, w: Vertex, r: Vertex)
    requires v.hash != w.hash && v.trx.hash != w.trx.hash && v.left == NO_HASH && w.left == NO_HASH
    requires !IsEmpty(v.trx) && !IsEmpty(w.trx) && GenesisCandidate(v) && !GenesisCandidate(w)
    requires r == v || r == w
    ensures LoadedBook([v, w], Unlinked(v, w, r.trx.issuer))
  {
    hide IsEmpty, GenesisCandidate, Acyclic, Enumerates, LoadedEdges, RootIssuer, Indexed;
    var b := Unlinked(v, w, r.trx.issuer);
    UnlinkedStream(v, w, b.graph.vertices);
    FreshInv();
    UnlinkedRoots(v, w, r);
  }

  lemma UnlinkedRoots(v: Vertex, w: Vertex, r: Vertex)
    requires v.hash != w.hash && v.trx.hash != w.trx.hash && (r == v || r == w)
    ensures var b := Unlinked(v, w, r.trx.issuer);
      RootIssuer(b.graph, r.trx.issuer) && Indexed(b.index, b.graph.vertices)
  {
    assert IsRoot(Unlinked(v, w, r.trx.issuer).graph, r.hash);
  }

  lemma UnlinkedStream(v: Vertex, w: Vertex, V: map<Hash, Vertex>)
    requires v.hash != w.hash && v.left == NO_HASH && w.left == NO_HASH && V == map[v.hash := v, w.hash := w]
    ensures Enumerates([v, w], V) && LoadedEdges(V) == {}
  {
    assert Hashes([v, w]) == [v.hash, w.hash];
    assert Elems([v.hash, w.hash]) == V.Keys;
  }

  /** One stream, two roots: the book can take either issuer for the genesis wallet, and is sound with both. */
  lemma GenesisAddressOpen()
    ensures var v, w := GENESIS, Pay(2, "alice", "bob", 1, NO_HASH, NO_HASH, 0);
      && LoadedBook([v, w], Unlinked(v, w, "node")) && LoadedBook([v, w], Unlinked(v, w, "alice"))
      && Inv(Unlinked(v, w, "node")) && Inv(Unlinked(v, w, "alice"))
  {
    hide LoadedBook, LoadedFrom, Inv;
    var v, w := GENESIS, Pay(2, "alice", "bob", 1, NO_HASH, NO_HASH, 0);
    UnlinkedLoads(v, w, v);
    UnlinkedLoads(v, w, w);
    LoadedFresh([v, w], Unlinked(v, w, "node"));
    LoadedFresh([v, w], Unlinked(v, w, "alice"));
    LoadedInv(FRESH, [v, w], Unlinked(v, w, "node"));
    LoadedInv(FRESH, [v, w], Unlinked(v, w, "alice"));
  }

  /** A vertex that names only a right parent is loaded without its edge, and the invariant is broken. */
  lemma HalfParentLoads()
    ensures var v, w := GENESIS, Pay(2, "alice", "bob", 1, NO_HASH, 1, 0);
      LoadedBook([v, w], Unlinked(v, w, "node")) && !Inv(Unlinked(v, w, "node"))
  {
    hide LoadedBook, LoadedFrom, Inv;
    var v, w := GENESIS, Pay(2, "alice", "bob", 1, NO_HASH, 1, 0);
    UnlinkedLoads(v, w, v);
    LoadedFresh([v, w], Unlinked(v, w, "node"));
    LoadedInv(FRESH, [v, w], Unlinked(v, w, "node"));
    assert Unlinked(v, w, "node").graph.vertices[2] == w;
  }

  // ---- truncation ----

  const SELF := Pay(2, "alice", "alice", 5, 1, 1, 1)

  const LAST := Pay(3, "alice", "bob", 1, 2, 2, 2)

  /** Alice pays herself, and then Bob. */
  const SELF_PAID := Attach(Attach(START, SELF), LAST)

  lemma SelfPaidPast()
    ensures Took(START, [Add(SELF), Add(LAST)], SELF_PAID)
    ensures Inv(SELF_PAID) && Ancestors(SELF_PAID.graph.edges, 3) == {1, 2}
  {
    hide Inv, Past, Ancestors, Took;
    BeginPast(10);
    GrownPast(START, SELF);
    var b := Attach(START, SELF);
    GrownPast(b, LAST);
    AttachedPast(b, LAST);
    TookTwo(START, SELF, LAST);
  }

  lemma SelfPaidFlows()
    ensures Received(SELF_PAID, {1, 2}, "alice") == 15 * PART && Spent(SELF_PAID, {1, 2}, "alice") == 0
    ensures SelfSent(SELF_PAID.graph.vertices, {1, 2}, "alice") == 5 * PART
  {
    hide Val, Sum;
    Units(10);
    Units(5);
    var V := SELF_PAID.graph.vertices;
    assert V[1] == GENESIS && V[2] == SELF;
    SumOfTwo(1, 2, InOf(V, "alice"));
    SumOfTwo(1, 2, OutOf(V, "alice"));
    SumOfTwo(1, 2, SelfOf(V, "alice"));
  }

  /** Truncated at the last payment, the book gives Alice back the five units she paid herself. */
  lemma SelfPaymentCountsTwice()
    ensures Took(START, [Add(SELF), Add(LAST)], SELF_PAID)
    ensures var funds := map["alice" := Amount(15, 0)];
      && Settled(SELF_PAID, Ancestors(SELF_PAID.graph.edges, 3), funds, "alice")
      && Balance(Truncated(SELF_PAID, 3, funds), 3, "alice") == Balance(SELF_PAID, 3, "alice") + 5 * PART
  {
    hide Inv, Ancestors, Balance, Truncated, Received, Spent, SelfSent, Val, Normal, Outflow, Took;
    var funds := map["alice" := Amount(15, 0)];
    SelfPaidPast();
    SelfPaidFlows();
    Units(15);
    assert 3 in SELF_PAID.graph.vertices;
    BalanceAfterTruncation(SELF_PAID, 3, funds, 3, "alice");
  }
}
