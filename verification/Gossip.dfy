/**
 Flooding one vertex or one transaction through the network (src/gossip/gossip.go).

 `GossipNode` is a node's handler for one hash, with the loops of the Go code. `Net` is the whole
 network for that hash: any finite set of nodes, any topology, messages delivered in any order, and
 a flashback memory that may forget at any time. Signatures are ideal: an entry of a gossiper list
 verifies exactly when it is `genuine`. Messages are not lost, and connections do not change.
 */
module Gossip {
  import opened Sums

  type Node = string

  datatype Gossiper = Gossiper(address: Node, genuine: bool)

  datatype Kind = Vrx | Trx

  /** What the node's own store answers: for a vertex `AddLeaf`, for a transaction its check and the cache. */
  datatype Outcome = Added | AlreadyPresent | Unsaved | Refused

  /** A vertex is passed on only when it was new; a transaction unless its signature is bad. */
  predicate Relays(k: Kind, o: Outcome) {
    o == Added || (k == Trx && o != Refused)
  }

  /** The nodes a handler passes the item on to: none when the hash is remembered or the node is on the list. */
  function Targets(k: Kind, nodes: set<Node>, known: bool, address: Node, seen: set<Node>, answer: Outcome): set<Node> {
    if !known && address !in seen && Relays(k, answer) then nodes - (seen + {address}) else {}
  }

  /** The verified addresses of a gossiper list. */
  function Verified(list: seq<Gossiper>): set<Node> {
    set g | g in list && g.genuine :: g.address
  }

  class GossipNode {
    const address: Node
    /** Addresses of the connected nodes. */
    var nodes: set<Node>
    /** The flashback memory still knows the hash. */
    var flash: bool

    constructor (address: Node, nodes: set<Node>)
      ensures this.address == address && this.nodes == nodes && !flash
    {
      this.address, this.nodes, flash := address, nodes, false;
    }

    /** Entries that do not verify are left out. */
    method VerifyGossipers(list: seq<Gossiper>) returns (m: map<Node, Gossiper>)
      ensures m.Keys == Verified(list)
      ensures forall a :: a in m ==> m[a] == Gossiper(a, true)
    {
      m := map[];
      for i := 0 to |list|
        invariant m.Keys == Verified(list[..i])
        invariant forall a :: a in m ==> m[a] == Gossiper(a, true)
      {
        VerifiedSnoc(list[..i], list[i]);
        assert list[..i + 1] == list[..i] + [list[i]];
        if list[i].genuine {
          m := m[list[i].address := list[i]];
        }
      }
      assert list[..|list|] == list;
    }

    /** The list sent on: every entry of the set, each once. */
    method ToSlice(m: map<Node, Gossiper>) returns (s: seq<Gossiper>)
      requires forall a :: a in m ==> m[a] == Gossiper(a, true)
      ensures Verified(s) == m.Keys && |s| == |m|
    {
      s := [];
      var rest := m.Keys;
      while rest != {}
        invariant rest <= m.Keys && Verified(s) == m.Keys - rest && |s| + |rest| == |m|
        decreases |rest|
      {
        var a :| a in rest;
        VerifiedSnoc(s, m[a]);
        s := s + [m[a]];
        rest := rest - {a};
      }
    }

    /** One message to every connected node that is not in the set. */
    method Spread(known: set<Node>) returns (targets: seq<Node>)
      ensures Distinct(targets) && Elems(targets) == nodes - known
    {
      targets := [];
      var rest := nodes;
      while rest != {}
        invariant rest <= nodes && Distinct(targets) && Elems(targets) == (nodes - rest) - known
        decreases |rest|
      {
        var a :| a in rest;
        rest := rest - {a};
        if a !in known {
          ElemsSnoc(targets, a);
          targets := targets + [a];
        }
      }
    }

    /** Both handlers: nothing when the hash is remembered or the node is on the list; else store and pass on. */
    method Receive(k: Kind, gossipers: seq<Gossiper>, answer: Outcome) returns (list: seq<Gossiper>, targets: seq<Node>)
      modifies this`flash
      ensures flash && Distinct(targets)
      ensures Elems(targets) == Targets(k, nodes, old(flash), address, Verified(gossipers), answer)
      ensures old(flash) || address in Verified(gossipers) ==> targets == []
      ensures answer == Refused || (k == Vrx && answer != Added) ==> targets == []
      ensures !old(flash) && address !in Verified(gossipers) && (answer == Added || (k == Trx && answer != Refused)) ==>
        Elems(targets) == nodes - Verified(gossipers) - {address}
      ensures targets != [] ==> Verified(list) == Verified(gossipers) + {address}
    {
      var known := flash;
      flash := true;
      if known {
        return [], [];
      }
      var m := VerifyGossipers(gossipers);
      if address in m || !Relays(k, answer) {
        return [], [];
      }
      ghost var was := m.Keys;
      m := m[address := Gossiper(address, true)];
      assert m.Keys == was + {address};
      list := ToSlice(m);
      targets := Spread(m.Keys);
    }
  }

  lemma VerifiedSnoc(list: seq<Gossiper>, g: Gossiper)
    ensures Verified(list + [g]) == if g.genuine then Verified(list) + {g.address} else Verified(list)
  {
    var now := list + [g];
    forall a | a in Verified(list)
      ensures a in Verified(now)
    {
      var x :| x in list && x.genuine && x.address == a;
      assert x in now;
    }
    if g.genuine { assert g in now; }
  }

  // ---- the network ----

  /** `seen` is the verified gossiper list the message carries. */
  datatype Msg = Msg(to: Node, seen: set<Node>)

  /** `holds` are the nodes that stored the item, `passed` those that passed it on. */
  datatype Net = Net(holds: set<Node>, passed: set<Node>, flash: set<Node>, msgs: seq<Msg>)

  /** Who is connected to whom; connections lead to known nodes. */
  ghost predicate Topology(peers: map<Node, set<Node>>) {
    forall n :: n in peers ==> peers[n] <= peers.Keys
  }

  function Sent(targets: seq<Node>, seen: set<Node>): (ms: seq<Msg>)
    ensures |ms| == |targets|
  {
    seq(|targets|, i requires 0 <= i < |targets| => Msg(targets[i], seen))
  }

  datatype Event = Deliver(i: nat, answer: Outcome, targets: seq<Node>) | Forget(n: Node)

  /** The nodes a delivered message is passed on to. */
  ghost function Fanout(k: Kind, peers: map<Node, set<Node>>, net: Net, m: Msg, answer: Outcome): set<Node>
    requires m.to in peers
  {
    Targets(k, peers[m.to], m.to in net.flash, m.to, m.seen, answer)
  }

  /** The handler ran at all. */
  ghost predicate Handled(net: Net, m: Msg) {
    m.to !in net.flash && m.to !in m.seen
  }

  /** The nodes whose store may refuse the item, and those where it may fail to be saved. */
  datatype Faults = Faults(refusing: set<Node>, unsaving: set<Node>)

  /** The nodes that may not pass the item on: for a transaction, a failed save is no reason. */
  function Blocked(k: Kind, F: Faults): set<Node> {
    if k == Trx then F.refusing else F.refusing + F.unsaving
  }

  /** A handler's store answers truthfully, and only faulty nodes ever fail. */
  ghost predicate Answers(net: Net, e: Event, F: Faults) {
    e.Deliver? && e.i < |net.msgs| && Handled(net, net.msgs[e.i]) ==>
      && (e.answer == AlreadyPresent ==> net.msgs[e.i].to in net.holds)
      && (e.answer == Unsaved ==> net.msgs[e.i].to in F.unsaving)
      && (e.answer == Refused ==> net.msgs[e.i].to in F.refusing)
  }

  ghost predicate Enabled(k: Kind, peers: map<Node, set<Node>>, net: Net, e: Event) {
    e.Deliver? ==>
      && e.i < |net.msgs| && net.msgs[e.i].to in peers
      && Distinct(e.targets) && Elems(e.targets) == Fanout(k, peers, net, net.msgs[e.i], e.answer)
  }

  function Without(msgs: seq<Msg>, i: nat): seq<Msg>
    requires i < |msgs|
  {
    msgs[..i] + msgs[i + 1..]
  }

  ghost function After(k: Kind, peers: map<Node, set<Node>>, net: Net, e: Event): Net
    requires Enabled(k, peers, net, e)
  {
    match e
    case Forget(n) => net.(flash := net.flash - {n})
    case Deliver(i, answer, targets) =>
      var m := net.msgs[i];
      Net(if Handled(net, m) && answer == Added then net.holds + {m.to} else net.holds,
          if Handled(net, m) && Relays(k, answer) then net.passed + {m.to} else net.passed,
          net.flash + {m.to},
          Without(net.msgs, i) + Sent(targets, m.seen + {m.to}))
  }

  ghost predicate Legal(k: Kind, peers: map<Node, set<Node>>, net: Net, es: seq<Event>)
    decreases |es|
  {
    es != [] ==> Enabled(k, peers, net, es[0]) && Legal(k, peers, After(k, peers, net, es[0]), es[1..])
  }

  ghost function Run(k: Kind, peers: map<Node, set<Node>>, net: Net, es: seq<Event>): Net
    requires Legal(k, peers, net, es)
    decreases |es|
  {
    if es == [] then net else Run(k, peers, After(k, peers, net, es[0]), es[1..])
  }

  /** The originator holds the item and has sent it to all its peers. */
  ghost predicate Originated(peers: map<Node, set<Node>>, o: Node, net: Net) {
    && o in peers && net.holds == {o} && net.passed == {o} && net.flash == {}
    && exists targets :: Distinct(targets) && Elems(targets) == peers[o] - {o} && net.msgs == Sent(targets, {o})
  }

  // ---- no message goes to a node on its own list ----

  ghost predicate Sane(peers: map<Node, set<Node>>, net: Net) {
    forall i :: 0 <= i < |net.msgs| ==>
      net.msgs[i].to in peers && net.msgs[i].to !in net.msgs[i].seen && net.msgs[i].seen <= peers.Keys
  }

  lemma SentSane(peers: map<Node, set<Node>>, targets: seq<Node>, seen: set<Node>)
    requires Elems(targets) <= peers.Keys - seen && seen <= peers.Keys
    ensures forall i :: 0 <= i < |Sent(targets, seen)| ==>
      Sent(targets, seen)[i].to in peers && Sent(targets, seen)[i].to !in seen && Sent(targets, seen)[i].seen == seen
  {
    forall i | 0 <= i < |targets|
      ensures targets[i] in peers && targets[i] !in seen
    {
      assert targets[i] in Elems(targets);
    }
  }

  lemma StepKeepsSane(k: Kind, peers: map<Node, set<Node>>, net: Net, e: Event)
    requires Topology(peers) && Sane(peers, net) && Enabled(k, peers, net, e)
    ensures Sane(peers, After(k, peers, net, e))
  {
    hide Relays;
    if e.Deliver? {
      var m := net.msgs[e.i];
      SentSane(peers, e.targets, m.seen + {m.to});
    }
  }

  lemma OriginatedSane(peers: map<Node, set<Node>>, o: Node, net: Net)
    requires Topology(peers) && Originated(peers, o, net)
    ensures Sane(peers, net)
  {
    var targets :| Distinct(targets) && Elems(targets) == peers[o] - {o} && net.msgs == Sent(targets, {o});
    SentSane(peers, targets, {o});
  }

  // ---- flooding ends ----

  /** The most deliveries a message can cause, itself included, with `k` nodes not on its list. */
  function Work(k: nat): (w: nat)
    ensures k >= 1 ==> w >= 1
  {
    if k == 0 then 0 else 1 + (k - 1) * Work(k - 1)
  }

  ghost function WorkOf(peers: map<Node, set<Node>>): Msg -> int {
    (m: Msg) => Work(|peers.Keys - m.seen|)
  }

  ghost function Potential(peers: map<Node, set<Node>>, net: Net): int {
    SumSeq(net.msgs, WorkOf(peers))
  }

  lemma {:induction false} SumSeqConcat<T(!new)>(s: seq<T>, t: seq<T>, f: T -> int)
    ensures SumSeq(s + t, f) == SumSeq(s, f) + SumSeq(t, f)
  {
    if t == [] {
      assert s + t == s;
    } else {
      var u := t[..|t| - 1];
      SumSeqConcat(s, u, f);
      assert (s + t)[..|s + t| - 1] == s + u;
    }
  }

  lemma SumWithout(msgs: seq<Msg>, i: nat, f: Msg -> int)
    requires i < |msgs|
    ensures SumSeq(Without(msgs, i), f) == SumSeq(msgs, f) - f(msgs[i])
  {
    SumSeqConcat(msgs[..i], msgs[i + 1..], f);
    SumSeqConcat(msgs[..i], msgs[i..], f);
    assert msgs[..i] + msgs[i..] == msgs;
    SumSeqConcat([msgs[i]], msgs[i + 1..], f);
    assert [msgs[i]] + msgs[i + 1..] == msgs[i..];
    assert SumSeq([msgs[i]], f) == SumSeq([msgs[i]][..0], f) + f(msgs[i]);
  }

  lemma {:induction false} SumOfEqual(ms: seq<Msg>, f: Msg -> int, w: int)
    requires forall i :: 0 <= i < |ms| ==> f(ms[i]) == w
    ensures SumSeq(ms, f) == |ms| * w
  {
    if ms != [] {
      SumOfEqual(ms[..|ms| - 1], f, w);
      assert |ms| * w == (|ms| - 1) * w + w;
    }
  }

  /** Messages to nodes outside `seen` weigh at most one message less the delivery that caused them. */
  lemma SentWork(peers: map<Node, set<Node>>, targets: seq<Node>, seen: set<Node>, to: Node)
    requires to in peers && to !in seen && Distinct(targets)
    requires Elems(targets) <= peers.Keys - (seen + {to})
    ensures SumSeq(Sent(targets, seen + {to}), WorkOf(peers)) <= Work(|peers.Keys - seen|) - 1
  {
    hide Work, SumSeq, Distinct, Elems;
    var k := |peers.Keys - seen|;
    OneFewer(peers.Keys, seen, to);
    SumOfEqual(Sent(targets, seen + {to}), WorkOf(peers), Work(k - 1));
    DistinctSize(targets);
    SubsetSize(Elems(targets), peers.Keys - (seen + {to}));
    WorkStep(k, |targets|);
  }

  lemma OneFewer(K: set<Node>, seen: set<Node>, to: Node)
    requires to in K && to !in seen
    ensures |K - (seen + {to})| == |K - seen| - 1
  {
    assert K - (seen + {to}) == K - seen - {to};
  }

  lemma WorkStep(k: nat, n: nat)
    requires k >= 1 && n <= k - 1
    ensures n * Work(k - 1) <= Work(k) - 1
  {
    TimesMonotone(n, k - 1, Work(k - 1));
  }

  lemma TimesMonotone(n: nat, m: nat, w: nat)
    requires n <= m
    ensures n * w <= m * w
  {
    assert m * w == n * w + (m - n) * w;
  }

  /** Every delivery uses up potential; forgetting costs nothing. */
  lemma StepUsesPotential(k: Kind, peers: map<Node, set<Node>>, net: Net, e: Event)
    requires Topology(peers) && Sane(peers, net) && Enabled(k, peers, net, e)
    ensures Potential(peers, After(k, peers, net, e)) <= Potential(peers, net) - (if e.Deliver? then 1 else 0)
  {
    hide Work, Relays, SumSeq;
    if e.Deliver? {
      var m := net.msgs[e.i];
      var f := WorkOf(peers);
      SumWithout(net.msgs, e.i, f);
      SentWork(peers, e.targets, m.seen, m.to);
      SumSeqConcat(Without(net.msgs, e.i), Sent(e.targets, m.seen + {m.to}), f);
    }
  }

  function Deliveries(es: seq<Event>): nat {
    if es == [] then 0 else (if es[0].Deliver? then 1 else 0) + Deliveries(es[1..])
  }

  lemma {:induction false} RunUsesPotential(k: Kind, peers: map<Node, set<Node>>, net: Net, es: seq<Event>)
    requires Topology(peers) && Sane(peers, net) && Legal(k, peers, net, es)
    ensures Sane(peers, Run(k, peers, net, es))
    ensures Deliveries(es) + Potential(peers, Run(k, peers, net, es)) <= Potential(peers, net)
    decreases |es|
  {
    hide Enabled, After, Sane, Topology, Potential;
    if es != [] {
      StepKeepsSane(k, peers, net, es[0]);
      StepUsesPotential(k, peers, net, es[0]);
      RunUsesPotential(k, peers, After(k, peers, net, es[0]), es[1..]);
    }
  }

  lemma PotentialNonNegative(peers: map<Node, set<Node>>, net: Net)
    ensures Potential(peers, net) >= 0
  {
    NonNegativeSeq(net.msgs, WorkOf(peers));
  }

  lemma {:induction false} NonNegativeSeq(ms: seq<Msg>, f: Msg -> int)
    requires forall m :: f(m) >= 0
    ensures SumSeq(ms, f) >= 0
  {
    if ms != [] { NonNegativeSeq(ms[..|ms| - 1], f); }
  }

  /**
   From an originator, a vertex or a transaction is delivered a bounded number of times, whatever the
   topology, the order of delivery, the stores' answers and the forgetting.
   */
  lemma FloodingEnds(k: Kind, peers: map<Node, set<Node>>, o: Node, net: Net, es: seq<Event>)
    requires Topology(peers) && Originated(peers, o, net) && Legal(k, peers, net, es)
    ensures Deliveries(es) < Work(|peers.Keys|)
  {
    hide Enabled, After, Work;
    OriginatedSane(peers, o, net);
    RunUsesPotential(k, peers, net, es);
    PotentialNonNegative(peers, Run(k, peers, net, es));
    var targets :| Distinct(targets) && Elems(targets) == peers[o] - {o} && net.msgs == Sent(targets, {o});
    SentWork(peers, targets, {}, o);
    assert {} + {o} == {o} && peers.Keys - {} == peers.Keys;
  }

  // ---- and quickly, as long as the hash is remembered ----

  /** How often node `n` passes the item on. */
  ghost function Sends(k: Kind, peers: map<Node, set<Node>>, net: Net, es: seq<Event>, n: Node): nat
    requires Legal(k, peers, net, es)
    decreases |es|
  {
    if es == [] then 0
    else (if es[0].Deliver? && net.msgs[es[0].i].to == n && es[0].targets != [] then 1 else 0)
         + Sends(k, peers, After(k, peers, net, es[0]), es[1..], n)
  }

  function Forgets(es: seq<Event>, n: Node): nat {
    if es == [] then 0 else (if es[0] == Forget(n) then 1 else 0) + Forgets(es[1..], n)
  }

  /** A node passes the item on once, and again at most once for each time it forgot the hash. */
  lemma {:induction false} PassedOnce(k: Kind, peers: map<Node, set<Node>>, net: Net, es: seq<Event>, n: Node)
    requires Legal(k, peers, net, es)
    ensures Sends(k, peers, net, es, n) <= (if n in net.flash then 0 else 1) + Forgets(es, n)
    decreases |es|
  {
    if es != [] {
      hide Relays;
      PassedOnce(k, peers, After(k, peers, net, es[0]), es[1..], n);
      if es[0].Deliver? && net.msgs[es[0].i].to == n && n in net.flash {
        NoTargets(es[0].targets);
      }
    }
  }

  lemma NoTargets(targets: seq<Node>)
    ensures Elems(targets) == {} ==> targets == []
  {
    if targets != [] { assert targets[0] in Elems(targets); }
  }

  /** The number of connections of a node. */
  ghost function Degree(peers: map<Node, set<Node>>): Node -> int {
    (n: Node) => if n in peers then |peers[n]| else 0
  }

  /** The nodes that may still pass the item on: not the originator, whom every list names. */
  ghost function Fresh(peers: map<Node, set<Node>>, o: Node, net: Net): set<Node> {
    peers.Keys - {o} - net.flash
  }

  ghost predicate NamesOrigin(o: Node, net: Net) {
    forall i :: 0 <= i < |net.msgs| ==> o in net.msgs[i].seen
  }

  /** The deliveries still to come, unless something is forgotten. */
  ghost function Left(peers: map<Node, set<Node>>, o: Node, net: Net): int {
    |net.msgs| + Sum(Fresh(peers, o, net), Degree(peers))
  }

  lemma StepKeepsOrigin(k: Kind, peers: map<Node, set<Node>>, o: Node, net: Net, e: Event)
    requires Enabled(k, peers, net, e) && NamesOrigin(o, net)
    ensures NamesOrigin(o, After(k, peers, net, e))
  {
    hide Relays, Fanout;
  }

  lemma FewTargets(peers: map<Node, set<Node>>, n: Node, targets: seq<Node>)
    requires n in peers && Distinct(targets) && Elems(targets) <= peers[n]
    ensures |targets| <= Degree(peers)(n)
  {
    DistinctSize(targets);
    SubsetSize(Elems(targets), peers[n]);
  }

  lemma DeliveryLeaves(k: Kind, peers: map<Node, set<Node>>, o: Node, net: Net, e: Event)
    requires Sane(peers, net) && NamesOrigin(o, net) && Enabled(k, peers, net, e) && e.Deliver?
    ensures Left(peers, o, After(k, peers, net, e)) <= Left(peers, o, net) - 1
  {
    hide Sum, Relays, Distinct, Elems;
    var n, now := net.msgs[e.i].to, After(k, peers, net, e);
    if n in net.flash {
      assert Fresh(peers, o, now) == Fresh(peers, o, net);
      NoTargets(e.targets);
    } else {
      FewTargets(peers, n, e.targets);
      SumTake(Fresh(peers, o, net), Degree(peers), n);
      assert Fresh(peers, o, now) == Fresh(peers, o, net) - {n};
    }
  }

  lemma ForgettingCosts(k: Kind, peers: map<Node, set<Node>>, o: Node, net: Net, n: Node)
    ensures Left(peers, o, After(k, peers, net, Forget(n))) <= Left(peers, o, net) + Degree(peers)(n)
  {
    hide Sum;
    var now := After(k, peers, net, Forget(n));
    if n in peers && n != o && n in net.flash {
      SumAdd(Fresh(peers, o, net), Degree(peers), n);
      assert Fresh(peers, o, now) == Fresh(peers, o, net) + {n};
    } else {
      assert Fresh(peers, o, now) == Fresh(peers, o, net);
    }
  }

  /** The connections of the nodes that forgot the hash, once for each time. */
  ghost function Forgotten(peers: map<Node, set<Node>>, es: seq<Event>): nat {
    if es == [] then 0
    else (match es[0] case Forget(n) => Degree(peers)(n) case Deliver(_, _, _) => 0) + Forgotten(peers, es[1..])
  }

  lemma {:induction false} RunLeaves(k: Kind, peers: map<Node, set<Node>>, o: Node, net: Net, es: seq<Event>)
    requires Topology(peers) && Sane(peers, net) && NamesOrigin(o, net) && Legal(k, peers, net, es)
    ensures Deliveries(es) <= Left(peers, o, net) + Forgotten(peers, es)
    decreases |es|
  {
    hide Enabled, After, Sane, Topology, NamesOrigin, Left, Degree;
    if es == [] {
      LeftNonNegative(peers, o, net);
    } else {
      StepKeepsSane(k, peers, net, es[0]);
      StepKeepsOrigin(k, peers, o, net, es[0]);
      RunLeaves(k, peers, o, After(k, peers, net, es[0]), es[1..]);
      match es[0]
      case Forget(n) => ForgettingCosts(k, peers, o, net, n);
      case Deliver(_, _, _) => DeliveryLeaves(k, peers, o, net, es[0]);
    }
  }

  lemma LeftNonNegative(peers: map<Node, set<Node>>, o: Node, net: Net)
    ensures Left(peers, o, net) >= 0
  {
    SumNonNegative(Fresh(peers, o, net), Degree(peers));
  }

  /**
   Every connection carries the item at most once: the deliveries are no more than the connections of all nodes,
   and for each time a node forgets the hash the connections of that node again.
   */
  lemma FloodingOnce(k: Kind, peers: map<Node, set<Node>>, o: Node, net: Net, es: seq<Event>)
    requires Topology(peers) && Originated(peers, o, net) && Legal(k, peers, net, es)
    ensures Deliveries(es) <= Sum(peers.Keys, (n: Node) => if n in peers then |peers[n]| else 0) + Forgotten(peers, es)
    ensures (forall n :: Forget(n) !in es) ==> Forgotten(peers, es) == 0
  {
    hide Enabled, After, Sum, Forgotten, Distinct;
    OriginatedSane(peers, o, net);
    RunLeaves(k, peers, o, net, es);
    var targets :| Distinct(targets) && Elems(targets) == peers[o] - {o} && net.msgs == Sent(targets, {o});
    FewTargets(peers, o, targets);
    SumTake(peers.Keys, Degree(peers), o);
    assert Fresh(peers, o, net) == peers.Keys - {o};
    SumSame(peers.Keys, Degree(peers), (n: Node) => if n in peers then |peers[n]| else 0);
    if forall n :: Forget(n) !in es { NothingForgotten(peers, es); }
  }

  lemma {:induction false} NothingForgotten(peers: map<Node, set<Node>>, es: seq<Event>)
    requires forall n :: Forget(n) !in es
    ensures Forgotten(peers, es) == 0
  {
    if es != [] {
      assert es[0] in es;
      NothingForgotten(peers, es[1..]);
    }
  }

  /** Each relayed list is its message's list and the relaying node, which was not on it. */
  lemma RelayLengthens(k: Kind, peers: map<Node, set<Node>>, net: Net, e: Event, j: nat)
    requires Topology(peers) && Sane(peers, net) && Enabled(k, peers, net, e) && e.Deliver?
    requires |net.msgs| - 1 <= j < |After(k, peers, net, e).msgs|
    ensures After(k, peers, net, e).msgs[j].seen == net.msgs[e.i].seen + {net.msgs[e.i].to}
    ensures |After(k, peers, net, e).msgs[j].seen| == |net.msgs[e.i].seen| + 1
    ensures After(k, peers, net, e).msgs[j].to !in After(k, peers, net, e).msgs[j].seen
  {
    hide Relays;
    StepKeepsSane(k, peers, net, e);
  }

  // ---- flooding covers the network ----

  ghost predicate AllAnswer(k: Kind, peers: map<Node, set<Node>>, net: Net, es: seq<Event>, F: Faults)
    requires Legal(k, peers, net, es)
    decreases |es|
  {
    es != [] ==> Answers(net, es[0], F) && AllAnswer(k, peers, After(k, peers, net, es[0]), es[1..], F)
  }

  /** A way along connections on which no node after the first is in `F`. */
  ghost predicate Route(peers: map<Node, set<Node>>, F: set<Node>, p: seq<Node>) {
    && |p| >= 1
    && (|p| > 1 ==>
         && Route(peers, F, p[..|p| - 1])
         && p[|p| - 2] in peers && p[|p| - 1] in peers[p[|p| - 2]] && p[|p| - 1] !in F)
  }

  ghost predicate Reaches(peers: map<Node, set<Node>>, F: set<Node>, o: Node, n: Node) {
    exists p :: Route(peers, F, p) && p[0] == o && p[|p| - 1] == n
  }

  lemma ReachesNext(peers: map<Node, set<Node>>, o: Node, n: Node, m: Node)
    requires Reaches(peers, {}, o, n) && n in peers && m in peers[n]
    ensures Reaches(peers, {}, o, m)
  {
    var p :| Route(peers, {}, p) && p[0] == o && p[|p| - 1] == n;
    var q := p + [m];
    assert q[..|q| - 1] == p;
    assert Route(peers, {}, q) && q[0] == o && q[|q| - 1] == m;
  }

  ghost predicate InFlight(net: Net, n: Node) {
    exists i :: 0 <= i < |net.msgs| && net.msgs[i].to == n
  }

  /** Every peer of a node that passed the item on did so too, is in `B`, or is about to receive it. */
  ghost predicate Passing(peers: map<Node, set<Node>>, B: set<Node>, net: Net) {
    forall n, p :: n in net.passed && n in peers && p in peers[n] ==> p in net.passed + B || InFlight(net, p)
  }

  /** Whoever signed a list or remembers the hash passed the item on, or is in `B`. */
  ghost predicate Signed(B: set<Node>, net: Net) {
    && net.flash <= net.passed + B
    && forall i :: 0 <= i < |net.msgs| ==> net.msgs[i].seen <= net.passed + B
  }

  /** Whoever stored the item passed it on, and whoever passed it on stored it or failed to. */
  ghost predicate Stored(F: Faults, net: Net) {
    net.holds <= net.passed <= net.holds + F.unsaving
  }

  /** The item travels along connections only. */
  ghost predicate Travelled(peers: map<Node, set<Node>>, o: Node, net: Net) {
    && (forall n :: n in net.holds ==> Reaches(peers, {}, o, n))
    && (forall i :: 0 <= i < |net.msgs| ==> Reaches(peers, {}, o, net.msgs[i].to))
  }

  ghost predicate Covering(k: Kind, peers: map<Node, set<Node>>, F: Faults, o: Node, net: Net) {
    && o in net.passed && Sane(peers, net) && Stored(F, net) && Travelled(peers, o, net)
    && Passing(peers, Blocked(k, F), net) && Signed(Blocked(k, F), net)
  }

  lemma StillInFlight(k: Kind, peers: map<Node, set<Node>>, net: Net, e: Event, p: Node)
    requires Enabled(k, peers, net, e) && e.Deliver?
    requires (InFlight(net, p) && p != net.msgs[e.i].to) || p in Elems(e.targets)
    ensures InFlight(After(k, peers, net, e), p)
  {
    hide Fanout, Handled;
    var now := After(k, peers, net, e).msgs;
    if p in Elems(e.targets) {
      var j :| 0 <= j < |e.targets| && e.targets[j] == p;
      assert now[|net.msgs| - 1 + j].to == p;
    } else {
      var j :| 0 <= j < |net.msgs| && net.msgs[j].to == p;
      assert now[if j < e.i then j else j - 1].to == p;
    }
  }

  /** The node a message is delivered to has passed the item on afterwards, or may not do so. */
  lemma DeliveredPasses(k: Kind, peers: map<Node, set<Node>>, F: Faults, net: Net, e: Event)
    requires Enabled(k, peers, net, e) && e.Deliver? && Answers(net, e, F)
    requires Signed(Blocked(k, F), net) && Stored(F, net)
    ensures net.msgs[e.i].to in After(k, peers, net, e).passed + Blocked(k, F)
  {
    hide Fanout;
  }

  lemma StepKeepsStored(k: Kind, peers: map<Node, set<Node>>, F: Faults, net: Net, e: Event)
    requires Enabled(k, peers, net, e) && Answers(net, e, F) && Stored(F, net)
    ensures Stored(F, After(k, peers, net, e))
  {
    hide Fanout;
  }

  lemma StepKeepsSigned(k: Kind, peers: map<Node, set<Node>>, F: Faults, net: Net, e: Event)
    requires Enabled(k, peers, net, e) && Answers(net, e, F) && Stored(F, net) && Signed(Blocked(k, F), net)
    ensures Signed(Blocked(k, F), After(k, peers, net, e))
  {
    hide Fanout, Handled, Blocked, Relays;
    if e.Deliver? {
      DeliveredPasses(k, peers, F, net, e);
    }
  }

  lemma StepKeepsPassing(k: Kind, peers: map<Node, set<Node>>, F: Faults, net: Net, e: Event)
    requires Enabled(k, peers, net, e) && Answers(net, e, F) && Stored(F, net)
    requires Signed(Blocked(k, F), net) && Passing(peers, Blocked(k, F), net)
    ensures Passing(peers, Blocked(k, F), After(k, peers, net, e))
  {
    hide Blocked, Relays;
    var c, B := After(k, peers, net, e), Blocked(k, F);
    if e.Deliver? {
      hide InFlight;
      var m := net.msgs[e.i];
      DeliveredPasses(k, peers, F, net, e);
      forall n, p | n in c.passed && n in peers && p in peers[n]
        ensures p in c.passed + B || InFlight(c, p)
      {
        if p !in c.passed + B {
          if n !in net.passed { assert p in Elems(e.targets); }
          StillInFlight(k, peers, net, e, p);
        }
      }
    }
  }

  lemma StepKeepsTravelled(k: Kind, peers: map<Node, set<Node>>, o: Node, net: Net, e: Event)
    requires Enabled(k, peers, net, e) && Travelled(peers, o, net)
    ensures Travelled(peers, o, After(k, peers, net, e))
  {
    hide Reaches, Relays;
    if e.Deliver? {
      var m := net.msgs[e.i];
      forall p | p in e.targets
        ensures Reaches(peers, {}, o, p)
      {
        assert p in Elems(e.targets);
        ReachesNext(peers, o, m.to, p);
      }
    }
  }

  lemma StepKeepsCovering(k: Kind, peers: map<Node, set<Node>>, F: Faults, o: Node, net: Net, e: Event)
    requires Topology(peers) && Covering(k, peers, F, o, net) && Enabled(k, peers, net, e) && Answers(net, e, F)
    ensures Covering(k, peers, F, o, After(k, peers, net, e))
  {
    hide Enabled, Sane, Passing, Signed, Stored, Travelled, Answers, Topology, Blocked;
    StepKeepsSane(k, peers, net, e);
    StepKeepsStored(k, peers, F, net, e);
    StepKeepsPassing(k, peers, F, net, e);
    StepKeepsSigned(k, peers, F, net, e);
    StepKeepsTravelled(k, peers, o, net, e);
    PassedGrows(k, peers, net, e);
  }

  lemma PassedGrows(k: Kind, peers: map<Node, set<Node>>, net: Net, e: Event)
    requires Enabled(k, peers, net, e)
    ensures net.passed <= After(k, peers, net, e).passed
  {
    hide Fanout, Handled;
  }

  lemma {:induction false} RunKeepsCovering(k: Kind, peers: map<Node, set<Node>>, F: Faults, o: Node,
                                           net: Net, es: seq<Event>)
    requires Topology(peers) && Covering(k, peers, F, o, net)
    requires Legal(k, peers, net, es) && AllAnswer(k, peers, net, es, F)
    ensures Covering(k, peers, F, o, Run(k, peers, net, es))
    decreases |es|
  {
    hide Enabled, After, Covering, Topology, Answers;
    if es != [] {
      StepKeepsCovering(k, peers, F, o, net, es[0]);
      RunKeepsCovering(k, peers, F, o, After(k, peers, net, es[0]), es[1..]);
    }
  }

  lemma OriginatedCovers(k: Kind, peers: map<Node, set<Node>>, F: Faults, o: Node, net: Net)
    requires Topology(peers) && Originated(peers, o, net)
    ensures Covering(k, peers, F, o, net)
  {
    hide Topology, Blocked;
    OriginatedSane(peers, o, net);
    var targets :| Distinct(targets) && Elems(targets) == peers[o] - {o} && net.msgs == Sent(targets, {o});
    assert Route(peers, {}, [o]) && [o][|[o]| - 1] == o;
    forall i | 0 <= i < |targets|
      ensures Reaches(peers, {}, o, targets[i])
    {
      assert targets[i] in Elems(targets);
      ReachesNext(peers, o, o, targets[i]);
    }
    forall p | p in peers[o] && p != o
      ensures InFlight(net, p)
    {
      assert p in Elems(targets);
      var i :| 0 <= i < |targets| && targets[i] == p;
      assert net.msgs[i].to == p;
    }
  }

  lemma {:induction false} RouteCovered(peers: map<Node, set<Node>>, B: set<Node>, net: Net, p: seq<Node>)
    requires Passing(peers, B, net) && net.msgs == [] && Route(peers, B, p) && p[0] in net.passed
    ensures p[|p| - 1] in net.passed
    decreases |p|
  {
    if |p| > 1 {
      RouteCovered(peers, B, net, p[..|p| - 1]);
      var n, m := p[|p| - 2], p[|p| - 1];
      assert n in net.passed && m in peers[n];
      assert m in net.passed + B || InFlight(net, m);
    }
  }

  /**
   Once nothing is in flight, every node whose own store does not fail holds the item, if it can be reached from
   the originator through nodes that pass it on; and every node that holds it can be reached. A transaction is
   passed on also by nodes that fail to save it.
   */
  lemma FloodingCovers(k: Kind, peers: map<Node, set<Node>>, F: Faults, o: Node, net: Net, es: seq<Event>, n: Node)
    requires Topology(peers) && Originated(peers, o, net)
    requires Legal(k, peers, net, es) && AllAnswer(k, peers, net, es, F)
    requires Run(k, peers, net, es).msgs == []
    ensures Reaches(peers, Blocked(k, F), o, n) && n !in F.unsaving ==> n in Run(k, peers, net, es).holds
    ensures n in Run(k, peers, net, es).holds ==> Reaches(peers, {}, o, n)
  {
    hide Enabled, After, Passing, Run, Legal, AllAnswer, Topology, Originated, Sane, Signed, Blocked;
    OriginatedCovers(k, peers, F, o, net);
    RunKeepsCovering(k, peers, F, o, net, es);
    if Reaches(peers, Blocked(k, F), o, n) {
      var p :| Route(peers, Blocked(k, F), p) && p[0] == o && p[|p| - 1] == n;
      RouteCovered(peers, Blocked(k, F), Run(k, peers, net, es), p);
    }
  }
}
