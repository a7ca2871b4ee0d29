/**
 Any sequence of transfers among any number of accounts (spice.go:121-169): when the total is
 preserved, and what the loose overflow guard can cost.
 */
module Accounts {
  import opened Basics
  import opened Spice

  datatype Order = Order(amount: Amount, from: nat, to: nat)

  ghost predicate NormalAll(accounts: seq<Amount>) {
    forall i :: 0 <= i < |accounts| ==> Normal(accounts[i])
  }

  ghost predicate Legal(o: Order, n: nat) {
    o.from < n && o.to < n && Normal(o.amount)
  }

  ghost predicate LegalAll(orders: seq<Order>, n: nat) {
    forall i :: 0 <= i < |orders| ==> Legal(orders[i], n)
  }

  /** The accounts after one order, refused or not. */
  function After(accounts: seq<Amount>, o: Order): (r: seq<Amount>)
    requires NormalAll(accounts) && Legal(o, |accounts|)
    ensures |r| == |accounts| && NormalAll(r)
  {
    if o.from == o.to then accounts
    else
      match Move(o.amount, accounts[o.from], accounts[o.to])
      case None => accounts
      case Some(p) => accounts[o.from := p.0][o.to := p.1]
  }

  function Run(accounts: seq<Amount>, orders: seq<Order>): (r: seq<Amount>)
    requires NormalAll(accounts) && LegalAll(orders, |accounts|)
    ensures |r| == |accounts| && NormalAll(r)
    decreases |orders|
  {
    if orders == [] then accounts else Run(After(accounts, orders[0]), orders[1..])
  }

  function Total(accounts: seq<Amount>): nat {
    if accounts == [] then 0 else Val(accounts[0]) + Total(accounts[1..])
  }

  /** The order is carried out through the gap in the overflow guard. */
  ghost predicate Slips(accounts: seq<Amount>, o: Order)
    requires Legal(o, |accounts|)
  {
    && o.from != o.to
    && Val(o.amount) <= Val(accounts[o.from])
    && SlipsThrough(accounts[o.to], o.amount)
  }

  ghost predicate NoneSlips(accounts: seq<Amount>, orders: seq<Order>)
    requires NormalAll(accounts) && LegalAll(orders, |accounts|)
    decreases |orders|
  {
    orders != [] ==> !Slips(accounts, orders[0]) && NoneSlips(After(accounts, orders[0]), orders[1..])
  }

  lemma {:induction false} TotalUpdate(accounts: seq<Amount>, i: nat, a: Amount)
    requires i < |accounts|
    ensures Total(accounts[i := a]) == Total(accounts) - Val(accounts[i]) + Val(a)
  {
    hide Val;
    if i == 0 {
      assert accounts[0 := a][1..] == accounts[1..];
    } else {
      TotalUpdate(accounts[1..], i - 1, a);
      assert accounts[i := a][1..] == accounts[1..][i - 1 := a];
    }
  }

  lemma {:induction false} TotalCovers(accounts: seq<Amount>, i: nat)
    requires i < |accounts|
    ensures Val(accounts[i]) <= Total(accounts)
  {
    hide Val;
    if i > 0 { TotalCovers(accounts[1..], i - 1); }
  }

  lemma PairCovered(accounts: seq<Amount>, i: nat, j: nat)
    requires i < |accounts| && j < |accounts| && i != j
    ensures Val(accounts[i]) + Val(accounts[j]) <= Total(accounts)
  {
    hide Total;
    TotalUpdate(accounts, i, ZERO);
    TotalCovers(accounts[i := ZERO], j);
  }

  /** What one carried-out move does to the two totals. */
  lemma MoveTotals(a: Amount, from: Amount, to: Amount)
    requires Normal(a) && Normal(from) && Normal(to)
    ensures match Move(a, from, to)
      case None => Val(a) > Val(from) || Val(to) + Val(a) >= LIMIT
      case Some(p) => Val(p.0) + Val(p.1) + (if SlipsThrough(to, a) then LIMIT else 0) == Val(from) + Val(to)
  {
    hide Of;
    PlusByWords(to, a);
  }

  lemma OneOrder(accounts: seq<Amount>, o: Order)
    requires NormalAll(accounts) && Legal(o, |accounts|)
    ensures Total(After(accounts, o)) + (if Slips(accounts, o) then LIMIT else 0) == Total(accounts)
  {
    hide Total, Val, SlipsThrough, Move, Of;
    if o.from != o.to {
      var from, to := accounts[o.from], accounts[o.to];
      MoveTotals(o.amount, from, to);
      MoveNeeds(o.amount, from, to);
      match Move(o.amount, from, to)
      case None =>
      case Some(p) =>
        TotalUpdate(accounts, o.from, p.0);
        TotalUpdate(accounts[o.from := p.0], o.to, p.1);
    }
  }

  lemma MoveNeeds(a: Amount, from: Amount, to: Amount)
    requires Normal(a) && Normal(from) && Normal(to)
    ensures Move(a, from, to).Some? ==> Val(a) <= Val(from)
    ensures Val(a) <= Val(from) && SlipsThrough(to, a) ==> Move(a, from, to).Some?
  {
    PlusByWords(to, a);
  }

  /** Value is never created, and a run preserves the total exactly when no order slips through. */
  lemma {:induction false} RunConserves(accounts: seq<Amount>, orders: seq<Order>)
    requires NormalAll(accounts) && LegalAll(orders, |accounts|)
    ensures Total(Run(accounts, orders)) <= Total(accounts)
    ensures Total(Run(accounts, orders)) == Total(accounts) <==> NoneSlips(accounts, orders)
    decreases |orders|
  {
    hide Total, Slips, After;
    if orders != [] {
      OneOrder(accounts, orders[0]);
      RunConserves(After(accounts, orders[0]), orders[1..]);
    }
  }

  lemma SmallSupplyNeverSlips(accounts: seq<Amount>, o: Order)
    requires NormalAll(accounts) && Legal(o, |accounts|) && Total(accounts) < LIMIT
    ensures !Slips(accounts, o)
  {
    hide Total;
    if o.from != o.to {
      PairCovered(accounts, o.from, o.to);
    }
  }

  /** A total that one record could hold is preserved by every run. */
  lemma {:induction false} SmallSupplyConserved(accounts: seq<Amount>, orders: seq<Order>)
    requires NormalAll(accounts) && LegalAll(orders, |accounts|) && Total(accounts) < LIMIT
    ensures Total(Run(accounts, orders)) == Total(accounts)
    decreases |orders|
  {
    hide Total, Slips, After;
    if orders != [] {
      SmallSupplyNeverSlips(accounts, orders[0]);
      OneOrder(accounts, orders[0]);
      SmallSupplyConserved(After(accounts, orders[0]), orders[1..]);
    }
  }

  /** The gap is real: two accounts, one order, and the whole capacity of a record is gone. */
  lemma SlipLosesEverything()
    ensures var accounts := [Amount(1, 0), Amount(TWO64 - 1, PART - 1)];
      Run(accounts, [Order(Amount(0, 1), 0, 1)]) == [Amount(0, PART - 1), ZERO]
  {
    var from, to, a := Amount(1, 0), Amount(TWO64 - 1, PART - 1), Amount(0, 1);
    PlusByWords(to, a);
    DifferenceByWords(from, a);
    var o := Order(a, 0, 1);
    assert After([from, to], o) == [Amount(0, PART - 1), ZERO];
    assert Run([from, to], [o]) == Run(After([from, to], o), [o][1..]);
  }
}
