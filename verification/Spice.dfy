/**
 Two-unit amounts (src/spice/spice.go): `currency` whole units and `supplementary` parts of
 10^18 each, both unsigned 64-bit words that wrap around.

 `Melange` is the record the Go code updates by reference. What its methods compute is said
 for any words by `Added`, `AtMost` and `Taken`, and for amounts in normal form
 (`supplementary` below 10^18) by `Plus` and `Move` in terms of the total `Val`.
 */
module Spice {
  import opened Basics

  const PART: nat := 1_000_000_000_000_000_000
  const TWO64: nat := 0x1_0000_0000_0000_0000
  /** One more than the greatest normal amount. */
  const LIMIT: nat := TWO64 * PART

  type U64 = x: nat | x < TWO64

  function Add64(x: U64, y: U64): U64 {
    if x + y < TWO64 then x + y else x + y - TWO64
  }

  function Sub64(x: U64, y: U64): U64 {
    if x >= y then x - y else x - y + TWO64
  }

  /** Words wrap around. */
  lemma WordsWrap(x: U64, y: U64)
    ensures Add64(x, y) == (x + y) % 18_446_744_073_709_551_616
    ensures Sub64(x, y) == (x - y) % 18_446_744_073_709_551_616
  {
  }

  /** A `Melange` passed by value. */
  datatype Amount = Amount(currency: U64, supplementary: U64)

  function Val(a: Amount): nat {
    a.currency * PART + a.supplementary
  }

  predicate Normal(a: Amount) {
    a.supplementary < PART
  }

  /** The normal amount of a total. */
  function Of(v: nat): (a: Amount)
    requires v < LIMIT
    ensures Normal(a) && Val(a) == v
  {
    Amount(v / PART, v % PART)
  }

  lemma NormalUnique(a: Amount, b: Amount)
    requires Normal(a) && Normal(b) && Val(a) == Val(b)
    ensures a == b
  {
  }

  lemma ValBelowLimit(a: Amount)
    requires Normal(a)
    ensures Val(a) < LIMIT
  {
  }

  const ZERO := Amount(0, 0)

  predicate Empty(a: Amount)
    ensures Empty(a) <==> Val(a) == 0
  {
    a.currency == 0 && a.supplementary == 0
  }

  /** `New` carries once; the result is normal and worth the same in all but the named cases. */
  function New(currency: U64, supplementary: U64): (a: Amount)
    ensures Normal(a) <==> supplementary < 2 * PART
    ensures Val(a) == currency * PART + supplementary <==> !(currency == TWO64 - 1 && supplementary >= PART)
    ensures supplementary >= PART ==> a.supplementary == supplementary - PART && a.currency == (currency + 1) % TWO64
  {
    if supplementary >= PART then Amount(Add64(currency, 1), Sub64(supplementary, PART))
    else Amount(currency, supplementary)
  }

  datatype Err = Ok | ErrValueOverflow | ErrNoSufficientFounds

  // ---- what the methods compute ----

  /**
   The overflow guard compares strictly, so this one pair of amounts passes it although the sum
   is not representable: whole units sum to the greatest word and the parts to exactly one unit.
   */
  predicate SlipsThrough(m: Amount, a: Amount) {
    m.currency + a.currency == TWO64 - 1 && m.supplementary + a.supplementary == PART
  }

  /** The amount `a` added to `m`; nothing when it is refused. */
  function Plus(m: Amount, a: Amount): (r: Option<Amount>)
    requires Normal(m) && Normal(a)
    ensures r.Some? ==> Normal(r.value)
  {
    if Val(m) + Val(a) < LIMIT then Some(Of(Val(m) + Val(a)))
    else if SlipsThrough(m, a) then Some(ZERO)
    else None
  }

  /** The balances of `from` and `to` after `a` moved between two different records. */
  function Move(a: Amount, from: Amount, to: Amount): (r: Option<(Amount, Amount)>)
    requires Normal(a) && Normal(from) && Normal(to)
    ensures r.Some? ==> Normal(r.value.0) && Normal(r.value.1)
  {
    ValBelowLimit(from);
    if Val(a) <= Val(from) && Plus(to, a).Some? then Some((Of(Val(from) - Val(a)), Plus(to, a).value))
    else None
  }

  /** The words of a sum, when it fits and when it does not. */
  lemma PlusByWords(m: Amount, a: Amount)
    requires Normal(m) && Normal(a)
    ensures Plus(m, a) ==
      var c, s := m.currency + a.currency, m.supplementary + a.supplementary;
      if s < PART then (if c < TWO64 then Some(Amount(c, s)) else None)
      else if c + 1 < TWO64 then Some(Amount(c + 1, s - PART))
      else if c == TWO64 - 1 && s == PART then Some(ZERO)
      else None
  {
    hide Of;
    var c, s := m.currency + a.currency, m.supplementary + a.supplementary;
    if Val(m) + Val(a) < LIMIT {
      NormalUnique(Of(Val(m) + Val(a)), if s < PART then Amount(c, s) else Amount(c + 1, s - PART));
    }
  }

  /** The words of a difference. */
  lemma DifferenceByWords(m: Amount, a: Amount)
    requires Normal(m) && Normal(a)
    ensures Val(a) <= Val(m) <==>
            a.currency < m.currency || (a.currency == m.currency && a.supplementary <= m.supplementary)
    ensures Val(a) <= Val(m) ==>
      && Val(m) - Val(a) < LIMIT
      && Of(Val(m) - Val(a)) == (
           if a.supplementary <= m.supplementary
           then Amount(m.currency - a.currency, m.supplementary - a.supplementary)
           else Amount(m.currency - a.currency - 1, m.supplementary + PART - a.supplementary))
  {
    hide Of;
    if Val(a) <= Val(m) {
      ValBelowLimit(m);
      NormalUnique(Of(Val(m) - Val(a)),
                   if a.supplementary <= m.supplementary
                   then Amount(m.currency - a.currency, m.supplementary - a.supplementary)
                   else Amount(m.currency - a.currency - 1, m.supplementary + PART - a.supplementary));
    }
  }

  // ---- any words ----

  /** The overflow guard lets `a` be added to `m`; its second difference wraps for more than a unit of parts. */
  predicate Accepts(m: Amount, a: Amount) {
    && m.currency + a.currency < TWO64
    && !(m.currency + a.currency == TWO64 - 1 && Sub64(PART, a.supplementary) < m.supplementary)
  }

  function Added(m: Amount, a: Amount): Option<Amount> {
    if Accepts(m, a) then Some(New(m.currency + a.currency, Add64(m.supplementary, a.supplementary))) else None
  }

  /** Whole units are compared first, and parts only between equal units. */
  predicate AtMost(a: Amount, m: Amount) {
    a.currency < m.currency || (a.currency == m.currency && a.supplementary <= m.supplementary)
  }

  /** What is left of `m`, with one unit borrowed if the parts do not suffice. */
  function Taken(m: Amount, a: Amount): Amount
    requires AtMost(a, m)
  {
    if a.supplementary > m.supplementary then
      Amount(m.currency - a.currency - 1, Sub64(Add64(m.supplementary, PART), a.supplementary))
    else
      Amount(m.currency - a.currency, m.supplementary - a.supplementary)
  }

  lemma AddedIsPlus(m: Amount, a: Amount)
    requires Normal(m) && Normal(a)
    ensures Added(m, a) == Plus(m, a)
  {
    hide Plus;
    PlusByWords(m, a);
  }

  lemma MoveByWords(a: Amount, from: Amount, to: Amount)
    requires Normal(a) && Normal(from) && Normal(to)
    ensures AtMost(a, from) <==> Val(a) <= Val(from)
    ensures Move(a, from, to) ==
            if AtMost(a, from) && Accepts(to, a) then Some((Taken(from, a), Added(to, a).value)) else None
  {
    hide Plus, Of, Val, New;
    AddedIsPlus(to, a);
    DifferenceByWords(from, a);
  }

  /** The guard by the fields: at the greatest unit, parts of at most one unit together, or far more than one. */
  lemma AcceptsMeans(m: Amount, a: Amount)
    ensures Accepts(m, a) <==>
            || m.currency + a.currency < TWO64 - 1
            || (m.currency + a.currency == TWO64 - 1
                && (m.supplementary + a.supplementary <= PART
                    || (a.supplementary > PART && m.supplementary + a.supplementary <= PART + TWO64)))
  {
  }

  /** A difference of words is worth the difference, unless the parts taken exceed a borrowed unit. */
  lemma TakenValue(m: Amount, a: Amount)
    requires AtMost(a, m)
    ensures Val(Taken(m, a)) == Val(m) - Val(a) + if a.supplementary > m.supplementary + PART then TWO64 else 0
    ensures Taken(m, a).currency == m.currency - a.currency - if a.supplementary > m.supplementary then 1 else 0
  {
  }

  /** A sum of words is worth the sum exactly when the parts do not wrap and no carry meets the greatest unit. */
  lemma AddedValue(m: Amount, a: Amount)
    requires Accepts(m, a)
    ensures Val(Added(m, a).value) == Val(m) + Val(a) <==>
            m.supplementary + a.supplementary < TWO64
            && !(m.currency + a.currency == TWO64 - 1 && m.supplementary + a.supplementary >= PART)
  {
  }

  /**
   Comparing words agrees with comparing values exactly when the amount with fewer units does not make up for
   them in parts; it does for all amounts in normal form.
   */
  lemma ComparisonAgrees(a: Amount, m: Amount)
    ensures (AtMost(a, m) <==> Val(a) <= Val(m)) <==>
            || a.currency == m.currency
            || (a.currency < m.currency && a.supplementary <= m.supplementary + (m.currency - a.currency) * PART)
            || (a.currency > m.currency && m.supplementary < a.supplementary + (a.currency - m.currency) * PART)
    ensures Normal(a) && Normal(m) ==> (AtMost(a, m) <==> Val(a) <= Val(m))
  {
  }

  class Melange {
    var currency: U64
    var supplementary: U64

    constructor (a: Amount)
      ensures Get() == a
    {
      currency, supplementary := a.currency, a.supplementary;
    }

    function Get(): Amount
      reads this
    {
      Amount(currency, supplementary)
    }

    method CopyFrom(c: Amount)
      modifies this
      ensures Get() == c
    {
      currency, supplementary := c.currency, c.supplementary;
    }

    /** Adds to the parts and carries at most once. */
    method AddParts(parts: U64)
      modifies this
      ensures Get() == New(old(currency), Add64(old(supplementary), parts))
    {
      supplementary := Add64(supplementary, parts);
      if supplementary >= PART {
        currency := Add64(currency, 1);
        supplementary := Sub64(supplementary, PART);
      }
    }

    /** Takes from the parts and borrows if they do not suffice. */
    method TakeParts(parts: U64)
      modifies this
      ensures Get() ==
        if parts > old(supplementary) then
          Amount(Sub64(old(currency), 1), Sub64(Add64(old(supplementary), PART), parts))
        else Amount(old(currency), Sub64(old(supplementary), parts))
    {
      if parts > supplementary {
        currency := Sub64(currency, 1);
        supplementary := Sub64(Add64(supplementary, PART), parts);
      } else {
        supplementary := Sub64(supplementary, parts);
      }
    }

    /** Adds `amount`, or reports an overflow and leaves the record as it was. */
    method Supply(amount: Amount) returns (err: Err)
      modifies this
      ensures err == Ok || (err == ErrValueOverflow && Get() == old(Get()))
      ensures Added(old(Get()), amount) == if err == Ok then Some(Get()) else None
      ensures Normal(old(Get())) && Normal(amount) ==>
        Plus(old(Get()), amount) == if err == Ok then Some(Get()) else None
    {
      hide Plus;
      var mCp := Get();
      if Normal(mCp) && Normal(amount) { AddedIsPlus(mCp, amount); }
      if Sub64(TWO64 - 1, amount.currency) < currency {
        return ErrValueOverflow;
      }
      currency := Add64(currency, amount.currency);
      if Sub64(PART, amount.supplementary) < supplementary {
        if currency == TWO64 - 1 {
          CopyFrom(mCp);
          return ErrValueOverflow;
        }
      }
      AddParts(amount.supplementary);
      return Ok;
    }

    method Drain(amount: Amount, sink: Melange) returns (err: Err)
      modifies this, sink
      ensures err != Ok ==> Get() == old(Get()) && sink.Get() == old(sink.Get())
      ensures this != sink ==> TransferWords(amount, old(Get()), old(sink.Get()), err, Get(), sink.Get())
      ensures Normal(amount) && Normal(old(Get())) && Normal(old(sink.Get())) ==>
        TransferSpec(amount, old(Get()), old(sink.Get()), this == sink, err, Get(), sink.Get())
    {
      err := Transfer(amount, this, sink);
    }
  }

  /**
   A transfer between records worth `from` and `to`. Within one record (`same`) it changes
   nothing, whatever it reports.
   */
  ghost predicate TransferSpec(a: Amount, from: Amount, to: Amount, same: bool, err: Err, from': Amount, to': Amount)
    requires Normal(a) && Normal(from) && Normal(to)
  {
    if same then
      from' == from && to' == to
    else
      && Move(a, from, to) == (if err == Ok then Some((from', to')) else None)
      && (err == ErrNoSufficientFounds <==>
           a.currency > from.currency || (Val(a) > Val(from) && Plus(to, a).Some?))
  }

  /** A transfer of any words between two records. */
  ghost predicate TransferWords(a: Amount, from: Amount, to: Amount, err: Err, from': Amount, to': Amount) {
    && (err == Ok <==> AtMost(a, from) && Accepts(to, a))
    && (err == Ok ==> from' == Taken(from, a) && Added(to, a) == Some(to'))
    && (err == ErrNoSufficientFounds <==> a.currency > from.currency || (!AtMost(a, from) && Accepts(to, a)))
  }

  lemma WordsMeanValues(a: Amount, from: Amount, to: Amount, err: Err, from': Amount, to': Amount)
    requires Normal(a) && Normal(from) && Normal(to) && TransferWords(a, from, to, err, from', to')
    ensures TransferSpec(a, from, to, false, err, from', to')
  {
    hide Plus, Move, Accepts, AtMost, Taken, Val, New;
    MoveByWords(a, from, to);
    AddedIsPlus(to, a);
  }

  method Transfer(amount: Amount, from: Melange, to: Melange) returns (err: Err)
    modifies from, to
    ensures err != Ok ==> from.Get() == old(from.Get()) && to.Get() == old(to.Get())
    ensures from != to ==> TransferWords(amount, old(from.Get()), old(to.Get()), err, from.Get(), to.Get())
    ensures Normal(amount) && Normal(old(from.Get())) && Normal(old(to.Get())) ==>
      TransferSpec(amount, old(from.Get()), old(to.Get()), from == to, err, from.Get(), to.Get())
  {
    err := TransferUnits(amount, from, to);
    ghost var a, f, t := amount, old(from.Get()), old(to.Get());
    if from != to && Normal(a) && Normal(f) && Normal(t) {
      WordsMeanValues(a, f, t, err, from.Get(), to.Get());
    }
  }

  /** The loop over the two units. */
  method TransferUnits(amount: Amount, from: Melange, to: Melange) returns (err: Err)
    modifies from, to
    ensures err != Ok ==> from.Get() == old(from.Get()) && to.Get() == old(to.Get())
    ensures from != to ==> TransferWords(amount, old(from.Get()), old(to.Get()), err, from.Get(), to.Get())
    ensures from == to && Normal(amount) && Normal(old(from.Get())) ==> from.Get() == old(from.Get())
  {
    var toCp, fromCp := to.Get(), from.Get();
    if amount.currency > from.currency {
      return ErrNoSufficientFounds;
    }
    if Sub64(TWO64 - 1, amount.currency) < to.currency {
      return ErrValueOverflow;
    }
    to.currency := Add64(to.currency, amount.currency);
    from.currency := Sub64(from.currency, amount.currency);
    if Sub64(PART, amount.supplementary) < to.supplementary {
      if to.currency == TWO64 - 1 {
        to.CopyFrom(toCp);
        from.CopyFrom(fromCp);
        return ErrValueOverflow;
      }
    }
    if amount.supplementary > from.supplementary && from.currency == 0 {
      to.CopyFrom(toCp);
      from.CopyFrom(fromCp);
      return ErrNoSufficientFounds;
    }
    from.TakeParts(amount.supplementary);
    to.AddParts(amount.supplementary);
    return Ok;
  }
}
