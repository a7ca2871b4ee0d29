/**
 The in-memory cache of awaited transactions (src/localcache/local.cache.go): a store by hash and two
 indexes by address. In every reachable state the indexes are exactly what the store says.
 */
module LocalCache {
  import opened Dag
  import opened Sums
  import opened Ledger

  const MIN_LEN: nat := 1000

  type Store = map<Hash, Transaction>
  type Index = map<Address, set<Hash>>
  type Party = Transaction -> Address

  datatype Error = Nil | ErrNotAllowReoccurringHash | ErrFull | ErrNoMatch | ErrUnexpected

  function Issuer(t: Transaction): Address {
    t.issuer
  }

  function Receiver(t: Transaction): Address {
    t.receiver
  }

  ghost predicate ByHash(store: Store) {
    forall h :: h in store ==> store[h].hash == h
  }

  /** A hash is in the set of an address exactly when it is stored with that party, and no set is empty. */
  ghost predicate IndexOf(index: Index, store: Store, party: Party) {
    && (forall a :: a in index ==> index[a] != {})
    && (forall a, h :: a in index && h in index[a] ==> h in store && party(store[h]) == a)
    && (forall h :: h in store ==> party(store[h]) in index && h in index[party(store[h])])
  }

  /** What the reads are for: the stored transactions of a party. */
  ghost function Stored(store: Store, party: Party, a: Address): set<Transaction> {
    set h | h in store && party(store[h]) == a :: store[h]
  }

  function Insert(index: Index, a: Address, h: Hash): Index {
    index[a := (if a in index then index[a] else {}) + {h}]
  }

  /** The hash goes, and with the last hash its address. */
  function Delete(index: Index, a: Address, h: Hash): Index {
    if a !in index then index
    else if index[a] - {h} == {} then index - {a}
    else index[a := index[a] - {h}]
  }

  lemma InsertKeepsIndex(index: Index, store: Store, party: Party, t: Transaction)
    requires IndexOf(index, store, party) && t.hash !in store
    ensures IndexOf(Insert(index, party(t), t.hash), store[t.hash := t], party)
  {
  }

  lemma DeleteKeepsIndex(index: Index, store: Store, party: Party, h: Hash)
    requires IndexOf(index, store, party) && h in store
    ensures IndexOf(Delete(index, party(store[h]), h), store - {h}, party)
  {
    var a := party(store[h]);
    var now := Delete(index, a, h);
    forall k | k in store && k != h
      ensures party(store[k]) in now && k in now[party(store[k])]
    {
      if party(store[k]) == a { assert k in index[a] - {h}; }
    }
  }

  class TransactionCache {
    var trxs: Store
    var issuerTrxs: Index
    var receiverTrxs: Index
    const maxLen: nat

    ghost predicate Valid()
      reads this
    {
      && ByHash(trxs) && |trxs| <= maxLen
      && IndexOf(issuerTrxs, trxs, Issuer) && IndexOf(receiverTrxs, trxs, Receiver)
    }

    constructor (configured: int)
      ensures Valid() && trxs == map[] && maxLen == (if configured < 1000 then 1000 else configured)
    {
      trxs, issuerTrxs, receiverTrxs := map[], map[], map[];
      maxLen := if configured < MIN_LEN then MIN_LEN else configured;
    }

    /** A known hash and a full cache are refused; nothing changes then. */
    method WriteIssuerSignedTransactionForReceiver(trx: Transaction) returns (err: Error)
      requires Valid()
      modifies this
      ensures Valid()
      ensures err == if trx.hash in old(trxs) then ErrNotAllowReoccurringHash
                     else if |old(trxs)| == maxLen then ErrFull else Nil
      ensures trxs == if err == Nil then old(trxs)[trx.hash := trx] else old(trxs)
    {
      hide IndexOf, Insert;
      if trx.hash in trxs {
        return ErrNotAllowReoccurringHash;
      }
      if |trxs| == maxLen {
        return ErrFull;
      }
      InsertKeepsIndex(issuerTrxs, trxs, Issuer, trx);
      InsertKeepsIndex(receiverTrxs, trxs, Receiver, trx);
      trxs := trxs[trx.hash := trx];
      issuerTrxs := Insert(issuerTrxs, trx.issuer, trx.hash);
      receiverTrxs := Insert(receiverTrxs, trx.receiver, trx.hash);
      return Nil;
    }

    /** Exactly the stored transactions for the receiver, each once; an error exactly when there are none. */
    method ReadAwaitingTransactionsByReceiver(address: Address) returns (found: seq<Transaction>, err: Error)
      ensures Valid() ==> Answer(trxs, Receiver, address, found, err)
      ensures Valid() && err == Nil ==> forall t :: t in found <==> t in trxs.Values && t.receiver == address
    {
      found, err := ReadBy(trxs, receiverTrxs, Receiver, address);
      if Valid() && err == Nil { FoundMeans(trxs, Receiver, address, found); }
    }

    method ReadAwaitingTransactionsByIssuer(address: Address) returns (found: seq<Transaction>, err: Error)
      ensures Valid() ==> Answer(trxs, Issuer, address, found, err)
      ensures Valid() && err == Nil ==> forall t :: t in found <==> t in trxs.Values && t.issuer == address
    {
      found, err := ReadBy(trxs, issuerTrxs, Issuer, address);
      if Valid() && err == Nil { FoundMeans(trxs, Issuer, address, found); }
    }

    method CleanOne(h: Hash)
      requires Valid()
      modifies this
      ensures Valid() && trxs == old(trxs) - {h}
    {
      hide IndexOf, Delete, ByHash;
      if h !in trxs {
        assert trxs - {h} == trxs;
        return;
      }
      var trx := trxs[h];
      DeleteKeepsIndex(issuerTrxs, trxs, Issuer, h);
      DeleteKeepsIndex(receiverTrxs, trxs, Receiver, h);
      FewerStored(trxs, h);
      issuerTrxs := Delete(issuerTrxs, trx.issuer, h);
      receiverTrxs := Delete(receiverTrxs, trx.receiver, h);
      trxs := trxs - {h};
    }

    /** The hashes of the batch go, known or not, and nothing else. */
    method CleanSignedTransactions(batch: seq<Transaction>)
      requires Valid()
      modifies this
      ensures Valid() && trxs == old(trxs) - (set t | t in batch :: t.hash)
    {
      hide IndexOf, Delete, ByHash;
      for i := 0 to |batch|
        invariant Valid() && trxs == old(trxs) - HashesOf(batch[..i])
      {
        CleanOne(batch[i].hash);
        HashesSnoc(batch, i);
        MinusTwice(old(trxs), HashesOf(batch[..i]), batch[i].hash);
      }
      assert batch[..|batch|] == batch;
    }
  }

  ghost function HashesOf(batch: seq<Transaction>): set<Hash> {
    set t | t in batch :: t.hash
  }

  lemma HashesSnoc(batch: seq<Transaction>, i: nat)
    requires i < |batch|
    ensures HashesOf(batch[..i + 1]) == HashesOf(batch[..i]) + {batch[i].hash}
  {
    assert batch[..i + 1] == batch[..i] + [batch[i]];
    assert batch[i] in batch[..i + 1];
  }

  lemma MinusTwice(store: Store, hs: set<Hash>, h: Hash)
    ensures store - hs - {h} == store - (hs + {h})
  {
  }

  lemma FewerStored(store: Store, h: Hash)
    requires h in store && ByHash(store)
    ensures |store - {h}| <= |store| && ByHash(store - {h})
  {
    assert (store - {h}).Keys == store.Keys - {h};
    assert |store - {h}| == |(store - {h}).Keys| && |store| == |store.Keys|;
  }

  ghost predicate Answer(store: Store, party: Party, a: Address, found: seq<Transaction>, err: Error) {
    if Stored(store, party, a) == {} then err == ErrNoMatch
    else err == Nil && Distinct(found) && Elems(found) == Stored(store, party, a)
  }

  lemma FoundMeans(store: Store, party: Party, a: Address, found: seq<Transaction>)
    requires Elems(found) == Stored(store, party, a)
    ensures forall t :: t in found <==> t in store.Values && party(t) == a
  {
    forall t
      ensures t in found <==> t in Elems(found)
    {
    }
    forall t | t in store.Values && party(t) == a
      ensures t in Stored(store, party, a)
    {
      var h :| h in store && store[h] == t;
    }
  }

  /** The loop of both reads: a hash without a transaction would be an unexpected error. */
  method ReadBy(store: Store, index: Index, party: Party, a: Address)
    returns (found: seq<Transaction>, err: Error)
    ensures ByHash(store) && IndexOf(index, store, party) ==> Answer(store, party, a, found, err)
  {
    found := [];
    if a !in index {
      NoneStored(store, index, party, a);
      return [], ErrNoMatch;
    }
    var rest := index[a];
    while rest != {}
      invariant rest <= index[a] && index[a] - rest <= store.Keys
      invariant Elems(found) == set h | h in index[a] - rest :: store[h]
      invariant ByHash(store) ==> Distinct(found)
      decreases |rest|
    {
      var h :| h in rest;
      if h !in store {
        return [], ErrUnexpected;
      }
      ElemsSnoc(found, store[h]);
      found := found + [store[h]];
      rest := rest - {h};
    }
    AllFound(store, index, party, a, found);
    return found, Nil;
  }

  lemma NoneStored(store: Store, index: Index, party: Party, a: Address)
    requires a !in index
    ensures IndexOf(index, store, party) ==> Stored(store, party, a) == {}
  {
  }

  lemma AllFound(store: Store, index: Index, party: Party, a: Address, found: seq<Transaction>)
    requires a in index && index[a] <= store.Keys && Elems(found) == set h | h in index[a] :: store[h]
    ensures IndexOf(index, store, party) ==> Elems(found) == Stored(store, party, a) != {}
  {
    if IndexOf(index, store, party) {
      var h :| h in index[a];
      assert store[h] in Elems(found);
    }
  }
}
