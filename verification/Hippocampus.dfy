/**
 The short-lived memory of awaited transactions (src/cache/cache.go:62-223): one key/value store
 holding the transactions under their hashes and, for each address, the text list of the hashes that
 name it. It is proved to hold exactly the live transactions, in the order they were saved.

 Encoding of transactions is lossless, so the store keeps the transaction itself. Entries are not
 evicted, and the store does not fail.
 */
module Hippocampus {
  import opened Basics
  import opened HexList

  type Address = string

  datatype Trx = Trx(hash: Hash32, issuer: Address, receiver: Address, body: seq<Byte>)

  datatype Entry = TrxEntry(trx: Trx) | ListEntry(text: string)

  type Store = map<string, Entry>

  datatype Error = Nil | ErrTrxAlreadyExists | ErrTransactionNotFound | ErrUnauthorized | ErrProcessingFailed

  // ---- keys ----

  function TrxKey(h: Hash32): string {
    "trx-" + HexEncode(h)
  }

  function AddressKey(a: Address): string {
    "address-" + a
  }

  lemma KeysApart(h: Hash32, k: Hash32, a: Address, b: Address)
    ensures TrxKey(h) != AddressKey(a)
    ensures TrxKey(h) == TrxKey(k) ==> h == k
    ensures AddressKey(a) == AddressKey(b) ==> a == b
  {
    hide HexEncode;
    assert TrxKey(h)[0] == 't' && AddressKey(a)[0] == 'a';
    assert TrxKey(h)[4..] == HexEncode(h) && TrxKey(k)[4..] == HexEncode(k);
    assert AddressKey(a)[8..] == a && AddressKey(b)[8..] == b;
    HexRoundTrip(h);
    HexRoundTrip(k);
  }

  // ---- what the store is for ----

  predicate Names(t: Trx, a: Address) {
    t.issuer == a || t.receiver == a
  }

  /** The live transactions naming an address, oldest first. */
  function Naming(live: seq<Trx>, a: Address): seq<Trx> {
    if live == [] then []
    else if Names(live[|live| - 1], a) then Naming(live[..|live| - 1], a) + [live[|live| - 1]]
    else Naming(live[..|live| - 1], a)
  }

  function HashesOf(ts: seq<Trx>): (hs: seq<Hash32>)
    ensures |hs| == |ts|
  {
    if ts == [] then [] else HashesOf(ts[..|ts| - 1]) + [ts[|ts| - 1].hash]
  }

  function WithoutHash(live: seq<Trx>, h: Hash32): seq<Trx> {
    if live == [] then []
    else if live[|live| - 1].hash == h then WithoutHash(live[..|live| - 1], h)
    else WithoutHash(live[..|live| - 1], h) + [live[|live| - 1]]
  }

  ghost predicate DistinctHashes(live: seq<Trx>) {
    forall i, j :: 0 <= i < j < |live| ==> live[i].hash != live[j].hash
  }

  /** The list kept for `a` denotes `hs`; no list stands for the empty one. */
  ghost predicate ListIs(mem: Store, a: Address, hs: seq<Hash32>) {
    if AddressKey(a) in mem then mem[AddressKey(a)].ListEntry? && Denotes(mem[AddressKey(a)].text, hs) else hs == []
  }

  /** The transactions stored by hash are exactly the live ones. */
  ghost predicate StoresExactly(mem: Store, live: seq<Trx>) {
    && (forall i :: 0 <= i < |live| ==> TrxKey(live[i].hash) in mem && mem[TrxKey(live[i].hash)] == TrxEntry(live[i]))
    && (forall h: Hash32 :: TrxKey(h) in mem ==> exists i :: 0 <= i < |live| && live[i].hash == h)
  }

  ghost predicate Lists(mem: Store, live: seq<Trx>) {
    forall a :: ListIs(mem, a, HashesOf(Naming(live, a)))
  }

  ghost predicate Agrees(mem: Store, live: seq<Trx>) {
    DistinctHashes(live) && StoresExactly(mem, live) && Lists(mem, live)
  }

  // ---- one list ----

  function TextAt(mem: Store, a: Address): string {
    if AddressKey(a) in mem && mem[AddressKey(a)].ListEntry? then mem[AddressKey(a)].text else ""
  }

  /** `set` for a new address, `add` for a known one. */
  function Noted(mem: Store, a: Address, h: Hash32): Store {
    mem[AddressKey(a) := ListEntry(AddText(TextAt(mem, a), h))]
  }

  /** What removal does to the list of an address: an empty text goes with its key. */
  function Struck(mem: Store, a: Address, h: Hash32): Store {
    if AddressKey(a) !in mem then mem
    else if TextAt(mem, a) == "" then mem - {AddressKey(a)}
    else mem[AddressKey(a) := ListEntry(RemoveText(TextAt(mem, a), h))]
  }

  lemma EmptyDenotes(hs: seq<Hash32>)
    ensures Denotes("", hs) <==> hs == []
  {
    assert Split("") == [""];
    assert [""][..0] == [];
    assert NonEmpty([""]) == NonEmpty([""][..0]);
    EncodedLength(hs);
  }

  lemma NotedList(mem: Store, a: Address, h: Hash32, b: Address, hs: seq<Hash32>)
    requires ListIs(mem, b, hs)
    ensures ListIs(Noted(mem, a, h), b, if a == b then hs + [h] else hs)
  {
    hide Denotes, AddText, AddressKey;
    KeysApart(h, h, a, b);
    if a == b {
      EmptyDenotes(hs);
      AddDenotes(TextAt(mem, a), hs, h);
    }
  }

  lemma StruckList(mem: Store, a: Address, h: Hash32, b: Address, hs: seq<Hash32>)
    requires ListIs(mem, b, hs)
    ensures ListIs(Struck(mem, a, h), b, if a == b then Dropped(hs, h) else hs)
  {
    hide Denotes, RemoveText, AddressKey;
    KeysApart(h, h, a, b);
    if a == b {
      EmptyDenotes(hs);
      if AddressKey(a) in mem { RemoveDenotes(TextAt(mem, a), hs, h); }
    }
  }

  /** Lists and transactions do not touch each other. */
  lemma ListKeepsTrxs(mem: Store, a: Address, h: Hash32, k: Hash32)
    ensures TrxKey(k) in Noted(mem, a, h) <==> TrxKey(k) in mem
    ensures TrxKey(k) in mem ==> Noted(mem, a, h)[TrxKey(k)] == mem[TrxKey(k)]
    ensures TrxKey(k) in Struck(mem, a, h) <==> TrxKey(k) in mem
    ensures TrxKey(k) in mem ==> Struck(mem, a, h)[TrxKey(k)] == mem[TrxKey(k)]
  {
    hide TrxKey, AddressKey, AddText, RemoveText;
    KeysApart(k, h, a, a);
  }

  lemma NamingSnoc(live: seq<Trx>, t: Trx, a: Address)
    ensures HashesOf(Naming(live + [t], a)) ==
            if Names(t, a) then HashesOf(Naming(live, a)) + [t.hash] else HashesOf(Naming(live, a))
  {
    assert (live + [t])[..|live|] == live;
    if Names(t, a) { HashesSnoc(Naming(live, a), t); }
  }

  lemma HashesSnoc(ts: seq<Trx>, t: Trx)
    ensures HashesOf(ts + [t]) == HashesOf(ts) + [t.hash]
  {
    assert (ts + [t])[..|ts|] == ts;
  }

  lemma {:induction false} NamingWithout(live: seq<Trx>, h: Hash32, a: Address)
    ensures HashesOf(Naming(WithoutHash(live, h), a)) == Dropped(HashesOf(Naming(live, a)), h)
  {
    if live != [] {
      var u, t := live[..|live| - 1], live[|live| - 1];
      NamingWithout(u, h, a);
      assert live == u + [t];
      NamingSnoc(u, t, a);
      if t.hash != h { NamingSnoc(WithoutHash(u, h), t, a); }
      if Names(t, a) { DroppedSnoc(HashesOf(Naming(u, a)), t.hash, h); }
    }
  }

  lemma DroppedSnoc(hs: seq<Hash32>, x: Hash32, h: Hash32)
    ensures Dropped(hs + [x], h) == if x == h then Dropped(hs, h) else Dropped(hs, h) + [x]
  {
    assert (hs + [x])[..|hs|] == hs;
  }

  lemma {:induction false} DroppedTwice(hs: seq<Hash32>, h: Hash32)
    ensures Dropped(Dropped(hs, h), h) == Dropped(hs, h)
  {
    if hs != [] {
      var u, x := hs[..|hs| - 1], hs[|hs| - 1];
      DroppedTwice(u, h);
      if x != h { DroppedSnoc(Dropped(u, h), x, h); }
    }
  }

  // ---- saving ----

  /** The store after `t` is saved; a transaction to oneself is listed once. */
  function Saved(mem: Store, t: Trx): Store {
    var m := mem[TrxKey(t.hash) := TrxEntry(t)];
    if t.issuer == t.receiver then Noted(m, t.receiver, t.hash)
    else Noted(Noted(m, t.issuer, t.hash), t.receiver, t.hash)
  }

  lemma StoredTrxKeepsLists(mem: Store, t: Trx, a: Address, hs: seq<Hash32>)
    requires ListIs(mem, a, hs)
    ensures ListIs(mem[TrxKey(t.hash) := TrxEntry(t)], a, hs)
    ensures ListIs(mem - {TrxKey(t.hash)}, a, hs)
  {
    hide TrxKey, AddressKey, Denotes;
    KeysApart(t.hash, t.hash, a, a);
  }

  lemma SavedLists(mem: Store, live: seq<Trx>, t: Trx)
    requires Lists(mem, live)
    ensures Lists(Saved(mem, t), live + [t])
  {
    hide ListIs, Noted, TrxKey, HashesOf, Naming;
    var m := mem[TrxKey(t.hash) := TrxEntry(t)];
    forall a
      ensures ListIs(Saved(mem, t), a, HashesOf(Naming(live + [t], a)))
    {
      var hs := HashesOf(Naming(live, a));
      assert ListIs(mem, a, hs);
      NamingSnoc(live, t, a);
      StoredTrxKeepsLists(mem, t, a, hs);
      if t.issuer == t.receiver {
        NotedList(m, t.receiver, t.hash, a, hs);
      } else {
        NotedList(m, t.issuer, t.hash, a, hs);
        NotedList(Noted(m, t.issuer, t.hash), t.receiver, t.hash, a, if t.issuer == a then hs + [t.hash] else hs);
      }
    }
  }

  lemma SavedTrxs(mem: Store, t: Trx, k: Hash32)
    ensures TrxKey(k) in Saved(mem, t) <==> k == t.hash || TrxKey(k) in mem
    ensures Saved(mem, t)[TrxKey(t.hash)] == TrxEntry(t)
    ensures TrxKey(k) in mem && k != t.hash ==> Saved(mem, t)[TrxKey(k)] == mem[TrxKey(k)]
  {
    hide Noted, TrxKey, Struck;
    var m := mem[TrxKey(t.hash) := TrxEntry(t)];
    KeysApart(t.hash, k, "", "");
    ListKeepsTrxs(m, t.issuer, t.hash, k);
    ListKeepsTrxs(m, t.receiver, t.hash, k);
    ListKeepsTrxs(Noted(m, t.issuer, t.hash), t.receiver, t.hash, k);
    ListKeepsTrxs(m, t.issuer, t.hash, t.hash);
    ListKeepsTrxs(m, t.receiver, t.hash, t.hash);
    ListKeepsTrxs(Noted(m, t.issuer, t.hash), t.receiver, t.hash, t.hash);
  }

  lemma NewHash(mem: Store, live: seq<Trx>, h: Hash32)
    requires StoresExactly(mem, live)
    ensures TrxKey(h) !in mem <==> forall i :: 0 <= i < |live| ==> live[i].hash != h
  {
    hide TrxKey;
  }

  lemma SavedStores(mem: Store, live: seq<Trx>, t: Trx)
    requires StoresExactly(mem, live) && TrxKey(t.hash) !in mem
    ensures StoresExactly(Saved(mem, t), live + [t])
  {
    hide TrxKey, Saved;
    var now := live + [t];
    NewHash(mem, live, t.hash);
    forall i | 0 <= i < |now|
      ensures TrxKey(now[i].hash) in Saved(mem, t) && Saved(mem, t)[TrxKey(now[i].hash)] == TrxEntry(now[i])
    {
      SavedTrxs(mem, t, now[i].hash);
    }
    forall h: Hash32 | TrxKey(h) in Saved(mem, t)
      ensures exists i :: 0 <= i < |now| && now[i].hash == h
    {
      SavedTrxs(mem, t, h);
      if h == t.hash {
        assert now[|live|].hash == h;
      } else {
        var i :| 0 <= i < |live| && live[i].hash == h;
        assert now[i].hash == h;
      }
    }
  }

  lemma SavedAgrees(mem: Store, live: seq<Trx>, t: Trx)
    requires Agrees(mem, live) && TrxKey(t.hash) !in mem
    ensures Agrees(Saved(mem, t), live + [t])
  {
    hide Lists, StoresExactly, TrxKey, Saved;
    SavedLists(mem, live, t);
    SavedStores(mem, live, t);
    NewHash(mem, live, t.hash);
  }

  // ---- removing ----

  function Removed(mem: Store, t: Trx): Store {
    Struck(Struck(mem - {TrxKey(t.hash)}, t.issuer, t.hash), t.receiver, t.hash)
  }

  lemma RemovedLists(mem: Store, live: seq<Trx>, t: Trx)
    requires Lists(mem, live) && forall i :: 0 <= i < |live| && live[i].hash == t.hash ==> live[i] == t
    ensures Lists(Removed(mem, t), WithoutHash(live, t.hash))
  {
    hide ListIs, Struck, TrxKey, HashesOf, Naming, Dropped, WithoutHash;
    var m, h := mem - {TrxKey(t.hash)}, t.hash;
    forall a
      ensures ListIs(Removed(mem, t), a, HashesOf(Naming(WithoutHash(live, h), a)))
    {
      var hs := HashesOf(Naming(live, a));
      assert ListIs(mem, a, hs);
      NamingWithout(live, h, a);
      StoredTrxKeepsLists(mem, t, a, hs);
      StruckList(m, t.issuer, h, a, hs);
      var hs' := if t.issuer == a then Dropped(hs, h) else hs;
      StruckList(Struck(m, t.issuer, h), t.receiver, h, a, hs');
      DroppedTwice(hs, h);
      if !Names(t, a) { NothingDropped(live, t, a); }
    }
  }

  /** The list of an address the transaction does not name loses nothing. */
  lemma {:induction false} NothingDropped(live: seq<Trx>, t: Trx, a: Address)
    requires !Names(t, a) && forall i :: 0 <= i < |live| && live[i].hash == t.hash ==> live[i] == t
    ensures Dropped(HashesOf(Naming(live, a)), t.hash) == HashesOf(Naming(live, a))
  {
    if live != [] {
      var u, x := live[..|live| - 1], live[|live| - 1];
      NothingDropped(u, t, a);
      assert live == u + [x];
      NamingSnoc(u, x, a);
      if Names(x, a) { DroppedSnoc(HashesOf(Naming(u, a)), x.hash, t.hash); }
    }
  }

  lemma RemovedTrxs(mem: Store, t: Trx, k: Hash32)
    ensures TrxKey(k) in Removed(mem, t) <==> k != t.hash && TrxKey(k) in mem
    ensures TrxKey(k) in Removed(mem, t) ==> Removed(mem, t)[TrxKey(k)] == mem[TrxKey(k)]
  {
    hide Noted, TrxKey, Struck;
    var m := mem - {TrxKey(t.hash)};
    KeysApart(t.hash, k, "", "");
    ListKeepsTrxs(m, t.issuer, t.hash, k);
    ListKeepsTrxs(Struck(m, t.issuer, t.hash), t.receiver, t.hash, k);
  }

  /** What is left of the live transactions: those with another hash, in their order. */
  lemma {:induction false} WithoutMeans(live: seq<Trx>, h: Hash32)
    ensures forall x :: x in WithoutHash(live, h) <==> x in live && x.hash != h
  {
    if live != [] {
      WithoutMeans(live[..|live| - 1], h);
      assert live == live[..|live| - 1] + [live[|live| - 1]];
    }
  }

  lemma {:induction false} WithoutDistinct(live: seq<Trx>, h: Hash32)
    requires DistinctHashes(live)
    ensures DistinctHashes(WithoutHash(live, h))
  {
    if live != [] {
      var u, x := live[..|live| - 1], live[|live| - 1];
      WithoutDistinct(u, h);
      WithoutMeans(u, h);
      forall i | 0 <= i < |WithoutHash(u, h)|
        ensures WithoutHash(u, h)[i].hash != x.hash
      {
        assert WithoutHash(u, h)[i] in u;
      }
    }
  }

  lemma RemovedStores(mem: Store, live: seq<Trx>, t: Trx)
    requires StoresExactly(mem, live)
    ensures StoresExactly(Removed(mem, t), WithoutHash(live, t.hash))
  {
    hide TrxKey, Removed, WithoutHash;
    var now := WithoutHash(live, t.hash);
    WithoutMeans(live, t.hash);
    forall i | 0 <= i < |now|
      ensures TrxKey(now[i].hash) in Removed(mem, t) && Removed(mem, t)[TrxKey(now[i].hash)] == TrxEntry(now[i])
    {
      assert now[i] in now;
      var j :| 0 <= j < |live| && live[j] == now[i];
      RemovedTrxs(mem, t, live[j].hash);
    }
    forall h: Hash32 | TrxKey(h) in Removed(mem, t)
      ensures exists i :: 0 <= i < |now| && now[i].hash == h
    {
      RemovedTrxs(mem, t, h);
      var j :| 0 <= j < |live| && live[j].hash == h;
      assert live[j] in now;
    }
  }

  lemma RemovedAgrees(mem: Store, live: seq<Trx>, t: Trx)
    requires Agrees(mem, live) && t in live
    ensures Agrees(Removed(mem, t), WithoutHash(live, t.hash))
  {
    hide Lists, StoresExactly, Removed, WithoutHash;
    RemovedLists(mem, live, t);
    RemovedStores(mem, live, t);
    WithoutDistinct(live, t.hash);
  }

  // ---- reading ----

  lemma {:induction false} NamingMeans(live: seq<Trx>, a: Address)
    ensures forall x :: x in Naming(live, a) <==> x in live && Names(x, a)
  {
    if live != [] {
      NamingMeans(live[..|live| - 1], a);
      assert live == live[..|live| - 1] + [live[|live| - 1]];
    }
  }

  lemma {:induction false} HashAt(ts: seq<Trx>, i: nat)
    requires i < |ts|
    ensures HashesOf(ts)[i] == ts[i].hash
  {
    if i < |ts| - 1 { HashAt(ts[..|ts| - 1], i); }
  }

  lemma StoredAt(mem: Store, live: seq<Trx>, a: Address, i: nat)
    requires Agrees(mem, live) && i < |Naming(live, a)|
    ensures var t := Naming(live, a)[i];
      HashesOf(Naming(live, a))[i] == t.hash && TrxKey(t.hash) in mem && mem[TrxKey(t.hash)] == TrxEntry(t)
  {
    hide Lists, TrxKey, Naming;
    var t := Naming(live, a)[i];
    HashAt(Naming(live, a), i);
    NamingMeans(live, a);
    assert t in Naming(live, a);
    var j :| 0 <= j < |live| && live[j] == t;
  }

  class Memory {
    var mem: Store
    /** The transactions saved and not removed, oldest first. */
    ghost var live: seq<Trx>
    /** The addresses that two live transactions named at one time. */
    ghost var crowded: set<Address>

    ghost predicate Valid()
      reads this
    {
      Agrees(mem, live) && Marked(mem, crowded)
    }

    constructor ()
      ensures Valid() && live == [] && crowded == {}
    {
      mem, live, crowded := map[], [], {};
    }

    method NoteHash(a: Address, h: Hash32)
      modifies this`mem
      ensures mem == Noted(old(mem), a, h)
    {
      mem := mem[AddressKey(a) := ListEntry(AddText(TextAt(mem, a), h))];
    }

    /** A new transaction becomes the youngest live one; a known hash is refused. */
    method SaveAwaitedTransaction(trx: Trx) returns (err: Error)
      requires Valid()
      modifies this
      ensures Valid()
      ensures err == Nil <==> forall i :: 0 <= i < |old(live)| ==> old(live)[i].hash != trx.hash
      ensures err == Nil || err == ErrTrxAlreadyExists
      ensures live == if err == Nil then old(live) + [trx] else old(live)
      ensures crowded == if err == Nil then old(crowded) + Crowded(old(live), trx) else old(crowded)
    {
      hide Lists, StoresExactly, TrxKey, Noted, Marked, Crowded;
      NewHash(mem, live, trx.hash);
      if TrxKey(trx.hash) in mem {
        return ErrTrxAlreadyExists;
      }
      SavedAgrees(mem, live, trx);
      SavedMarks(mem, live, trx, crowded);
      mem := mem[TrxKey(trx.hash) := TrxEntry(trx)];
      if trx.issuer != trx.receiver {
        NoteHash(trx.issuer, trx.hash);
      }
      NoteHash(trx.receiver, trx.hash);
      crowded := crowded + Crowded(live, trx);
      live := live + [trx];
      return Nil;
    }

    method StrikeHash(a: Address, h: Hash32)
      modifies this`mem
      ensures mem == Struck(old(mem), a, h)
    {
      if AddressKey(a) !in mem {
        return;
      }
      if TextAt(mem, a) == "" {
        mem := mem - {AddressKey(a)};
        return;
      }
      var text := Remove(TextAt(mem, a), h);
      mem := mem[AddressKey(a) := ListEntry(text)];
    }

    /** Only the receiver removes a live transaction; all others stay, in their order. */
    method RemoveAwaitedTransaction(hash: Hash32, address: Address) returns (trx: Option<Trx>, err: Error)
      requires Valid()
      modifies this
      ensures Valid() && crowded == old(crowded)
      ensures err == Nil <==> trx.Some?
      ensures err == Nil ==> trx.value in old(live) && trx.value.hash == hash && trx.value.receiver == address
      ensures err == ErrTransactionNotFound <==> forall i :: 0 <= i < |old(live)| ==> old(live)[i].hash != hash
      ensures err == Nil || err == ErrTransactionNotFound || err == ErrUnauthorized
      ensures err == ErrUnauthorized ==>
        exists i :: 0 <= i < |old(live)| && old(live)[i].hash == hash && old(live)[i].receiver != address
      ensures live == if err == Nil then WithoutHash(old(live), hash) else old(live)
    {
      hide Lists, TrxKey, Struck, WithoutHash, Marked;
      NewHash(mem, live, hash);
      if TrxKey(hash) !in mem {
        return None, ErrTransactionNotFound;
      }
      LiveEntry(mem, live, hash);
      var t := mem[TrxKey(hash)].trx;
      if t.receiver != address {
        return None, ErrUnauthorized;
      }
      RemovedAgrees(mem, live, t);
      RemovedMarks(mem, live, t, crowded);
      mem := mem - {TrxKey(hash)};
      StrikeHash(t.issuer, hash);
      StrikeHash(t.receiver, hash);
      live := WithoutHash(live, hash);
      return Some(t), Nil;
    }

    /**
     Exactly the live transactions naming the address, oldest first. None are reported as not found, unless
     two ever named the address at one time: then its list keeps a comma and the answer is an empty list.
     */
    method ReadTransactions(address: Address) returns (found: seq<Trx>, err: Error)
      requires Valid()
      modifies this`mem
      ensures Valid()
      ensures found == Naming(live, address)
      ensures forall t :: t in found <==> t in live && (t.issuer == address || t.receiver == address)
      ensures err == if found == [] && address !in crowded then ErrTransactionNotFound else Nil
    {
      hide Lists, StoresExactly, TrxKey, DistinctHashes, Naming, HashesOf, ListIs, Marked;
      NamingMeans(live, address);
      ListAt(mem, live, address);
      EmptyText(mem, live, address, crowded);
      found := [];
      if AddressKey(address) !in mem {
        return [], ErrTransactionNotFound;
      }
      if TextAt(mem, address) == "" {
        EmptyListGone(mem, live, address);
        EmptyListMarks(mem, address, crowded);
        mem := mem - {AddressKey(address)};
        return [], ErrTransactionNotFound;
      }
      var r := Read(TextAt(mem, address));
      if r.Panicked? {
        return [], ErrProcessingFailed;
      }
      var hashes, ok := r.hashes, r.ok;
      for i := 0 to |hashes|
        invariant mem == old(mem) && found == Naming(live, address)[..i]
      {
        StoredAt(mem, live, address, i);
        found := found + [mem[TrxKey(hashes[i])].trx];
      }
      return found, if ok then Nil else ErrProcessingFailed;
    }
  }

  // ---- commas left behind ----

  ghost predicate Marked(mem: Store, crowded: set<Address>) {
    forall a :: a in crowded <==> !NoComma(TextAt(mem, a))
  }

  /** The addresses `t` names beside a live transaction. */
  ghost function Crowded(live: seq<Trx>, t: Trx): set<Address> {
    set a | a in {t.issuer, t.receiver} && Naming(live, a) != []
  }

  lemma NotedText(mem: Store, a: Address, h: Hash32, b: Address)
    ensures TextAt(Noted(mem, a, h), b) == if a == b then AddText(TextAt(mem, a), h) else TextAt(mem, b)
  {
    hide AddText, AddressKey;
    KeysApart(h, h, a, b);
  }

  lemma StruckText(mem: Store, a: Address, h: Hash32, b: Address)
    ensures TextAt(Struck(mem, a, h), b) ==
            if a == b && TextAt(mem, a) != "" then RemoveText(TextAt(mem, a), h) else TextAt(mem, b)
  {
    hide RemoveText, AddressKey;
    KeysApart(h, h, a, b);
  }

  lemma TrxKeepsText(mem: Store, t: Trx, a: Address)
    ensures TextAt(mem[TrxKey(t.hash) := TrxEntry(t)], a) == TextAt(mem, a) == TextAt(mem - {TrxKey(t.hash)}, a)
  {
    hide TrxKey, AddressKey;
    KeysApart(t.hash, t.hash, a, a);
  }

  lemma SavedText(mem: Store, t: Trx, a: Address)
    ensures TextAt(Saved(mem, t), a) == if Names(t, a) then AddText(TextAt(mem, a), t.hash) else TextAt(mem, a)
  {
    hide TrxKey, AddText, Noted, TextAt;
    var m := mem[TrxKey(t.hash) := TrxEntry(t)];
    TrxKeepsText(mem, t, a);
    NotedText(m, t.issuer, t.hash, a);
    NotedText(Noted(m, t.issuer, t.hash), t.receiver, t.hash, a);
    NotedText(m, t.receiver, t.hash, a);
  }

  lemma EmptyText(mem: Store, live: seq<Trx>, a: Address, crowded: set<Address>)
    requires Agrees(mem, live) && Marked(mem, crowded)
    ensures TextAt(mem, a) == "" <==> Naming(live, a) == [] && a !in crowded
  {
    hide StoresExactly, Lists, DistinctHashes, Denotes, Naming, HashesOf, AddressKey;
    ListAt(mem, live, a);
    if AddressKey(a) in mem && NoComma(TextAt(mem, a)) {
      PlainDenotes(TextAt(mem, a), HashesOf(Naming(live, a)));
    }
  }

  lemma SavedMarks(mem: Store, live: seq<Trx>, t: Trx, crowded: set<Address>)
    requires Agrees(mem, live) && Marked(mem, crowded)
    ensures Marked(Saved(mem, t), crowded + Crowded(live, t))
  {
    hide Agrees, Naming, TextAt, Saved, HexEncode;
    forall a
      ensures a in crowded + Crowded(live, t) <==> !NoComma(TextAt(Saved(mem, t), a))
    {
      SavedText(mem, t, a);
      EmptyText(mem, live, a, crowded);
      var text := TextAt(mem, a);
      if text != "" { assert (text + "," + HexEncode(t.hash))[|text|] == ','; }
    }
  }

  lemma {:induction false} ListedOnce(live: seq<Trx>, a: Address)
    requires DistinctHashes(live)
    ensures forall i, j :: 0 <= i < j < |Naming(live, a)| ==> Naming(live, a)[i].hash != Naming(live, a)[j].hash
  {
    if live != [] {
      var u, x := live[..|live| - 1], live[|live| - 1];
      ListedOnce(u, a);
      NamingMeans(u, a);
      forall y | y in Naming(u, a)
        ensures y.hash != x.hash
      {
        var i :| 0 <= i < |u| && u[i] == y;
        assert live[i] == y;
      }
    }
  }

  lemma ListedHashes(live: seq<Trx>, t: Trx, a: Address)
    requires DistinctHashes(live)
    ensures var hs := HashesOf(Naming(live, a));
      && (forall i, j :: 0 <= i < j < |hs| ==> hs[i] != hs[j])
      && (t in live && Names(t, a) ==> t.hash in hs)
  {
    hide Naming, HashesOf, DistinctHashes;
    var ts := Naming(live, a);
    ListedOnce(live, a);
    NamingMeans(live, a);
    forall i | 0 <= i < |ts|
      ensures HashesOf(ts)[i] == ts[i].hash
    {
      HashAt(ts, i);
    }
    if t in ts {
      var i :| 0 <= i < |ts| && ts[i] == t;
      assert HashesOf(ts)[i] == t.hash;
    }
  }

  /** Removing a hash from a text that lists it: a single numeral leaves nothing, and commas stay. */
  lemma RemovedMark(text: string, hs: seq<Hash32>, h: Hash32)
    requires Denotes(text, hs) && forall i, j :: 0 <= i < j < |hs| ==> hs[i] != hs[j]
    ensures !NoComma(text) ==> !NoComma(RemoveText(text, h))
    ensures NoComma(text) && h in hs ==> RemoveText(text, h) == ""
  {
    hide HexEncode, RemoveText, Denotes;
    if NoComma(text) {
      PlainDenotes(text, hs);
      SplitPlain(text);
      if h in hs { RemovedToNothing(text, h); }
    } else {
      CommaStays(text, hs, h);
    }
  }

  lemma RemovedMarks(mem: Store, live: seq<Trx>, t: Trx, crowded: set<Address>)
    requires Agrees(mem, live) && t in live && Marked(mem, crowded)
    ensures Marked(Removed(mem, t), crowded)
  {
    hide Agrees, TextAt, Removed, Names;
    forall a
      ensures a in crowded <==> !NoComma(TextAt(Removed(mem, t), a))
    {
      RemovedText(mem, t, a);
      if Names(t, a) { RemovedTextMarks(mem, live, t, a); }
    }
  }

  lemma RemovedText(mem: Store, t: Trx, a: Address)
    ensures !Names(t, a) ==> TextAt(Removed(mem, t), a) == TextAt(mem, a)
    ensures Names(t, a) ==>
      var once := Strike(TextAt(mem, a), t.hash);
      TextAt(Removed(mem, t), a) == if t.issuer == t.receiver then Strike(once, t.hash) else once
  {
    hide TrxKey, RemoveText, Struck, TextAt;
    var m := mem - {TrxKey(t.hash)};
    TrxKeepsText(mem, t, a);
    StruckText(m, t.issuer, t.hash, a);
    StruckText(Struck(m, t.issuer, t.hash), t.receiver, t.hash, a);
  }

  function Strike(text: string, h: Hash32): string {
    if text == "" then "" else RemoveText(text, h)
  }

  lemma RemovedTextMarks(mem: Store, live: seq<Trx>, t: Trx, a: Address)
    requires Agrees(mem, live) && t in live && Names(t, a)
    ensures var once := Strike(TextAt(mem, a), t.hash);
      && (NoComma(once) <==> NoComma(TextAt(mem, a)))
      && (NoComma(Strike(once, t.hash)) <==> NoComma(TextAt(mem, a)))
  {
    hide StoresExactly, Lists, Naming, HashesOf, Denotes, RemoveText, AddressKey;
    var text, hs, h := TextAt(mem, a), HashesOf(Naming(live, a)), t.hash;
    ListAt(mem, live, a);
    ListedHashes(live, t, a);
    if AddressKey(a) in mem {
      RemovedMark(text, hs, h);
      if !NoComma(text) {
        RemoveDenotes(text, hs, h);
        DroppedDistinct(hs, h);
        RemovedMark(RemoveText(text, h), Dropped(hs, h), h);
      }
    }
  }

  lemma {:induction false} DroppedDistinct(hs: seq<Hash32>, h: Hash32)
    requires forall i, j :: 0 <= i < j < |hs| ==> hs[i] != hs[j]
    ensures forall i, j :: 0 <= i < j < |Dropped(hs, h)| ==> Dropped(hs, h)[i] != Dropped(hs, h)[j]
    ensures forall x :: x in Dropped(hs, h) ==> x in hs
  {
    if hs != [] {
      var u, x := hs[..|hs| - 1], hs[|hs| - 1];
      DroppedDistinct(u, h);
      forall y | y in u
        ensures y != x
      {
        var i :| 0 <= i < |u| && u[i] == y;
        assert hs[i] == y;
      }
      var d := Dropped(u, h);
      assert forall i :: 0 <= i < |d| ==> d[i] in d;
    }
  }

  lemma EmptyListMarks(mem: Store, a: Address, crowded: set<Address>)
    requires Marked(mem, crowded) && TextAt(mem, a) == ""
    ensures Marked(mem - {AddressKey(a)}, crowded)
  {
    hide AddressKey;
    forall b
      ensures TextAt(mem - {AddressKey(a)}, b) == TextAt(mem, b)
    {
      KeysApart(ZeroHash32(), ZeroHash32(), a, b);
    }
  }

  lemma LiveEntry(mem: Store, live: seq<Trx>, h: Hash32)
    requires StoresExactly(mem, live) && TrxKey(h) in mem
    ensures mem[TrxKey(h)].TrxEntry? && mem[TrxKey(h)].trx in live && mem[TrxKey(h)].trx.hash == h
  {
    hide TrxKey;
  }

  lemma ListAt(mem: Store, live: seq<Trx>, a: Address)
    requires Agrees(mem, live)
    ensures AddressKey(a) in mem ==> mem[AddressKey(a)].ListEntry?
    ensures AddressKey(a) in mem ==> Denotes(TextAt(mem, a), HashesOf(Naming(live, a)))
    ensures TextAt(mem, a) == "" ==> Naming(live, a) == []
    ensures |HashesOf(Naming(live, a))| == |Naming(live, a)|
  {
    hide StoresExactly, DistinctHashes, Denotes, Naming, AddressKey, HashesOf;
    assert ListIs(mem, a, HashesOf(Naming(live, a)));
    EmptyDenotes(HashesOf(Naming(live, a)));
  }

  lemma EmptyListGone(mem: Store, live: seq<Trx>, a: Address)
    requires Agrees(mem, live) && AddressKey(a) in mem && TextAt(mem, a) == ""
    ensures Agrees(mem - {AddressKey(a)}, live)
  {
    hide StoresExactly, DistinctHashes, Denotes, Naming, AddressKey, HashesOf, TrxKey;
    EmptyListStores(mem, live, a);
    ListAt(mem, live, a);
    forall b
      ensures ListIs(mem - {AddressKey(a)}, b, HashesOf(Naming(live, b)))
    {
      KeysApart(ZeroHash32(), ZeroHash32(), a, b);
      assert ListIs(mem, b, HashesOf(Naming(live, b)));
      if b == a { NoHashes(); }
    }
  }

  function ZeroHash32(): Hash32 {
    seq(32, _ => 0)
  }

  lemma NoHashes()
    ensures HashesOf([]) == []
  {
  }

  lemma EmptyListStores(mem: Store, live: seq<Trx>, a: Address)
    requires StoresExactly(mem, live)
    ensures StoresExactly(mem - {AddressKey(a)}, live)
  {
    hide TrxKey, AddressKey;
    forall h: Hash32
      ensures TrxKey(h) != AddressKey(a)
    {
      KeysApart(h, h, a, a);
    }
  }

  /** Two transactions saved and removed leave a comma behind, one leaves nothing. */
  lemma CommaLeftBehind(h: Hash32, k: Hash32)
    requires h != k
    ensures RemoveText(AddText("", h), h) == ""
    ensures RemoveText(RemoveText(AddText(AddText("", h), k), h), k) == ","
  {
    hide HexEncode, Kept, Commas, Split;
    var x, y := HexEncode(h), HexEncode(k);
    HexRoundTrip(h);
    HexRoundTrip(k);
    SplitPlain("");
    SplitPlain(x);
    SplitAppend(x, y);
    SplitAppend("", y);
    OnePart(x, x);
    TwoParts(x, y, x);
    TwoParts("", y, y);
    assert AddText(AddText("", h), k) == x + "," + y && [x] + [y] == [x, y];
    assert RemoveText(x + "," + y, h) == "," + y;
    assert "" + "," + y == "," + y && [""] + [y] == ["", y] && "," + "" == ",";
  }

  lemma OnePart(p: string, enc: string)
    ensures Kept([p], enc) == if p == enc then [] else [p]
    ensures Commas([]) == "" && Commas([p]) == "," + p
  {
    assert [p][..0] == [];
    assert Kept([], enc) == [] && Commas([]) == "";
  }

  lemma TwoParts(p: string, q: string, enc: string)
    ensures Kept([p, q], enc) == Kept([p], enc) + (if q == enc then [] else [q])
    ensures p == enc && q != enc ==> Commas(Kept([p, q], enc)) == "," + q
    ensures p != enc && q == enc ==> Commas(Kept([p, q], enc)) == "," + p
  {
    assert [p] + [q] == [p, q];
    KeptSnoc([p], enc, q);
    OnePart(p, enc);
    OnePart(q, enc);
  }
}
