/**
 The session object as the program keeps and updates it, proved against `SessionSpec`.
 Every method ties the new state to what the specification function makes of the old.
 */
module Ratchet {
  import opened Wrappers
  import opened Bytes
  import opened Sorting
  import opened Crypto
  import opened KeyQueue
  import opened SessionSpec
  import opened SkippedStore

  /** A copy of all fields, taken before a delivery is tried. */
  datatype Snapshot = Snapshot(
    rootKey: RootKey, dhs: KeyPair, dhr: Option<Key32>,
    sendingChainKey: Option<ChainKey>, receivingChainKey: Option<ChainKey>,
    sendingMsgNumber: U32, receivingMsgNumber: U32, previousSendingChainLength: U32,
    skippedKeys: map<KeyId, MessageKey>, skippedKeyOrder: seq<KeyId>, retiredPeerDhKeys: seq<Key32>)

  class RatchetState {
    var rootKey: RootKey
    var dhs: KeyPair
    var dhr: Option<Key32>
    var sendingChainKey: Option<ChainKey>
    var receivingChainKey: Option<ChainKey>
    var sendingMsgNumber: U32
    var receivingMsgNumber: U32
    var previousSendingChainLength: U32
    var skippedKeys: map<KeyId, MessageKey>
    var skippedKeyOrder: seq<KeyId>
    var retiredPeerDhKeys: seq<Key32>

    /** The order list may miss banked keys, as in sessions saved before it existed. */
    ghost predicate Valid()
      reads this
    {
      StoreValid(skippedKeys, skippedKeyOrder)
    }

    /** The order list names every banked key. */
    ghost predicate Ordered()
      reads this
    {
      Members(skippedKeyOrder) == skippedKeys.Keys
    }

    /** The queue that the map and the list stand for. */
    ghost function Stored(): Queue
      reads this
      requires Valid()
    {
      QueueOf(skippedKeys, skippedKeyOrder)
    }

    /** The abstract session. */
    ghost function View(): Session
      reads this
      requires Valid()
    {
      Session(rootKey, dhs, dhr, sendingChainKey, receivingChainKey, sendingMsgNumber, receivingMsgNumber,
              previousSendingChainLength, Stored(), retiredPeerDhKeys)
    }

    function Saved(): Snapshot
      reads this
    {
      Snapshot(rootKey, dhs, dhr, sendingChainKey, receivingChainKey, sendingMsgNumber, receivingMsgNumber,
               previousSendingChainLength, skippedKeys, skippedKeyOrder, retiredPeerDhKeys)
    }

    constructor Initiator(master: RootKey, theirSpk: Key32, next: KeyPair)
      ensures Valid() && Ordered() && View() == InitInitiator(master, theirSpk, next)
    {
      var dhOut := DeriveShared(next.priv, theirSpk);
      rootKey := NextRoot(master, dhOut);
      dhs := next;
      dhr := Some(theirSpk);
      sendingChainKey := Some(ChainOf(master, dhOut));
      receivingChainKey := None;
      sendingMsgNumber, receivingMsgNumber, previousSendingChainLength := 0, 0, 0;
      skippedKeys, skippedKeyOrder, retiredPeerDhKeys := map[], [], [];
      new;
      NothingLeft({}, []);
    }

    constructor Responder(master: RootKey, spk: KeyPair)
      ensures Valid() && Ordered() && View() == InitResponder(master, spk)
    {
      rootKey := master;
      dhs := spk;
      dhr := None;
      sendingChainKey, receivingChainKey := None, None;
      sendingMsgNumber, receivingMsgNumber, previousSendingChainLength := 0, 0, 0;
      skippedKeys, skippedKeyOrder, retiredPeerDhKeys := map[], [], [];
      new;
      NothingLeft({}, []);
    }

    /** Loads a saved session, whose order list may be missing or partial. */
    constructor Load(saved: Snapshot)
      requires StoreValid(saved.skippedKeys, saved.skippedKeyOrder)
      ensures Valid() && Saved() == saved
    {
      rootKey, dhs, dhr := saved.rootKey, saved.dhs, saved.dhr;
      sendingChainKey, receivingChainKey := saved.sendingChainKey, saved.receivingChainKey;
      sendingMsgNumber, receivingMsgNumber := saved.sendingMsgNumber, saved.receivingMsgNumber;
      previousSendingChainLength := saved.previousSendingChainLength;
      skippedKeys, skippedKeyOrder := saved.skippedKeys, saved.skippedKeyOrder;
      retiredPeerDhKeys := saved.retiredPeerDhKeys;
    }

    method Encrypt(text: Bytes, ad: Bytes, nonce: Bytes) returns (r: Result<Wire, RatchetError>)
      requires Valid()
      modifies this
      ensures Valid() && (old(Ordered()) ==> Ordered())
      ensures match SessionSpec.Encrypt(old(View()), text, ad, nonce)
              case Ok(out) => r == Ok(out.wire) && View() == out.session
              case Err(e) => r == Err(e) && Saved() == old(Saved())
    {
      if sendingChainKey.None? {
        return Err(NoSendingChain);
      }
      var ck := sendingChainKey.value;
      sendingChainKey := Some(NextChain(ck));
      var pn, n := previousSendingChainLength, sendingMsgNumber;
      sendingMsgNumber := WrapInc32(sendingMsgNumber);
      var body := Sealed(MessageKeyOf(ck), nonce, text, ad + EncodeHeader(dhs.pub, pn, n));
      r := Ok(Wire(Some(dhs.pub), pn, n, Some(nonce), Some(body)));
    }

    /** A delivery: on any failure the whole state is put back. */
    method Decrypt(wire: Wire, ad: Bytes, next: KeyPair) returns (r: Result<Bytes, RatchetError>)
      requires Valid()
      modifies this
      ensures Valid() && (old(Ordered()) ==> Ordered())
      ensures match SessionSpec.Decrypt(old(View()), wire, ad, next)
              case Ok(got) => r == Ok(got.text) && View() == got.session
              case Err(e) => r == Err(e) && Saved() == old(Saved())
    {
      var snapshot := Saved();
      r := DecryptInner(wire, ad, next);
      if r.Err? {
        Restore(snapshot);
      }
    }

    method Restore(saved: Snapshot)
      modifies this
      ensures Saved() == saved
    {
      rootKey, dhs, dhr := saved.rootKey, saved.dhs, saved.dhr;
      sendingChainKey, receivingChainKey := saved.sendingChainKey, saved.receivingChainKey;
      sendingMsgNumber, receivingMsgNumber := saved.sendingMsgNumber, saved.receivingMsgNumber;
      previousSendingChainLength := saved.previousSendingChainLength;
      skippedKeys, skippedKeyOrder := saved.skippedKeys, saved.skippedKeyOrder;
      retiredPeerDhKeys := saved.retiredPeerDhKeys;
    }

    method DecryptInner(wire: Wire, ad: Bytes, next: KeyPair) returns (r: Result<Bytes, RatchetError>)
      requires Valid()
      modifies this
      ensures Valid() && (old(Ordered()) ==> Ordered())
      ensures match SessionSpec.Decrypt(old(View()), wire, ad, next)
              case Ok(got) => r == Ok(got.text) && View() == got.session
              case Err(e) => r == Err(e)
    {
      var decoded := DecodeKey(wire.dhPub);
      if decoded.Err? {
        return Err(decoded.error);
      }
      var dh := decoded.value;
      var late := TrySkippedMessageKey(wire, dh, ad);
      if late.Err? {
        return Err(late.error);
      }
      if late.value.Some? {
        return Ok(late.value.value);
      }
      if dh in retiredPeerDhKeys || (dhr == Some(dh) && wire.n < receivingMsgNumber) {
        return Err(Replay(wire.n));
      }
      r := OpenAhead(wire, dh, ad, next);
    }

    /** Step the ratchet if the key is new, skip to the message and open it. */
    method OpenAhead(wire: Wire, dh: Key32, ad: Bytes, next: KeyPair) returns (r: Result<Bytes, RatchetError>)
      requires Valid()
      modifies this
      ensures Valid() && (old(Ordered()) ==> Ordered())
      ensures match FromAhead(old(View()), wire, dh, ad, next)
              case Ok(got) => r == Ok(got.text) && View() == got.session
              case Err(e) => r == Err(e)
    {
      if dhr != Some(dh) {
        var skipped := SkipMessageKeys(wire.pn);
        if skipped.Err? {
          return Err(skipped.error);
        }
        DhRatchetStep(dh, next);
      }
      var skipped := SkipMessageKeys(wire.n);
      if skipped.Err? {
        return Err(skipped.error);
      }
      r := OpenNext(wire, dh, ad);
    }

    method OpenNext(wire: Wire, dh: Key32, ad: Bytes) returns (r: Result<Bytes, RatchetError>)
      requires Valid()
      modifies this
      ensures Valid() && (old(Ordered()) ==> Ordered())
      ensures match FromChain(old(View()), wire, dh, ad)
              case Ok(got) => r == Ok(got.text) && View() == got.session
              case Err(e) => r == Err(e)
    {
      if receivingChainKey.None? {
        return Err(NoReceivingChain);
      }
      var key := MessageKeyOf(receivingChainKey.value);
      receivingChainKey := Some(NextChain(receivingChainKey.value));
      receivingMsgNumber := WrapInc32(receivingMsgNumber);
      r := OpenWire(key, wire, dh, ad);
    }

    method TrySkippedMessageKey(wire: Wire, dh: Key32, ad: Bytes) returns (r: Result<Option<Bytes>, RatchetError>)
      requires Valid()
      modifies this
      ensures Valid() && (old(Ordered()) ==> Ordered())
      ensures match Find(old(View()).bank, KeyId(dh, wire.n))
              case None => r == Ok(None) && View() == old(View())
              case Some(key) =>
                match FromBank(old(View()), wire, dh, key, ad)
                case Ok(got) => r == Ok(Some(got.text)) && View() == got.session
                case Err(e) => r == Err(e) && View() == old(View())
    {
      var id := KeyId(dh, wire.n);
      LookupAgrees(skippedKeys, skippedKeyOrder, id);
      if id !in skippedKeys {
        return Ok(None);
      }
      var plain := OpenWire(skippedKeys[id], wire, dh, ad);
      if plain.Err? {
        return Err(plain.error);
      }
      RemoveKey(skippedKeys, skippedKeyOrder, id);
      skippedKeys := skippedKeys - {id};
      skippedKeyOrder := Retain(skippedKeyOrder, id);
      r := Ok(Some(plain.value));
    }

    method SkipMessageKeys(until: U32) returns (r: Result<(), RatchetError>)
      requires Valid()
      modifies this
      ensures Valid() && (old(Ordered()) ==> Ordered())
      ensures match Skip(old(View()), until)
              case Ok(s) => r == Ok(()) && View() == s
              case Err(e) => r == Err(e) && View() == old(View())
    {
      if receivingChainKey.None? {
        return Ok(());
      }
      if SaturatingAdd32(receivingMsgNumber, MAX_SKIP) < until {
        return Err(TooManySkipped(MAX_SKIP));
      }
      if dhr.None? {
        return Ok(());
      }
      var ck := BankUpTo(dhr.value, receivingChainKey.value, until);
      receivingChainKey := Some(ck);
      SkipToIs(old(View()), until, View());
      r := Ok(());
    }

    /** Derives and banks the keys before `until`; returns the chain key reached. */
    method BankUpTo(dh: Key32, start: ChainKey, until: U32) returns (ck: ChainKey)
      requires Valid()
      modifies this`skippedKeys, this`skippedKeyOrder, this`receivingMsgNumber
      ensures Valid() && (old(Ordered()) ==> Ordered())
      ensures receivingMsgNumber == if old(receivingMsgNumber) < until then until else old(receivingMsgNumber)
      ensures ck == Advance(start, receivingMsgNumber - old(receivingMsgNumber))
      ensures Stored() == BankAll(old(Stored()), Derived(dh, start, old(receivingMsgNumber), receivingMsgNumber))
    {
      hide QueueOf;
      ghost var q, first := Stored(), receivingMsgNumber;
      ck := start;
      assert Derived(dh, start, first, first) == [];
      while receivingMsgNumber < until
        invariant Valid() && (old(Ordered()) ==> Ordered())
        invariant first <= receivingMsgNumber <= if first < until then until else first
        invariant ck == Advance(start, receivingMsgNumber - first)
        invariant Stored() == BankAll(q, Derived(dh, start, first, receivingMsgNumber))
        decreases until - receivingMsgNumber
      {
        DerivedGrows(q, dh, start, first, receivingMsgNumber);
        BankSkippedKey(KeyId(dh, receivingMsgNumber), MessageKeyOf(ck));
        ck := NextChain(ck);
        receivingMsgNumber := receivingMsgNumber + 1;
      }
    }

    /** Bank a key and enforce the cap. */
    method BankSkippedKey(id: KeyId, mk: MessageKey)
      requires Valid()
      modifies this`skippedKeys, this`skippedKeyOrder
      ensures Valid() && (old(Ordered()) ==> Ordered())
      ensures Stored() == Bank(old(Stored()), Entry(id, mk))
    {
      if id in skippedKeys {
        InsertOld(skippedKeys, skippedKeyOrder, id, mk);
        skippedKeys := skippedKeys[id := mk];
      } else {
        InsertNew(skippedKeys, skippedKeyOrder, id, mk);
        skippedKeys := skippedKeys[id := mk];
        skippedKeyOrder := skippedKeyOrder + [id];
      }
      EvictOldestSkippedKeys();
    }

    /** Drops the oldest keys above the cap; the list never runs out first. */
    method EvictOldestSkippedKeys()
      requires Valid()
      modifies this`skippedKeys, this`skippedKeyOrder
      ensures Valid() && (old(Ordered()) ==> Ordered())
      ensures Stored() == Newest(old(Stored()))
      ensures |skippedKeys| == if old(|skippedKeys|) <= 2000 then old(|skippedKeys|) else 2000
    {
      hide QueueOf;
      ghost var q := Stored();
      QueueFacts(skippedKeys, skippedKeyOrder);
      if |skippedKeys| <= MAX_SKIPPED_KEYS {
        return;
      }
      AdoptUnorderedSkippedKeys();
      while |skippedKeys| > MAX_SKIPPED_KEYS
        invariant Valid() && Ordered()
        invariant MAX_SKIPPED_KEYS <= |skippedKeys| <= |q|
        invariant Stored() == q[|q| - |skippedKeys|..]
        decreases |skippedKeys|
      {
        LengthTest(skippedKeys, skippedKeyOrder);
        if skippedKeyOrder == [] {
          assert false;
          break;
        }
        var oldest := skippedKeyOrder[0];
        PopOldest(skippedKeys, skippedKeyOrder);
        skippedKeyOrder := skippedKeyOrder[1..];
        skippedKeys := skippedKeys - {oldest};
      }
    }

    /**
     Puts the banked keys that the list misses in front of it, sorted. The queue that map
     and list stand for is unchanged.
     */
    method AdoptUnorderedSkippedKeys()
      requires Valid()
      modifies this`skippedKeyOrder
      ensures Valid() && Ordered()
      ensures skippedKeyOrder == FullOrder(skippedKeys.Keys, old(skippedKeyOrder)) && Stored() == old(Stored())
    {
      hide QueueOf;
      Adopted(skippedKeys, skippedKeyOrder);
      LengthTest(skippedKeys, skippedKeyOrder);
      if |skippedKeyOrder| == |skippedKeys| {
        NothingLeft(skippedKeys.Keys, skippedKeyOrder);
        return;
      }
      var adopted := Unlisted();
      skippedKeyOrder := Sort(Render, adopted) + skippedKeyOrder;
    }

    /** The banked keys that the list misses, in whatever order the map yields them. */
    method Unlisted() returns (adopted: seq<KeyId>)
      requires Valid()
      ensures Sort(Render, adopted) == SortedIds(skippedKeys.Keys - Members(skippedKeyOrder))
    {
      adopted := [];
      var rest := skippedKeys.Keys;
      ghost var known := Members(skippedKeyOrder);
      while rest != {}
        invariant rest <= skippedKeys.Keys
        invariant multiset(adopted) == multiset(skippedKeys.Keys - rest - known)
        decreases rest
      {
        var k :| k in rest;
        ghost var before := skippedKeys.Keys - rest - known;
        rest := rest - {k};
        if k !in skippedKeyOrder {
          adopted := adopted + [k];
          assert skippedKeys.Keys - rest - known == before + {k};
        } else {
          assert skippedKeys.Keys - rest - known == before;
        }
      }
      assert skippedKeys.Keys - rest - known == skippedKeys.Keys - known;
      SortCorrect(Render, adopted);
      SortedIdsUnique(skippedKeys.Keys - known, Sort(Render, adopted));
    }

    method RetireCurrentPeer(peer: Key32)
      modifies this`retiredPeerDhKeys
      ensures retiredPeerDhKeys == Retire(old(retiredPeerDhKeys), dhr, peer)
    {
      if dhr.Some? {
        var previous := dhr.value;
        if previous != peer && previous !in retiredPeerDhKeys {
          retiredPeerDhKeys := retiredPeerDhKeys + [previous];
          if |retiredPeerDhKeys| > MAX_RETIRED_DH_KEYS {
            retiredPeerDhKeys := retiredPeerDhKeys[1..];
          }
        }
      }
    }

    method DhRatchetStep(peer: Key32, next: KeyPair)
      requires Valid()
      modifies this
      ensures Valid() && (old(Ordered()) ==> Ordered())
      ensures View() == DhStep(old(View()), peer, next)
    {
      hide QueueOf, FullOrder, Distinct;
      previousSendingChainLength := sendingMsgNumber;
      sendingMsgNumber := 0;
      receivingMsgNumber := 0;
      RetireCurrentPeer(peer);
      dhr := Some(peer);
      var dhOutRecv := DeriveShared(dhs.priv, peer);
      receivingChainKey := Some(ChainOf(rootKey, dhOutRecv));
      rootKey := NextRoot(rootKey, dhOutRecv);
      var dhOutSend := DeriveShared(next.priv, peer);
      dhs := next;
      sendingChainKey := Some(ChainOf(rootKey, dhOutSend));
      rootKey := NextRoot(rootKey, dhOutSend);
    }
  }

  lemma SkipToIs(s: Session, until: U32, t: Session)
    requires s.recvCk.Some? && s.dhr.Some?
    requires s.recvN <= t.recvN && t.recvN == if s.recvN < until then until else s.recvN
    requires t == s.(bank := BankAll(s.bank, Derived(s.dhr.value, s.recvCk.value, s.recvN, t.recvN)),
                     recvCk := Some(Advance(s.recvCk.value, t.recvN - s.recvN)),
                     recvN := t.recvN)
    ensures t == SkipTo(s, until)
  {
    if until <= s.recvN {
      assert Derived(s.dhr.value, s.recvCk.value, s.recvN, s.recvN) == [];
    }
  }

  lemma DerivedGrows(q: Queue, dh: Key32, ck: ChainKey, lo: U32, hi: U32)
    requires lo <= hi < U32_MAX
    ensures BankAll(q, Derived(dh, ck, lo, hi + 1))
         == Bank(BankAll(q, Derived(dh, ck, lo, hi)), Entry(KeyId(dh, hi), MessageKeyOf(Advance(ck, hi - lo))))
  {
    assert Derived(dh, ck, lo, hi + 1)[..hi - lo] == Derived(dh, ck, lo, hi);
  }
}
