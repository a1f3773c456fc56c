/** Every delivery, whatever the network made of it, keeps the two-party invariant. */
module Deliveries {
  import opened Wrappers
  import opened Bytes
  import opened Crypto
  import opened KeyQueue
  import opened SessionSpec
  import opened SessionLaws
  import opened World
  import opened TwoParty
  import opened Invariant

  // ---------- accounting ----------

  lemma SplitConsumed(passed: iset<KeyId>, a: set<KeyId>, b: set<KeyId>, c: set<KeyId>, id: KeyId)
    requires SplitsInto(passed, a, b, c) && id in b
    ensures SplitsInto(passed, a + {id}, b - {id}, c)
  {
  }

  /**
   The receiver moves past the ids of `d` and accepts `id`: what is banked afterwards
   comes from the old store and `d`, and the rest of both was evicted.
   */
  lemma SplitAhead(passed: iset<KeyId>, passed2: iset<KeyId>, a: set<KeyId>, b: set<KeyId>, c: set<KeyId>,
                   d: set<KeyId>, id: KeyId, b2: set<KeyId>)
    requires SplitsInto(passed, a, b, c)
    requires forall i :: i in d ==> i !in passed
    requires id !in passed && id !in d
    requires forall i :: i in passed2 <==> i in passed || i in d || i == id
    requires b2 <= b + d
    ensures SplitsInto(passed2, a + {id}, b2, c + (b + d - b2))
  {
  }

  lemma LogAppended(w: World, log: seq<Delivery>, e: nat, n: nat)
    requires Shape(w) && LogRight(w, log) && WasSent(w, e, n) && n <= U32_MAX
    requires KeyId(w.keys[e], n) !in LogIds(log)
    ensures var log2 := log + [Delivery(KeyId(w.keys[e], n), w.sent[e][n].text)];
            LogRight(w, log2) && LogIds(log2) == LogIds(log) + {KeyId(w.keys[e], n)}
  {
    IndexIs(w.keys, e);
    var d := Delivery(KeyId(w.keys[e], n), w.sent[e][n].text);
    var log2 := log + [d];
    assert log2[|log|].id in LogIds(log2);
    forall id | id in LogIds(log) ensures id in LogIds(log2) {
      var i :| 0 <= i < |log| && log[i].id == id;
      assert log2[i].id == id;
    }
    forall i | 0 <= i < |log| ensures log2[i].id != d.id {
      assert log[i].id in LogIds(log);
    }
  }

  lemma SkippedDistinct(s: Session, until: U32)
    ensures DistinctIds(SkippedBy(s, until))
  {
    if s.recvCk.Some? && s.dhr.Some? && s.recvN < until {
      DerivedIds(s.dhr.value, s.recvCk.value, s.recvN, until);
    }
  }

  lemma ConcatDistinct(a: Queue, b: Queue)
    requires DistinctIds(a) && DistinctIds(b) && Ids(a) !! Ids(b)
    ensures DistinctIds(a + b)
  {
    var q := a + b;
    forall i, j | 0 <= i < j < |q| ensures q[i].id != q[j].id {
      if i < |a| <= j {
        assert a[i].id in Ids(a) && b[j - |a|].id in Ids(b);
      }
    }
  }

  /** What the cap costs is what banking new keys one by one leaves out. */
  lemma OverflowIsLost(q: Queue, d: seq<Entry>)
    requires Fresh(q, d) && DistinctIds(q) && |q| <= MAX_SKIPPED_KEYS
    ensures Ids(Overflow(q + d)) == Ids(q) + Ids(d) - Ids(BankAll(q, d))
  {
    BankAllFresh(q, d);
    ConcatDistinct(q, d);
    NewestSplits(q + d);
    IdsConcat(q, d);
  }

  /** The keys a side in epoch `x` skips over are scheduled keys of chain `x - 1`. */
  lemma SkippedRight(w: World, x: int, s: Session, until: U32)
    requires Shape(w) && ReceiveSide(w, x, s)
    ensures BankRight(w, SkippedBy(s, until))
    ensures forall id :: id in Ids(SkippedBy(s, until)) <==>
              x >= 2 && id.dh == w.keys[x - 1] && s.recvN <= id.n < until
  {
    var es := SkippedBy(s, until);
    if x >= 2 {
      IndexIs(w.keys, x - 1);
      if s.recvN < until {
        DerivedIds(s.dhr.value, s.recvCk.value, s.recvN, until);
        forall i | 0 <= i < |es| ensures es[i].key == KeyAt(w.master, w.keys, x - 1, es[i].id.n) {
          AdvanceAdds(ChainAt(w.master, w.keys, x - 1), s.recvN, i);
        }
      }
    }
  }

  lemma BankRightAll(w: World, q: Queue, es: seq<Entry>)
    requires Shape(w) && BankRight(w, q) && BankRight(w, es)
    ensures BankRight(w, BankAll(q, es))
  {
    BankAllEntries(q, es);
    var b := BankAll(q, es);
    forall i | 0 <= i < |b|
      ensures b[i].id.dh in w.keys && IndexOf(w.keys, b[i].id.dh) >= 1
      ensures b[i].key == KeyAt(w.master, w.keys, IndexOf(w.keys, b[i].id.dh), b[i].id.n)
    {
      assert b[i] in b;
    }
  }

  /** The ledger after moving on from `x` to `x2` by accepting message `n` of chain `e`. */
  lemma LedgerAhead(w: World, w2: World, x: int, x2: int, peer: Peer, peer2: Peer, d: seq<Entry>, e: nat, n: nat)
    requires Extends(w, w2) && x < |w.keys| && Ledger(w, x, peer)
    requires WasSent(w2, e, n) && n <= U32_MAX && BankRight(w2, d)
    requires peer2.session.bank == BankAll(peer.session.bank, d)
    requires peer2.log == peer.log + [Delivery(KeyId(w2.keys[e], n), w2.sent[e][n].text)]
    requires peer2.evicted == peer.evicted + (Ids(peer.session.bank) + Ids(d) - Ids(peer2.session.bank))
    requires Advances(w, w2, x, x2, peer, peer2, d, KeyId(w2.keys[e], n))
    ensures Ledger(w2, x2, peer2)
  {
    var id := KeyId(w2.keys[e], n);
    var q := peer.session.bank;
    LogRightExtends(w, w2, peer.log);
    LogAppended(w2, peer.log, e, n);
    BankRightExtends(w, w2, q);
    BankRightAll(w2, q, d);
    BankAllBounded(q, d);
    BankAllIds(q, d);
    var passed := PassedSet(w, x, peer.session.recvN);
    SplitAhead(passed, PassedSet(w2, x2, peer2.session.recvN),
               LogIds(peer.log), Ids(q), peer.evicted, Ids(d), id, Ids(peer2.session.bank));
  }

  /** The ids passed on the way from `x` to `x2` are those of `d` and `id`, all of them new. */
  ghost predicate Advances(w: World, w2: World, x: int, x2: int, peer: Peer, peer2: Peer, d: seq<Entry>, id: KeyId)
    requires Shape(w) && Shape(w2)
  {
    var passed := PassedSet(w, x, peer.session.recvN);
    && (forall i :: i in Ids(d) ==> i !in passed)
    && id !in passed && id !in Ids(d) && id !in LogIds(peer.log)
    && forall i :: i in PassedSet(w2, x2, peer2.session.recvN) <==> i in passed || i in Ids(d) || i == id
  }

  lemma ExtendsSelf(w: World, w2: World)
    requires Shape(w) && w2.master == w.master && w2.ad == w.ad && w2.keys == w.keys && w2.sent == w.sent
    ensures Extends(w, w2)
  {
  }

  // ---------- a key from the bank ----------

  lemma BankedKeeps(w: World, x: int, peer: Peer, wire: Wire, dh: Key32, next: KeyPair, got: Received, e: nat, n: nat)
    requires Shape(w) && PeerInv(w, x, peer)
    requires wire.dhPub == Some(dh) && Decrypt(peer.session, wire, w.ad, next) == Ok(got)
    requires KeyId(dh, wire.n) in Ids(peer.session.bank)
    requires Genuine(w, wire, got.text, e, n)
    ensures PeerInv(w, x, Accept(peer, wire, dh, next, got)) && got.session.dhs == peer.session.dhs
  {
    hide Ledger, RetiredSide, FromAhead;
    var s, id := peer.session, KeyId(dh, wire.n);
    FindSound(s.bank, id);
    assert got.session == s.(bank := Without(s.bank, id));
    assert Accept(peer, wire, dh, next, got) == Peer(got.session, peer.log + [Delivery(id, got.text)], peer.evicted);
    BankedLedger(w, x, peer, id, e, n);
  }

  lemma BankedLedger(w: World, x: int, peer: Peer, id: KeyId, e: nat, n: nat)
    requires Shape(w) && Ledger(w, x, peer) && WasSent(w, e, n) && n <= U32_MAX
    requires id == KeyId(w.keys[e], n) && id in Ids(peer.session.bank)
    ensures Ledger(w, x, Peer(peer.session.(bank := Without(peer.session.bank, id)),
                              peer.log + [Delivery(id, w.sent[e][n].text)], peer.evicted))
  {
    var q := peer.session.bank;
    var q2 := Without(q, id);
    LogAppended(w, peer.log, e, n);
    WithoutIds(q, id);
    WithoutDistinct(q, id);
    forall i | 0 <= i < |q2|
      ensures q2[i].id.dh in w.keys && IndexOf(w.keys, q2[i].id.dh) >= 1
      ensures q2[i].key == KeyAt(w.master, w.keys, IndexOf(w.keys, q2[i].id.dh), q2[i].id.n)
    {
      assert q2[i] in q2;
    }
    SplitConsumed(PassedSet(w, x, peer.session.recvN), LogIds(peer.log), Ids(q), peer.evicted, id);
  }

  // ---------- the current chain ----------

  lemma PassedOnCurrent(w: World, x: int, recvN: nat, n: nat, id: KeyId)
    requires Shape(w) && 2 <= x < |w.keys| && recvN <= n
    ensures Passed(w, x, n + 1, id) <==> Passed(w, x, recvN, id) || (id.dh == w.keys[x - 1] && recvN <= id.n <= n)
    ensures Passed(w, x, recvN, id) && id.dh == w.keys[x - 1] ==> id.n < recvN
  {
    IndexIs(w.keys, x - 1);
    Neighbours(x);
  }

  lemma CurrentAdvances(w: World, x: int, peer: Peer, peer2: Peer, d: seq<Entry>, n: U32)
    requires Shape(w) && 2 <= x < |w.keys| && Ledger(w, x, peer)
    requires peer.session.recvN <= n && peer2.session.recvN == n + 1
    requires forall id :: id in Ids(d) <==> id.dh == w.keys[x - 1] && peer.session.recvN <= id.n < n
    ensures Advances(w, w, x, x, peer, peer2, d, KeyId(w.keys[x - 1], n))
  {
    var r := peer.session.recvN;
    forall id: KeyId
      ensures id in PassedSet(w, x, n + 1) <==> id in PassedSet(w, x, r) || id in Ids(d) || id == KeyId(w.keys[x - 1], n)
      ensures id in PassedSet(w, x, r) && id.dh == w.keys[x - 1] ==> id.n < r
    {
      PassedOnCurrent(w, x, r, n, id);
    }
  }

  /** The session after a delivery on its current chain, and what the store lost by it. */
  lemma CurrentEffect(peer: Peer, wire: Wire, dh: Key32, ad: Bytes, next: KeyPair, got: Received)
    requires wire.dhPub == Some(dh) && Decrypt(peer.session, wire, ad, next) == Ok(got)
    requires KeyId(dh, wire.n) !in Ids(peer.session.bank) && peer.session.dhr == Some(dh)
    ensures var s, d := peer.session, SkippedBy(peer.session, wire.n);
            && s.recvCk.Some? && s.recvN <= wire.n
            && got.session == s.(bank := BankAll(s.bank, d),
                                 recvCk := Some(Advance(s.recvCk.value, wire.n - s.recvN + 1)),
                                 recvN := WrapInc32(wire.n))
            && EvictedBy(s, wire, dh, next) == Ids(Overflow(s.bank + d))
  {
    FindSound(peer.session.bank, KeyId(dh, wire.n));
    CurrentChain(peer.session, wire, dh, ad, next);
  }

  lemma FreshOnCurrent(w: World, x: int, peer: Peer, n: U32)
    requires Shape(w) && PeerInv(w, x, peer) && x >= 2 && peer.session.recvN <= n
    ensures Fresh(peer.session.bank, SkippedBy(peer.session, n))
  {
    hide SendSide, RetiredSide, SkippedBy;
    var s, d := peer.session, SkippedBy(peer.session, n);
    SkippedDistinct(s, n);
    SkippedRight(w, x, s, n);
    forall id | id in Ids(s.bank) ensures id !in Ids(d) {
      BankedIsPeers(w, x, peer, id);
      PassedOnCurrent(w, x, s.recvN, n, id);
    }
  }

  lemma LedgerBank(w: World, x: int, peer: Peer)
    requires Shape(w) && Ledger(w, x, peer)
    ensures DistinctIds(peer.session.bank) && |peer.session.bank| <= MAX_SKIPPED_KEYS
  {
  }

  lemma CurrentKeeps(w: World, x: int, peer: Peer, wire: Wire, dh: Key32, next: KeyPair, got: Received, e: nat, n: nat)
    requires Shape(w) && PeerInv(w, x, peer)
    requires wire.dhPub == Some(dh) && Decrypt(peer.session, wire, w.ad, next) == Ok(got)
    requires KeyId(dh, wire.n) !in Ids(peer.session.bank)
    requires Genuine(w, wire, got.text, e, n) && e == x - 1 && x >= 2 && n >= peer.session.recvN
    ensures PeerInv(w, x, Accept(peer, wire, dh, next, got)) && got.session.dhs == peer.session.dhs
  {
    hide Decrypt, EvictedBy, Ledger, RetiredSide, SendSide, Overflow, SkippedBy, BankAll, Fresh, Ids, HonestWire, Advance;
    GenuineHeader(w, wire, got.text, e, n);
    CurrentEffect(peer, wire, dh, w.ad, next, got);
    LedgerBank(w, x, peer);
    FreshOnCurrent(w, x, peer, wire.n);
    OverflowIsLost(peer.session.bank, SkippedBy(peer.session, wire.n));
    CurrentPeer(w, x, peer, Accept(peer, wire, dh, next, got), n);
  }

  lemma CurrentPeer(w: World, x: int, peer: Peer, peer2: Peer, n: U32)
    requires Shape(w) && PeerInv(w, x, peer)
    requires 2 <= x && peer.session.recvN <= n && WasSent(w, x - 1, n)
    requires var s, d := peer.session, SkippedBy(peer.session, n);
             && peer2.session == s.(bank := BankAll(s.bank, d),
                                    recvCk := Some(Advance(s.recvCk.value, n - s.recvN + 1)),
                                    recvN := WrapInc32(n))
             && peer2.log == peer.log + [Delivery(KeyId(w.keys[x - 1], n), w.sent[x - 1][n].text)]
             && peer2.evicted == peer.evicted + (Ids(s.bank) + Ids(d) - Ids(peer2.session.bank))
    ensures PeerInv(w, x, peer2)
  {
    var d := SkippedBy(peer.session, n);
    SkippedRight(w, x, peer.session, n);
    CurrentSides(w, x, peer.session, peer2.session, n);
    CurrentAdvances(w, x, peer, peer2, d, n);
    ExtendsSelf(w, w);
    LedgerAhead(w, w, x, x, peer, peer2, d, x - 1, n);
  }

  lemma CurrentSides(w: World, x: int, s: Session, s2: Session, n: U32)
    requires Shape(w) && SendSide(w, x, s) && ReceiveSide(w, x, s) && RetiredSide(w.keys, x, s.retired)
    requires x >= 2 && s.recvN <= n < |w.sent[x - 1]|
    requires s2 == s.(bank := s2.bank, recvCk := Some(Advance(s.recvCk.value, n - s.recvN + 1)), recvN := WrapInc32(n))
    ensures SendSide(w, x, s2) && ReceiveSide(w, x, s2) && RetiredSide(w.keys, x, s2.retired)
    ensures s2.recvN == n + 1
  {
    AdvanceAdds(ChainAt(w.master, w.keys, x - 1), s.recvN, n - s.recvN + 1);
  }

  // ---------- the next chain ----------

  /** The world in which the receiver has answered the newest chain with a key of its own. */
  function Turned(w: World, k: Key32): World {
    w.(keys := w.keys + [k], sent := w.sent + [[]])
  }

  lemma TurnedExtends(w: World, k: Key32)
    requires Shape(w) && k !in w.keys
    ensures Extends(w, Turned(w, k))
  {
    var w2 := Turned(w, k);
    forall i, j | 0 <= i < j < |w2.keys| ensures w2.keys[i] != w2.keys[j] {
      assert w.keys[i] in w.keys;
    }
  }

  lemma TurnedNetwork(w: World, k: Key32)
    requires Shape(w) && k !in w.keys && OnlySent(w) && AllSent(w)
    ensures Shape(Turned(w, k)) && OnlySent(Turned(w, k)) && AllSent(Turned(w, k))
  {
    var w2 := Turned(w, k);
    TurnedExtends(w, k);
    forall v | v in w2.network
      ensures exists e: nat, n: nat :: WasSent(w2, e, n) && v == HonestWire(w2, e, n)
    {
      var e: nat, n: nat :| WasSent(w, e, n) && v == HonestWire(w, e, n);
      HonestWireExtends(w, w2, e, n);
    }
    forall e: nat, n: nat | WasSent(w2, e, n)
      ensures HonestWire(w2, e, n) in w2.network && |w2.sent[e][n].nonce| == NONCE_SIZE
    {
      HonestWireExtends(w, w2, e, n);
    }
  }

  lemma TurnedRetired(w: World, x: int, s: Session, next: KeyPair)
    requires Shape(w) && x + 2 == |w.keys| && next.pub !in w.keys
    requires ReceiveSide(w, x, s) && RetiredSide(w.keys, x, s.retired)
    ensures RetiredSide(w.keys + [next.pub], x + 2, Retire(s.retired, s.dhr, w.keys[x + 1]))
  {
    var keys := w.keys + [next.pub];
    var r := Retire(s.retired, s.dhr, w.keys[x + 1]);
    if x > 0 {
      OnePushed(w.keys, keys, x, s.retired);
      assert w.keys[x - 1] !in s.retired;
    }
  }

  lemma OnePushed(keys: seq<Key32>, keys2: seq<Key32>, x: int, retired: seq<Key32>)
    requires x > 0 && RetiredSide(keys, x, retired) && keys <= keys2 && x + 2 < |keys2|
    ensures var all := retired + [keys[x - 1]];
            RetiredSide(keys2, x + 2, if |retired| < MAX_RETIRED_DH_KEYS then all else all[1..])
  {
    var l, all := |retired|, retired + [keys[x - 1]];
    assert (x + 1) / 2 == (x - 1) / 2 + 1;
    forall i | 0 <= i <= l ensures all[i] == keys2[x + 1 - 2 * (l + 1 - i)] {
      assert i < l ==> retired[i] == keys[x - 1 - 2 * (l - i)];
    }
  }

  /** Stepping the ratchet lands in the next but one epoch, at the start of the newest chain. */
  lemma TurnedSides(w: World, x: int, s: Session, next: KeyPair)
    requires Shape(w) && 0 <= x && x + 2 == |w.keys| && next.pub !in w.keys && Matching(next)
    requires SendSide(w, x, s) && ReceiveSide(w, x, s) && RetiredSide(w.keys, x, s.retired)
    ensures var w2, s2 := Turned(w, next.pub), DhStep(s, w.keys[x + 1], next);
            && Shape(w2) && SendSide(w2, x + 2, s2) && ReceiveSide(w2, x + 2, s2)
            && s2.recvCk == Some(ChainAt(w2.master, w2.keys, x + 1))
            && RetiredSide(w2.keys, x + 2, s2.retired)
  {
    TurnedExtends(w, next.pub);
    TurnedRetired(w, x, s, next);
    var w2, s2 := Turned(w, next.pub), DhStep(s, w.keys[x + 1], next);
    RootAtExtends(w, w2, x);
    RootAtExtends(w, w2, x + 1);
    assert w2.keys[x] == w.keys[x] && w2.keys[x + 1] == w.keys[x + 1] && w2.keys[x + 2] == next.pub;
    assert {w.keys[x], w.keys[x + 1]} == {w.keys[x + 1], w.keys[x]};
    assert s2.recvCk.value == ChainAt(w2.master, w2.keys, x + 1);
    assert NextRoot(s.root, DeriveShared(s.dhs.priv, w.keys[x + 1])) == RootAt(w2.master, w2.keys, x + 1);
    assert s2.sendCk.value == ChainAt(w2.master, w2.keys, x + 2);
  }

  lemma PassedOnNext(w: World, w2: World, x: int, recvN: nat, n: nat, id: KeyId)
    requires Extends(w, w2) && 0 <= x && x + 2 == |w.keys| && |w2.keys| == |w.keys| + 1
    requires w2.sent[..|w.sent|] == w.sent
    requires x < 2 ==> recvN == 0
    requires x >= 2 ==> recvN <= |w.sent[x - 1]|
    ensures Passed(w2, x + 2, n + 1, id) <==>
            || Passed(w, x, recvN, id)
            || (x >= 2 && id.dh == w.keys[x - 1] && recvN <= id.n < |w.sent[x - 1]|)
            || (id.dh == w.keys[x + 1] && id.n <= n)
    ensures Passed(w, x, recvN, id) && x >= 2 && id.dh == w.keys[x - 1] ==> id.n < recvN
    ensures Passed(w, x, recvN, id) ==> id.dh != w.keys[x + 1]
    ensures x >= 1 ==> w.keys[x - 1] != w.keys[x + 1]
  {
    PassedExtends(w, w2, x, recvN, id);
    IndexIs(w.keys, x + 1);
    IndexIs(w2.keys, x + 1);
    assert w2.keys[..|w.keys|][x + 1] == w2.keys[x + 1];
    Neighbours(x);
    if x >= 1 {
      IndexIs(w.keys, x - 1);
      IndexIs(w2.keys, x - 1);
      assert w2.keys[..|w.keys|][x - 1] == w2.keys[x - 1];
    }
    if id.dh in w2.keys {
      PassedOnNextAt(w, w2, x, recvN, n, id);
    }
  }

  lemma PassedOnNextAt(w: World, w2: World, x: int, recvN: nat, n: nat, id: KeyId)
    requires Extends(w, w2) && 0 <= x && x + 2 == |w.keys| && |w2.keys| == |w.keys| + 1
    requires w2.sent[..|w.sent|] == w.sent && id.dh in w2.keys
    requires x < 2 ==> recvN == 0
    requires x >= 2 ==> recvN <= |w.sent[x - 1]|
    ensures var e := IndexOf(w2.keys, id.dh);
            Passed(w2, x + 2, n + 1, id) <==>
            || Passed(w2, x, recvN, id)
            || (x >= 2 && e == x - 1 && recvN <= id.n < |w.sent[x - 1]|)
            || (e == x + 1 && id.n <= n)
  {
    var e := IndexOf(w2.keys, id.dh);
    Neighbours(x);
    if 0 <= e < x {
      assert w2.sent[..|w.sent|][e] == w2.sent[e];
    }
    assert e % 2 != x % 2 ==> e != x;
  }

  ghost function NextBanked(s: Session, pn: U32, n: U32, dh: Key32, next: KeyPair): seq<Entry> {
    SkippedBy(s, pn) + SkippedBy(DhStep(s, dh, next), n)
  }

  /** The session after a delivery that steps the ratchet, and what the store lost by it. */
  lemma NextEffect(peer: Peer, wire: Wire, dh: Key32, ad: Bytes, next: KeyPair, got: Received)
    requires wire.dhPub == Some(dh) && Decrypt(peer.session, wire, ad, next) == Ok(got)
    requires KeyId(dh, wire.n) !in Ids(peer.session.bank) && peer.session.dhr != Some(dh)
    ensures var s, d := peer.session, NextBanked(peer.session, wire.pn, wire.n, dh, next);
            && got.session == DhStep(s, dh, next).(bank := BankAll(s.bank, d),
                                                   recvCk := Some(Advance(DhStep(s, dh, next).recvCk.value, wire.n + 1)),
                                                   recvN := WrapInc32(wire.n))
            && EvictedBy(s, wire, dh, next) == Ids(Overflow(s.bank + d))
  {
    FindSound(peer.session.bank, KeyId(dh, wire.n));
    NextChainOpened(peer.session, wire, dh, ad, next);
    assert NewlyBanked(peer.session, wire, dh, next) == NextBanked(peer.session, wire.pn, wire.n, dh, next);
  }

  /** Which ids a ratchet step banks: the rest of the old chain and the start of the new one. */
  lemma NextBankedRight(w: World, x: int, s: Session, next: KeyPair, n: U32)
    requires Shape(w) && 0 <= x && x + 2 == |w.keys| && next.pub !in w.keys && Matching(next)
    requires SendSide(w, x, s) && ReceiveSide(w, x, s) && RetiredSide(w.keys, x, s.retired)
    ensures Shape(Turned(w, next.pub))
    ensures var d := NextBanked(s, PnOf(w, x + 1), n, w.keys[x + 1], next);
            && BankRight(Turned(w, next.pub), d)
            && forall id :: id in Ids(d) <==>
                 || (x >= 2 && id.dh == w.keys[x - 1] && s.recvN <= id.n < |w.sent[x - 1]|)
                 || (id.dh == w.keys[x + 1] && id.n < n)
  {
    var w2, s2 := Turned(w, next.pub), DhStep(s, w.keys[x + 1], next);
    TurnedExtends(w, next.pub);
    TurnedSides(w, x, s, next);
    var d1, d2 := SkippedBy(s, PnOf(w, x + 1)), SkippedBy(s2, n);
    SkippedRight(w, x, s, PnOf(w, x + 1));
    BankRightExtends(w, w2, d1);
    SkippedRight(w2, x + 2, s2, n);
    IdsConcat(d1, d2);
  }

  lemma LogPassed(w: World, x: int, peer: Peer, id: KeyId)
    requires Shape(w) && Ledger(w, x, peer)
    ensures id in LogIds(peer.log) ==> Passed(w, x, peer.session.recvN, id)
  {
    assert id in LogIds(peer.log) ==> id in PassedSet(w, x, peer.session.recvN);
  }

  lemma NextAdvances(w: World, w2: World, x: int, peer: Peer, peer2: Peer, d: seq<Entry>, n: U32)
    requires Extends(w, w2) && 0 <= x && x + 2 == |w.keys| && |w2.keys| == |w.keys| + 1
    requires w2.sent[..|w.sent|] == w.sent
    requires Ledger(w, x, peer) && ReceiveSide(w, x, peer.session) && peer2.session.recvN == n + 1
    requires forall id :: id in Ids(d) <==>
               || (x >= 2 && id.dh == w.keys[x - 1] && peer.session.recvN <= id.n < |w.sent[x - 1]|)
               || (id.dh == w.keys[x + 1] && id.n < n)
    ensures Advances(w, w2, x, x + 2, peer, peer2, d, KeyId(w.keys[x + 1], n))
  {
    var r := peer.session.recvN;
    forall id: KeyId
      ensures id in PassedSet(w2, x + 2, n + 1) <==> id in PassedSet(w, x, r) || id in Ids(d) || id == KeyId(w.keys[x + 1], n)
      ensures id in Ids(d) ==> id !in PassedSet(w, x, r)
      ensures id in PassedSet(w, x, r) ==> id.dh != w.keys[x + 1]
      ensures KeyId(w.keys[x + 1], n) !in Ids(d)
    {
      PassedOnNext(w, w2, x, r, n, id);
    }
    LogPassed(w, x, peer, KeyId(w.keys[x + 1], n));
  }

  /** Opening message `n` of a chain just begun. */
  lemma OpenedSides(w: World, x: int, s: Session, s2: Session, n: U32)
    requires Shape(w) && SendSide(w, x, s) && ReceiveSide(w, x, s) && RetiredSide(w.keys, x, s.retired)
    requires x >= 2 && s.recvCk == Some(ChainAt(w.master, w.keys, x - 1)) && n < |w.sent[x - 1]|
    requires s2 == s.(bank := s2.bank, recvCk := Some(Advance(s.recvCk.value, n + 1)), recvN := WrapInc32(n))
    ensures SendSide(w, x, s2) && ReceiveSide(w, x, s2) && RetiredSide(w.keys, x, s2.retired)
  {
  }

  lemma NextLedger(w: World, x: int, peer: Peer, peer2: Peer, next: KeyPair, n: U32)
    requires Shape(w) && PeerInv(w, x, peer)
    requires x + 2 == |w.keys| && WasSent(w, x + 1, n) && next.pub !in w.keys && Matching(next)
    requires peer2.session.recvN == n + 1
    requires var s, d := peer.session, NextBanked(peer.session, PnOf(w, x + 1), n, w.keys[x + 1], next);
             && peer2.session.bank == BankAll(s.bank, d)
             && peer2.log == peer.log + [Delivery(KeyId(w.keys[x + 1], n), w.sent[x + 1][n].text)]
             && peer2.evicted == peer.evicted + (Ids(s.bank) + Ids(d) - Ids(peer2.session.bank))
    ensures Shape(Turned(w, next.pub)) && Ledger(Turned(w, next.pub), x + 2, peer2)
  {
    var w2 := Turned(w, next.pub);
    var d := NextBanked(peer.session, PnOf(w, x + 1), n, w.keys[x + 1], next);
    TurnedExtends(w, next.pub);
    NextBankedRight(w, x, peer.session, next, n);
    assert w2.sent[..|w.sent|] == w.sent && w2.sent[x + 1] == w.sent[x + 1] && w2.keys[x + 1] == w.keys[x + 1];
    NextAdvances(w, w2, x, peer, peer2, d, n);
    LedgerAhead(w, w2, x, x + 2, peer, peer2, d, x + 1, n);
  }

  lemma NextPeer(w: World, x: int, peer: Peer, peer2: Peer, next: KeyPair, n: U32)
    requires Shape(w) && PeerInv(w, x, peer)
    requires x + 2 == |w.keys| && WasSent(w, x + 1, n) && next.pub !in w.keys && Matching(next)
    requires var s, d := peer.session, NextBanked(peer.session, PnOf(w, x + 1), n, w.keys[x + 1], next);
             var s2 := DhStep(s, w.keys[x + 1], next);
             && peer2.session == s2.(bank := BankAll(s.bank, d),
                                     recvCk := Some(Advance(s2.recvCk.value, n + 1)),
                                     recvN := WrapInc32(n))
             && peer2.log == peer.log + [Delivery(KeyId(w.keys[x + 1], n), w.sent[x + 1][n].text)]
             && peer2.evicted == peer.evicted + (Ids(s.bank) + Ids(d) - Ids(peer2.session.bank))
    ensures Shape(Turned(w, next.pub)) && PeerInv(Turned(w, next.pub), x + 2, peer2)
  {
    var s2 := DhStep(peer.session, w.keys[x + 1], next);
    TurnedSides(w, x, peer.session, next);
    OpenedSides(Turned(w, next.pub), x + 2, s2, peer2.session, n);
    NextLedger(w, x, peer, peer2, next, n);
  }

  lemma FreshOnNext(w: World, x: int, peer: Peer, next: KeyPair, n: U32)
    requires Shape(w) && PeerInv(w, x, peer)
    requires 0 <= x && x + 2 == |w.keys| && next.pub !in w.keys && Matching(next)
    ensures Fresh(peer.session.bank, NextBanked(peer.session, PnOf(w, x + 1), n, w.keys[x + 1], next))
  {
    hide SendSide, RetiredSide, SkippedBy, DhStep;
    var s, w2 := peer.session, Turned(w, next.pub);
    var d1, d2 := SkippedBy(s, PnOf(w, x + 1)), SkippedBy(DhStep(s, w.keys[x + 1], next), n);
    NextBankedRight(w, x, s, next, n);
    TurnedExtends(w, next.pub);
    TurnedSides(w, x, s, next);
    SkippedDistinct(s, PnOf(w, x + 1));
    SkippedDistinct(DhStep(s, w.keys[x + 1], next), n);
    SkippedRight(w, x, s, PnOf(w, x + 1));
    SkippedRight(w2, x + 2, DhStep(s, w.keys[x + 1], next), n);
    assert x >= 2 ==> w.keys[x - 1] != w.keys[x + 1];
    ConcatDistinct(d1, d2);
    forall id | id in Ids(s.bank) ensures id !in Ids(d1 + d2) {
      BankedIsPeers(w, x, peer, id);
      PassedOnNext(w, w2, x, s.recvN, n, id);
    }
  }

  lemma NextKeeps(w: World, x: int, peer: Peer, wire: Wire, dh: Key32, next: KeyPair, got: Received, e: nat, n: nat)
    requires Shape(w) && PeerInv(w, x, peer) && |w.keys| - 2 <= x
    requires wire.dhPub == Some(dh) && Decrypt(peer.session, wire, w.ad, next) == Ok(got)
    requires KeyId(dh, wire.n) !in Ids(peer.session.bank) && next.pub !in w.keys && Matching(next)
    requires Genuine(w, wire, got.text, e, n) && e == x + 1
    ensures x + 2 == |w.keys| && got.session.dhs == next && got.session.dhs != peer.session.dhs
    ensures Shape(Turned(w, next.pub)) && PeerInv(Turned(w, next.pub), x + 2, Accept(peer, wire, dh, next, got))
  {
    NextEffect(peer, wire, dh, w.ad, next, got);
    LedgerBank(w, x, peer);
    FreshOnNext(w, x, peer, next, n);
    OverflowIsLost(peer.session.bank, NextBanked(peer.session, PnOf(w, x + 1), n, w.keys[x + 1], next));
    NextPeer(w, x, peer, Accept(peer, wire, dh, next, got), next, n);
  }

  // ---------- every delivery, every run ----------

  lemma DeliverKeepsInv(w: World, p: Party, wire: Wire, next: KeyPair)
    requires Inv(w) && Legal(w, Deliver(p, wire, next))
    ensures Inv(DoDeliver(w, p, wire, next))
  {
    var x, peer := Epoch(w, p), PeerOf(w, p);
    if Decrypt(peer.session, wire, w.ad, next).Ok? {
      var got := Decrypt(peer.session, wire, w.ad, next).value;
      Epochs(w, p);
      InvOf(w, p);
      var e, n, route := Authentic(w, x, peer, wire, next);
      AcceptedKeepsInv(w, p, wire, wire.dhPub.value, next, got, e, n, route);
    }
  }

  lemma GenuineHeader(w: World, wire: Wire, text: Bytes, e: nat, n: nat)
    requires Genuine(w, wire, text, e, n)
    ensures wire.dhPub == Some(w.keys[e]) && wire.n == n
  {
  }

  lemma AcceptedKeepsInv(w: World, p: Party, wire: Wire, dh: Key32, next: KeyPair, got: Received, e: nat, n: nat, route: Route)
    requires Inv(w) && Matching(next) && next.pub !in w.keys
    requires Decrypt(PeerOf(w, p).session, wire, w.ad, next) == Ok(got) && wire.dhPub == Some(dh)
    requires Genuine(w, wire, got.text, e, n)
    requires Routed(w, Epoch(w, p), PeerOf(w, p).session, e, n, route)
    ensures Inv(DoDeliver(w, p, wire, next))
  {
    hide Decrypt, HonestWire, Epoch, PeerInv, Extends, Accept;
    var x, peer := Epoch(w, p), PeerOf(w, p);
    var peer2 := Accept(peer, wire, dh, next, got);
    GenuineHeader(w, wire, got.text, e, n);
    InvOf(w, p);
    InvOf(w, Other(p));
    Epochs(w, p);
    match route {
      case Banked =>
        BankedKeeps(w, x, peer, wire, dh, next, got, e, n);
        SameEpoch(w, p, peer2);
      case Current =>
        CurrentKeeps(w, x, peer, wire, dh, next, got, e, n);
        SameEpoch(w, p, peer2);
      case Next =>
        NextKeeps(w, x, peer, wire, dh, next, got, e, n);
        NewEpoch(w, p, peer2, next.pub);
    }
  }

  /** The invariant without either side's part of it. */
  ghost predicate History(w: World) {
    Shape(w) && OnlySent(w) && AllSent(w)
  }

  lemma PeerSame(w: World, w2: World, x: int, peer: Peer)
    requires Extends(w, w2) && w2.sent == w.sent && PeerInv(w, x, peer)
    ensures PeerInv(w2, x, peer)
  {
    PeerExtends(w, w2, x, peer);
  }

  lemma EpochsByLength(w: World, w2: World, p: Party)
    requires |w2.keys| == |w.keys|
    ensures Epoch(w2, p) == Epoch(w, p) && Epoch(w2, Other(p)) == Epoch(w, Other(p))
  {
  }

  lemma SameEpoch(w: World, p: Party, peer2: Peer)
    requires History(w) && PeerInv(w, Epoch(w, p), peer2)
    requires PeerInv(w, Epoch(w, Other(p)), PeerOf(w, Other(p)))
    ensures Inv(WithPeer(w, p, peer2))
  {
    var w2 := WithPeer(w, p, peer2);
    ExtendsSelf(w, w2);
    SameNetwork(w, w2);
    PeerSame(w, w2, Epoch(w, p), peer2);
    PeerSame(w, w2, Epoch(w, Other(p)), PeerOf(w, Other(p)));
    EpochsByLength(w, w2, p);
    InvFrom(w2, p);
  }

  lemma SameNetwork(w: World, w2: World)
    requires Extends(w, w2) && OnlySent(w) && AllSent(w)
    requires w2.keys == w.keys && w2.sent == w.sent && w2.network == w.network
    ensures OnlySent(w2) && AllSent(w2)
  {
    forall v | v in w2.network
      ensures exists e: nat, n: nat :: WasSent(w2, e, n) && v == HonestWire(w2, e, n)
    {
      var e: nat, n: nat :| WasSent(w, e, n) && v == HonestWire(w, e, n);
      HonestWireExtends(w, w2, e, n);
    }
    forall e: nat, n: nat | WasSent(w2, e, n)
      ensures HonestWire(w2, e, n) in w2.network && |w2.sent[e][n].nonce| == NONCE_SIZE
    {
      HonestWireExtends(w, w2, e, n);
    }
  }

  lemma EpochsTurned(w: World, w2: World, p: Party)
    requires |w2.keys| == |w.keys| + 1 && Epoch(w, p) + 2 == |w.keys|
    ensures Epoch(w2, p) == |w.keys| && Epoch(w2, Other(p)) == Epoch(w, Other(p))
  {
  }

  lemma NewEpoch(w: World, p: Party, peer2: Peer, k: Key32)
    requires History(w) && k !in w.keys && Epoch(w, p) + 2 == |w.keys|
    requires Shape(Turned(w, k)) && PeerInv(Turned(w, k), |w.keys|, peer2)
    requires PeerInv(w, Epoch(w, Other(p)), PeerOf(w, Other(p)))
    ensures Inv(Turned(WithPeer(w, p, peer2), k))
  {
    var w1, y := Turned(w, k), Epoch(w, Other(p));
    Epochs(w, Other(p));
    TurnedExtends(w, k);
    TurnedNetwork(w, k);
    PeerExtends(w, w1, y, PeerOf(w, Other(p)));
    EpochsTurned(w, w1, p);
    assert Turned(WithPeer(w, p, peer2), k) == WithPeer(w1, p, peer2);
    SameEpoch(w1, p, peer2);
  }

  lemma StepKeepsInv(w: World, ev: Event)
    requires Inv(w) && Legal(w, ev)
    ensures Inv(Step(w, ev))
  {
    match ev
    case Send(p, note) => SendKeepsInv(w, p, note);
    case Deliver(p, wire, next) => DeliverKeepsInv(w, p, wire, next);
  }

  /** The invariant holds after every run, of any length. */
  lemma {:induction false} RunKeepsInv(w: World, evs: seq<Event>)
    requires Inv(w) && LegalRun(w, evs)
    ensures Inv(Run(w, evs))
    decreases |evs|
  {
    if evs != [] {
      StepKeepsInv(w, evs[0]);
      RunKeepsInv(Step(w, evs[0]), evs[1..]);
    }
  }

  /** A fresh session satisfies the invariant. */
  lemma StartHasInv(master: RootKey, ad: Bytes, spk: KeyPair, first: KeyPair)
    requires Matching(spk) && Matching(first) && spk.pub != first.pub
    ensures Inv(Start(master, ad, spk, first))
  {
    var w := Start(master, ad, spk, first);
    assert {spk.pub, first.pub} == {first.pub, spk.pub};
    assert RootAt(master, w.keys, 1) == NextRoot(master, Shared({first.pub, spk.pub}));
    assert Epoch(w, Alice) == 1 && Epoch(w, Bob) == 0;
    assert PeerInv(w, 1, w.alice);
    assert PeerInv(w, 0, w.bob);
  }
}
