/**
 Authenticity between the two parties: whatever a side in step with its peer accepts is a
 message that the peer sent, unaltered, and it comes by one of three routes.
 */
module TwoParty {
  import opened Wrappers
  import opened Bytes
  import opened Crypto
  import opened KeyQueue
  import opened SessionSpec
  import opened SessionLaws
  import opened World

  // ---------- the key schedule ----------

  lemma IndexIs(keys: seq<Key32>, e: nat)
    requires DistinctKeys(keys) && e < |keys|
    ensures keys[e] in keys && IndexOf(keys, keys[e]) == e
  {
    assert keys[e] in keys;
  }

  lemma {:induction false} RootAtDepth(master: RootKey, keys: seq<Key32>, e: nat)
    requires e < |keys|
    ensures RootDepth(RootAt(master, keys, e)) == RootDepth(master) + e
  {
    if e > 0 {
      RootAtDepth(master, keys, e - 1);
    }
  }

  lemma {:induction false} RootAtDescends(master: RootKey, keys: seq<Key32>, e: nat)
    requires e < |keys|
    ensures Descends(RootAt(master, keys, e), master)
  {
    if e > 0 {
      RootAtDescends(master, keys, e - 1);
    }
  }

  /** Every key of a chain started from a scheduled root belongs to the session. */
  lemma NotForeign(w: World, x: nat, dh: Shared, n: nat)
    requires x < |w.keys|
    ensures !Foreign(w, MessageKeyOf(Advance(ChainOf(RootAt(w.master, w.keys, x), dh), n)))
  {
    AdvanceKeepsRoot(ChainOf(RootAt(w.master, w.keys, x), dh), n);
    RootAtDescends(w.master, w.keys, x);
  }

  /** A message key of the schedule tells the root key, exchange and number it came from. */
  lemma KeyAtOrigin(master: RootKey, keys: seq<Key32>, e: nat, n: nat, x: nat, dh: Shared, m: nat)
    requires 1 <= e < |keys| && x < |keys|
    requires KeyAt(master, keys, e, n) == MessageKeyOf(Advance(ChainOf(RootAt(master, keys, x), dh), m))
    ensures n == m && x == e - 1 && dh == Shared({keys[e], keys[e - 1]})
  {
    AdvanceInjective(ChainAt(master, keys, e), n, ChainOf(RootAt(master, keys, x), dh), m);
    RootAtDepth(master, keys, e - 1);
    RootAtDepth(master, keys, x);
  }

  lemma Neighbours(x: int)
    ensures (x - 1) % 2 != x % 2 && (x + 1) % 2 != x % 2 && (x + 2) % 2 == x % 2
  {
  }

  // ---------- what an accepted message can be ----------

  /** A ciphertext sealed under a key of the session is that of some sent message. */
  lemma Provenance(w: World, wire: Wire) returns (e: nat, n: nat)
    requires Shape(w) && OnlySent(w) && Producible(w, wire)
    requires wire.body.Some? && wire.body.value.Sealed? && !Foreign(w, wire.body.value.key)
    ensures WasSent(w, e, n) && wire.body == HonestWire(w, e, n).body
  {
    var v :| v in w.network && v.body == wire.body;
    e, n :| WasSent(w, e, n) && v == HonestWire(w, e, n);
  }

  lemma OpenedUnder(w: World, wire: Wire, dh: Key32, key: MessageKey, e: nat, n: nat)
    requires Shape(w) && WasSent(w, e, n) && wire.body == HonestWire(w, e, n).body
    requires wire.dhPub == Some(dh) && OpenWire(key, wire, dh, w.ad).Ok?
    ensures wire == HonestWire(w, e, n)
    ensures key == KeyAt(w.master, w.keys, e, n)
    ensures OpenWire(key, wire, dh, w.ad).value == w.sent[e][n].text
  {
    HeaderInjective(w.ad, dh, wire.pn, wire.n, w.ad, w.keys[e], PnOf(w, e), n);
  }

  /** Whatever opens was sent, unchanged, and with the key that opened it. */
  lemma Opened(w: World, wire: Wire, dh: Key32, key: MessageKey) returns (e: nat, n: nat)
    requires Shape(w) && OnlySent(w) && Producible(w, wire)
    requires wire.dhPub == Some(dh) && OpenWire(key, wire, dh, w.ad).Ok? && !Foreign(w, key)
    ensures WasSent(w, e, n) && wire == HonestWire(w, e, n)
    ensures key == KeyAt(w.master, w.keys, e, n)
    ensures OpenWire(key, wire, dh, w.ad).value == w.sent[e][n].text
  {
    e, n := Provenance(w, wire);
    OpenedUnder(w, wire, dh, key, e, n);
  }

  /** This wire is message `n` of chain `e` as sent, and `text` is what was encrypted in it. */
  ghost predicate Genuine(w: World, wire: Wire, text: Bytes, e: int, n: int) {
    Shape(w) && WasSent(w, e, n) && wire == HonestWire(w, e, n) && text == w.sent[e][n].text
  }

  /** How the receiver in epoch `x` comes by the key of message `n` of chain `e`. */
  datatype Route = Banked | Current | Next

  ghost predicate Routed(w: World, x: int, s: Session, e: int, n: U32, route: Route)
    requires Shape(w) && 0 <= e < |w.keys|
  {
    var banked := KeyId(w.keys[e], n) in Ids(s.bank);
    match route
    case Banked => banked
    case Current => !banked && e == x - 1 && x >= 2 && n >= s.recvN
    case Next => !banked && e == x + 1
  }

  lemma BankedIsPeers(w: World, x: int, peer: Peer, id: KeyId)
    requires Shape(w) && Ledger(w, x, peer) && id in Ids(peer.session.bank)
    ensures Passed(w, x, peer.session.recvN, id)
  {
    assert id in PassedSet(w, x, peer.session.recvN);
  }

  lemma BankedNotForeign(w: World, q: Queue, entry: Entry)
    requires Shape(w) && BankRight(w, q) && entry in q
    ensures !Foreign(w, entry.key)
  {
    var i :| 0 <= i < |q| && q[i] == entry;
    var e := IndexOf(w.keys, entry.id.dh);
    NotForeign(w, e - 1, Shared({w.keys[e], w.keys[e - 1]}), entry.id.n);
  }

  lemma FromBanked(w: World, x: int, peer: Peer, wire: Wire, dh: Key32, next: KeyPair) returns (e: nat, n: nat)
    requires Shape(w) && OnlySent(w) && Ledger(w, x, peer) && Producible(w, wire)
    requires wire.dhPub == Some(dh) && KeyId(dh, wire.n) in Ids(peer.session.bank)
    requires Decrypt(peer.session, wire, w.ad, next).Ok?
    ensures Genuine(w, wire, Decrypt(peer.session, wire, w.ad, next).value.text, e, n)
    ensures e % 2 != x % 2
  {
    FindSound(peer.session.bank, KeyId(dh, wire.n));
    var key := Find(peer.session.bank, KeyId(dh, wire.n)).value;
    BankedNotForeign(w, peer.session.bank, Entry(KeyId(dh, wire.n), key));
    e, n := Opened(w, wire, dh, key);
    BankedIsPeers(w, x, peer, KeyId(dh, wire.n));
    IndexIs(w.keys, e);
  }

  /** The key that the current chain derives for a message number is the scheduled one. */
  lemma CurrentKey(w: World, x: int, s: Session, n: U32)
    requires Shape(w) && ReceiveSide(w, x, s) && s.recvCk.Some? && s.recvN <= n
    ensures x >= 2
    ensures MessageKeyOf(Advance(s.recvCk.value, n - s.recvN)) == KeyAt(w.master, w.keys, x - 1, n)
  {
    AdvanceAdds(ChainAt(w.master, w.keys, x - 1), s.recvN, n - s.recvN);
  }

  lemma AuthenticCurrent(w: World, x: int, wire: Wire, dh: Key32) returns (e: nat, n: nat)
    requires Shape(w) && OnlySent(w) && Producible(w, wire)
    requires 2 <= x < |w.keys| && wire.dhPub == Some(dh)
    requires OpenWire(KeyAt(w.master, w.keys, x - 1, wire.n), wire, dh, w.ad).Ok?
    ensures WasSent(w, e, n) && wire == HonestWire(w, e, n) && e == x - 1
    ensures OpenWire(KeyAt(w.master, w.keys, x - 1, wire.n), wire, dh, w.ad).value == w.sent[e][n].text
  {
    hide OnlySent, Producible, HonestWire, OpenWire;
    NotForeign(w, x - 2, Shared({w.keys[x - 1], w.keys[x - 2]}), wire.n);
    e, n := Opened(w, wire, dh, KeyAt(w.master, w.keys, x - 1, wire.n));
    KeyAtOrigin(w.master, w.keys, e, n, x - 2, Shared({w.keys[x - 1], w.keys[x - 2]}), wire.n);
  }

  lemma FromCurrent(w: World, x: int, s: Session, wire: Wire, dh: Key32, next: KeyPair) returns (e: nat, n: nat)
    requires Shape(w) && OnlySent(w) && ReceiveSide(w, x, s) && Producible(w, wire)
    requires wire.dhPub == Some(dh) && KeyId(dh, wire.n) !in Ids(s.bank) && s.dhr == Some(dh)
    requires Decrypt(s, wire, w.ad, next).Ok?
    ensures Genuine(w, wire, Decrypt(s, wire, w.ad, next).value.text, e, n)
    ensures e == x - 1 && x >= 2 && n >= s.recvN && e % 2 != x % 2
  {
    FindSound(s.bank, KeyId(dh, wire.n));
    CurrentChain(s, wire, dh, w.ad, next);
    CurrentKey(w, x, s, wire.n);
    e, n := AuthenticCurrent(w, x, wire, dh);
    Neighbours(x);
  }

  lemma AuthenticNext(w: World, x: int, s: Session, wire: Wire, dh: Key32) returns (e: nat, n: nat)
    requires Shape(w) && OnlySent(w) && Producible(w, wire) && SendSide(w, x, s)
    requires wire.dhPub == Some(dh)
    requires OpenWire(MessageKeyOf(Advance(ChainOf(s.root, DeriveShared(s.dhs.priv, dh)), wire.n)), wire, dh, w.ad).Ok?
    ensures WasSent(w, e, n) && wire == HonestWire(w, e, n) && e == x + 1
    ensures OpenWire(MessageKeyOf(Advance(ChainOf(s.root, DeriveShared(s.dhs.priv, dh)), wire.n)), wire, dh, w.ad).value
         == w.sent[e][n].text
  {
    hide OnlySent, Producible, HonestWire, OpenWire;
    var key := MessageKeyOf(Advance(ChainOf(s.root, DeriveShared(s.dhs.priv, dh)), wire.n));
    NotForeign(w, x, DeriveShared(s.dhs.priv, dh), wire.n);
    e, n := Opened(w, wire, dh, key);
    KeyAtOrigin(w.master, w.keys, e, n, x, DeriveShared(s.dhs.priv, dh), wire.n);
  }

  lemma FromNext(w: World, x: int, s: Session, wire: Wire, dh: Key32, next: KeyPair) returns (e: nat, n: nat)
    requires Shape(w) && OnlySent(w) && SendSide(w, x, s) && Producible(w, wire)
    requires wire.dhPub == Some(dh) && KeyId(dh, wire.n) !in Ids(s.bank) && s.dhr != Some(dh)
    requires Decrypt(s, wire, w.ad, next).Ok?
    ensures Genuine(w, wire, Decrypt(s, wire, w.ad, next).value.text, e, n)
    ensures e == x + 1 && e % 2 != x % 2
  {
    hide OnlySent, Producible, HonestWire, SendSide;
    FindSound(s.bank, KeyId(dh, wire.n));
    NextChainOpened(s, wire, dh, w.ad, next);
    e, n := AuthenticNext(w, x, s, wire, dh);
    Neighbours(x);
  }

  /**
   Authenticity: whatever a side accepts is a message its peer sent, with its header
   untouched, and it yields the text that was encrypted.
   */
  lemma Authentic(w: World, x: int, peer: Peer, wire: Wire, next: KeyPair) returns (e: nat, n: nat, route: Route)
    requires Shape(w) && OnlySent(w) && PeerInv(w, x, peer) && Producible(w, wire)
    requires Decrypt(peer.session, wire, w.ad, next).Ok?
    ensures Genuine(w, wire, Decrypt(peer.session, wire, w.ad, next).value.text, e, n)
    ensures e % 2 != x % 2
    ensures Routed(w, x, peer.session, e, n, route)
  {
    var s := peer.session;
    var dh: Key32 := wire.dhPub.value;
    if KeyId(dh, wire.n) in Ids(s.bank) {
      route := Banked;
      e, n := FromBanked(w, x, peer, wire, dh, next);
    } else if s.dhr == Some(dh) {
      route := Current;
      e, n := FromCurrent(w, x, s, wire, dh, next);
    } else {
      route := Next;
      e, n := FromNext(w, x, s, wire, dh, next);
    }
  }
}
