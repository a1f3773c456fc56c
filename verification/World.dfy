/**
 Two sessions and the network between them as a state machine. The network may
 reorder, drop, duplicate, reflect and re-address messages and may put any header
 on any ciphertext it has seen; it can make ciphertexts of its own under any key but
 those of this session.
 */
module World {
  import opened Wrappers
  import opened Bytes
  import opened Crypto
  import opened KeyQueue
  import opened SessionSpec

  datatype Party = Alice | Bob

  /** What a caller hands to encryption, and the nonce drawn for it. */
  datatype Note = Note(text: Bytes, nonce: Bytes)

  datatype Delivery = Delivery(id: KeyId, text: Bytes)

  /** A session with what its owner has accepted so far and which banked keys the cap has cost it. */
  datatype Peer = Peer(session: Session, log: seq<Delivery>, evicted: set<KeyId>)

  /**
   `keys` lists every ratchet key of the session in the order in which it came into
   use: the responder's prekey, the initiator's first key, and then by turns. The
   chain opened by `keys[e]` is chain `e`, and `sent[e]` is what was sent on it.
   */
  datatype World = World(
    master: RootKey,
    ad: Bytes,
    keys: seq<Key32>,
    sent: seq<seq<Note>>,
    network: set<Wire>,
    alice: Peer,
    bob: Peer)

  datatype Event =
    | Send(who: Party, note: Note)
    | Deliver(to: Party, wire: Wire, next: KeyPair)

  function PeerOf(w: World, p: Party): Peer {
    if p.Alice? then w.alice else w.bob
  }

  function WithPeer(w: World, p: Party, peer: Peer): World {
    if p.Alice? then w.(alice := peer) else w.(bob := peer)
  }

  /** The index of the ratchet key a party sends under: odd for Alice, even for Bob. */
  function Epoch(w: World, p: Party): int {
    var top := |w.keys| - 1;
    if (top % 2 == 1) == p.Alice? then top else top - 1
  }

  function Start(master: RootKey, ad: Bytes, spk: KeyPair, first: KeyPair): World {
    World(master, ad, [spk.pub, first.pub], [[], []], {},
          Peer(InitInitiator(master, spk.pub, first), [], {}),
          Peer(InitResponder(master, spk), [], {}))
  }

  // ---------- steps ----------

  function DoSend(w: World, p: Party, note: Note): World {
    var peer := PeerOf(w, p);
    var e := Epoch(w, p);
    match Encrypt(peer.session, note.text, w.ad, note.nonce)
    case Err(_) => w
    case Ok(out) =>
      var sent := if 0 <= e < |w.sent| then w.sent[e := w.sent[e] + [note]] else w.sent;
      WithPeer(w.(sent := sent, network := w.network + {out.wire}), p, peer.(session := out.session))
  }

  /**
   The keys that the cap costs in this delivery: the oldest above 2000 of those banked before
   and those it derives and banks. A delivery that uses a banked key costs none.
   */
  function EvictedBy(s: Session, wire: Wire, dh: Key32, next: KeyPair): set<KeyId> {
    if KeyId(dh, wire.n) in Ids(s.bank) then {}
    else Ids(Overflow(s.bank + NewlyBanked(s, wire, dh, next)))
  }

  function Accept(peer: Peer, wire: Wire, dh: Key32, next: KeyPair, got: Received): Peer {
    Peer(got.session,
         peer.log + [Delivery(KeyId(dh, wire.n), got.text)],
         peer.evicted + EvictedBy(peer.session, wire, dh, next))
  }

  function DoDeliver(w: World, p: Party, wire: Wire, next: KeyPair): World {
    var peer := PeerOf(w, p);
    match Decrypt(peer.session, wire, w.ad, next)
    case Err(_) => w
    case Ok(got) =>
      var accepted := WithPeer(w, p, Accept(peer, wire, wire.dhPub.value, next, got));
      if got.session.dhs == peer.session.dhs then accepted
      else accepted.(keys := w.keys + [got.session.dhs.pub], sent := w.sent + [[]])
  }

  function Step(w: World, ev: Event): World {
    match ev
    case Send(p, note) => DoSend(w, p, note)
    case Deliver(p, wire, next) => DoDeliver(w, p, wire, next)
  }

  /** A key of some other origin than this session's master secret. */
  predicate Foreign(w: World, key: MessageKey) {
    !Descends(RootOf(key.chain), w.master)
  }

  /** Ciphertexts the network can produce: noise, whatever it has carried, and anything under foreign keys. */
  ghost predicate Producible(w: World, wire: Wire) {
    wire.body.Some? && wire.body.value.Sealed? ==>
      Foreign(w, wire.body.value.key) || exists v :: v in w.network && v.body == wire.body
  }

  /** Message numbers stay below the 32-bit limit, and a generated key pair is a new one. */
  ghost predicate Legal(w: World, ev: Event) {
    match ev
    case Send(p, note) => PeerOf(w, p).session.sendN < U32_MAX && |note.nonce| == NONCE_SIZE
    case Deliver(_, wire, next) => Matching(next) && next.pub !in w.keys && Producible(w, wire)
  }

  function Run(w: World, evs: seq<Event>): World
    decreases |evs|
  {
    if evs == [] then w else Run(Step(w, evs[0]), evs[1..])
  }

  ghost predicate LegalRun(w: World, evs: seq<Event>)
    decreases |evs|
  {
    evs == [] || (Legal(w, evs[0]) && LegalRun(Step(w, evs[0]), evs[1..]))
  }

  // ---------- the shared key schedule ----------

  ghost function RootAt(master: RootKey, keys: seq<Key32>, e: nat): RootKey
    requires e < |keys|
  {
    if e == 0 then master
    else NextRoot(RootAt(master, keys, e - 1), Shared({keys[e], keys[e - 1]}))
  }

  /** The first chain key of chain `e`. */
  ghost function ChainAt(master: RootKey, keys: seq<Key32>, e: nat): ChainKey
    requires 1 <= e < |keys|
  {
    ChainOf(RootAt(master, keys, e - 1), Shared({keys[e], keys[e - 1]}))
  }

  ghost function KeyAt(master: RootKey, keys: seq<Key32>, e: nat, n: nat): MessageKey
    requires 1 <= e < |keys|
  {
    MessageKeyOf(Advance(ChainAt(master, keys, e), n))
  }

  ghost predicate DistinctKeys(keys: seq<Key32>) {
    forall i, j :: 0 <= i < j < |keys| ==> keys[i] != keys[j]
  }

  ghost function IndexOf(keys: seq<Key32>, dh: Key32): (e: nat)
    requires dh in keys
    ensures e < |keys| && keys[e] == dh
  {
    var e :| 0 <= e < |keys| && keys[e] == dh;
    e
  }

  // ---------- the invariant ----------

  ghost predicate Shape(w: World) {
    && |w.keys| == |w.sent| >= 2
    && DistinctKeys(w.keys)
    && (forall e :: 0 <= e < |w.sent| ==> |w.sent[e]| <= U32_MAX)
    && w.sent[0] == []
  }

  /** Message `n` of chain `e` was sent. */
  ghost predicate WasSent(w: World, e: int, n: int) {
    1 <= e < |w.keys| && |w.keys| == |w.sent| && 0 <= n < |w.sent[e]|
  }

  /** The length of the chain its sender used before chain `e`. */
  ghost function PnOf(w: World, e: nat): U32
    requires Shape(w) && e < |w.keys|
  {
    if e >= 2 then |w.sent[e - 2]| else 0
  }

  /** Message `n` of chain `e` as its sender put it on the wire. */
  ghost function HonestWire(w: World, e: nat, n: nat): Wire
    requires Shape(w) && WasSent(w, e, n)
  {
    var note := w.sent[e][n];
    var ad := w.ad + EncodeHeader(w.keys[e], PnOf(w, e), n);
    Wire(Some(w.keys[e]), PnOf(w, e), n, Some(note.nonce),
         Some(Sealed(KeyAt(w.master, w.keys, e, n), note.nonce, note.text, ad)))
  }

  /** Nothing but sent messages is on the network. */
  ghost predicate OnlySent(w: World)
    requires Shape(w)
  {
    forall v :: v in w.network ==> exists e: nat, n: nat :: WasSent(w, e, n) && v == HonestWire(w, e, n)
  }

  ghost predicate AllSent(w: World)
    requires Shape(w)
  {
    forall e: nat, n: nat :: WasSent(w, e, n) ==>
      HonestWire(w, e, n) in w.network && |w.sent[e][n].nonce| == NONCE_SIZE
  }

  /** A side in epoch `x` holds the root key of epoch `x` and sends on chain `x`. */
  ghost predicate SendSide(w: World, x: int, s: Session)
    requires Shape(w)
  {
    && 0 <= x < |w.keys|
    && s.root == RootAt(w.master, w.keys, x)
    && s.dhs == KeyPair(PrivateKey(w.keys[x]), w.keys[x])
    && s.sendN == |w.sent[x]|
    && s.sendCk == (if x == 0 then None else Some(Advance(ChainAt(w.master, w.keys, x), s.sendN)))
    && s.prevN == PnOf(w, x)
  }

  /** A side in epoch `x` receives on chain `x - 1`, `recvN` steps from its start. */
  ghost predicate ReceiveSide(w: World, x: int, s: Session)
    requires Shape(w)
  {
    && 0 <= x < |w.keys|
    && s.dhr == (if x == 0 then None else Some(w.keys[x - 1]))
    && (x < 2 ==> s.recvCk == None && s.recvN == 0)
    && (x >= 2 ==> && s.recvCk == Some(Advance(ChainAt(w.master, w.keys, x - 1), s.recvN))
                   && s.recvN <= |w.sent[x - 1]|)
  }

  /** The peer keys before the current one, at most the 8 latest, oldest first. */
  ghost predicate RetiredSide(keys: seq<Key32>, x: int, retired: seq<Key32>) {
    && 0 <= x < |keys|
    && |retired| == (if x == 0 then 0 else if (x - 1) / 2 <= MAX_RETIRED_DH_KEYS then (x - 1) / 2 else MAX_RETIRED_DH_KEYS)
    && forall i :: 0 <= i < |retired| ==> retired[i] == keys[x - 1 - 2 * (|retired| - i)]
  }

  /** The receiver in epoch `x` has moved past this message number. */
  ghost predicate Passed(w: World, x: int, recvN: nat, id: KeyId)
    requires Shape(w)
  {
    && id.dh in w.keys
    && var e := IndexOf(w.keys, id.dh);
       && e < x
       && e % 2 != x % 2
       && id.n < (if e == x - 1 then recvN else |w.sent[e]|)
  }

  ghost predicate BankRight(w: World, q: Queue)
    requires Shape(w)
  {
    forall i :: 0 <= i < |q| ==>
      && q[i].id.dh in w.keys
      && IndexOf(w.keys, q[i].id.dh) >= 1
      && q[i].key == KeyAt(w.master, w.keys, IndexOf(w.keys, q[i].id.dh), q[i].id.n)
  }

  function LogIds(log: seq<Delivery>): set<KeyId> {
    set i | 0 <= i < |log| :: log[i].id
  }

  ghost predicate LogRight(w: World, log: seq<Delivery>)
    requires Shape(w)
  {
    && (forall i, j :: 0 <= i < j < |log| ==> log[i].id != log[j].id)
    && (forall i :: 0 <= i < |log| ==>
          && log[i].id.dh in w.keys
          && var e := IndexOf(w.keys, log[i].id.dh);
             WasSent(w, e, log[i].id.n) && log[i].text == w.sent[e][log[i].id.n].text)
  }

  /** Three disjoint sets that together are exactly the ids of `passed`. */
  ghost predicate SplitsInto(passed: iset<KeyId>, a: set<KeyId>, b: set<KeyId>, c: set<KeyId>) {
    && a !! b && a !! c && b !! c
    && forall id :: id in passed <==> id in a || id in b || id in c
  }

  ghost function PassedSet(w: World, x: int, recvN: nat): iset<KeyId>
    requires Shape(w)
  {
    iset id | Passed(w, x, recvN, id)
  }

  /** Every message number a side has moved past is accounted for exactly once. */
  ghost predicate Ledger(w: World, x: int, peer: Peer)
    requires Shape(w)
  {
    && LogRight(w, peer.log)
    && BankRight(w, peer.session.bank)
    && DistinctIds(peer.session.bank)
    && |peer.session.bank| <= MAX_SKIPPED_KEYS
    && SplitsInto(PassedSet(w, x, peer.session.recvN),
                  LogIds(peer.log), Ids(peer.session.bank), peer.evicted)
  }

  ghost predicate PeerInv(w: World, x: int, peer: Peer)
    requires Shape(w)
  {
    && SendSide(w, x, peer.session)
    && ReceiveSide(w, x, peer.session)
    && RetiredSide(w.keys, x, peer.session.retired)
    && Ledger(w, x, peer)
  }

  ghost predicate Inv(w: World) {
    && Shape(w)
    && OnlySent(w)
    && AllSent(w)
    && PeerInv(w, Epoch(w, Alice), w.alice)
    && PeerInv(w, Epoch(w, Bob), w.bob)
  }
}
