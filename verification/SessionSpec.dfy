/**
 One side of a Double Ratchet session as a value, following section 3 of Signal's
 "The Double Ratchet Algorithm": what each call returns and what state it leaves.
 The mutable `Ratchet` class is proved against these functions.
 */
module SessionSpec {
  import opened Wrappers
  import opened Bytes
  import opened Crypto
  import opened KeyQueue

  const MAX_SKIP: U32 := 1000

  const MAX_RETIRED_DH_KEYS: nat := 8

  datatype Session = Session(
    root: RootKey,
    dhs: KeyPair,
    dhr: Option<Key32>,
    sendCk: Option<ChainKey>,
    recvCk: Option<ChainKey>,
    sendN: U32,
    recvN: U32,
    prevN: U32,
    bank: Queue,
    retired: seq<Key32>)

  datatype RatchetError =
    | NoSendingChain
    | NoReceivingChain
    | TooManySkipped(gap: nat)
    | Replay(n: U32)
    | CryptoFailure(error: CryptoError)

  /** A message on the wire, its hexadecimal fields already decoded; `None` is bad hexadecimal. */
  datatype Wire = Wire(dhPub: Option<Bytes>, pn: U32, n: U32, nonce: Option<Bytes>, body: Option<Ciphertext>)

  // ---------- starting a session ----------

  function InitInitiator(master: RootKey, theirSpk: Key32, next: KeyPair): Session {
    var dh := DeriveShared(next.priv, theirSpk);
    Session(NextRoot(master, dh), next, Some(theirSpk), Some(ChainOf(master, dh)), None, 0, 0, 0, [], [])
  }

  function InitResponder(master: RootKey, spk: KeyPair): Session {
    Session(master, spk, None, None, None, 0, 0, 0, [], [])
  }

  // ---------- headers ----------

  /** The 40 header bytes that are authenticated with every message. */
  function EncodeHeader(dh: Key32, pn: U32, n: U32): (r: Bytes)
    ensures |r| == 40
  {
    dh + BigEndian32(pn) + BigEndian32(n)
  }

  /** The header is the ratchet key, then the length of the previous chain and the message number, high byte first. */
  lemma HeaderLayout(dh: Key32, pn: U32, n: U32)
    ensures var r: seq<int> := EncodeHeader(dh, pn, n);
            && |r| == 40 && r[..32] == dh
            && pn == ((r[32] * 256 + r[33]) * 256 + r[34]) * 256 + r[35]
            && n == ((r[36] * 256 + r[37]) * 256 + r[38]) * 256 + r[39]
  {
    Word32(pn);
    Word32(n);
    hide BigEndian32;
    var r: seq<int> := EncodeHeader(dh, pn, n);
    assert r[32..36] == BigEndian32(pn) && r[36..40] == BigEndian32(n);
    assert r[32] == r[32..36][0] && r[33] == r[32..36][1] && r[34] == r[32..36][2] && r[35] == r[32..36][3];
    assert r[36] == r[36..40][0] && r[37] == r[36..40][1] && r[38] == r[36..40][2] && r[39] == r[36..40][3];
  }

  /** Associated data followed by a header is read back in one way only. */
  lemma HeaderInjective(ad1: Bytes, dh1: Key32, pn1: U32, n1: U32, ad2: Bytes, dh2: Key32, pn2: U32, n2: U32)
    requires ad1 + EncodeHeader(dh1, pn1, n1) == ad2 + EncodeHeader(dh2, pn2, n2)
    ensures ad1 == ad2 && dh1 == dh2 && pn1 == pn2 && n1 == n2
  {
    var h1, h2 := EncodeHeader(dh1, pn1, n1), EncodeHeader(dh2, pn2, n2);
    assert |ad1| == |ad2|;
    assert h1 == (ad1 + h1)[|ad1|..] == (ad2 + h2)[|ad2|..] == h2;
    assert ad1 == (ad1 + h1)[..|ad1|] == (ad2 + h2)[..|ad2|] == ad2;
    assert dh1 == h1[..32] && dh2 == h2[..32];
    assert BigEndian32(pn1) == h1[32..36] && BigEndian32(pn2) == h2[32..36];
    assert BigEndian32(n1) == h1[36..] && BigEndian32(n2) == h2[36..];
    BigEndian32Injective(pn1, pn2);
    BigEndian32Injective(n1, n2);
  }

  function DecodeKey(b: Option<Bytes>): Result<Key32, RatchetError> {
    match b
    case None => Err(CryptoFailure(InvalidKeyLength(32, 0)))
    case Some(k) => if |k| == 32 then Ok(k) else Err(CryptoFailure(InvalidKeyLength(32, |k|)))
  }

  // ---------- sending ----------

  datatype Sent = Sent(session: Session, wire: Wire)

  function Encrypt(s: Session, text: Bytes, ad: Bytes, nonce: Bytes): Result<Sent, RatchetError> {
    match s.sendCk
    case None => Err(NoSendingChain)
    case Some(ck) =>
      var body := Sealed(MessageKeyOf(ck), nonce, text, ad + EncodeHeader(s.dhs.pub, s.prevN, s.sendN));
      Ok(Sent(s.(sendCk := Some(NextChain(ck)), sendN := WrapInc32(s.sendN)),
              Wire(Some(s.dhs.pub), s.prevN, s.sendN, Some(nonce), Some(body))))
  }

  // ---------- receiving ----------

  /** The message keys of one chain from number `lo` up to but not including `hi`. */
  function Derived(dh: Key32, ck: ChainKey, lo: U32, hi: U32): seq<Entry>
    requires lo <= hi
  {
    seq(hi - lo, i requires 0 <= i < hi - lo => Entry(KeyId(dh, lo + i), MessageKeyOf(Advance(ck, i))))
  }

  /** The keys a skip to `until` derives without using. */
  function SkippedBy(s: Session, until: U32): seq<Entry> {
    if s.recvCk.None? || s.dhr.None? || until <= s.recvN then []
    else Derived(s.dhr.value, s.recvCk.value, s.recvN, until)
  }

  function SkipTo(s: Session, until: U32): Session {
    if s.recvCk.None? || s.dhr.None? || until <= s.recvN then s
    else s.(bank := BankAll(s.bank, SkippedBy(s, until)),
            recvCk := Some(Advance(s.recvCk.value, until - s.recvN)),
            recvN := until)
  }

  function Skip(s: Session, until: U32): Result<Session, RatchetError> {
    if s.recvCk.Some? && SaturatingAdd32(s.recvN, MAX_SKIP) < until then Err(TooManySkipped(MAX_SKIP))
    else Ok(SkipTo(s, until))
  }

  function Retire(retired: seq<Key32>, previous: Option<Key32>, peer: Key32): seq<Key32> {
    if previous.None? || previous.value == peer || previous.value in retired then retired
    else if |retired| < MAX_RETIRED_DH_KEYS then retired + [previous.value]
    else (retired + [previous.value])[1..]
  }

  function DhStep(s: Session, peer: Key32, next: KeyPair): Session {
    var dhIn := DeriveShared(s.dhs.priv, peer);
    var dhOut := DeriveShared(next.priv, peer);
    var root := NextRoot(s.root, dhIn);
    s.(root := NextRoot(root, dhOut), dhs := next, dhr := Some(peer),
       sendCk := Some(ChainOf(root, dhOut)), recvCk := Some(ChainOf(s.root, dhIn)),
       sendN := 0, recvN := 0, prevN := s.sendN, retired := Retire(s.retired, s.dhr, peer))
  }

  /** Make `dh` the current receiving chain, stepping the ratchet when it is a new key. */
  function Turn(s: Session, dh: Key32, pn: U32, next: KeyPair): Result<Session, RatchetError> {
    if s.dhr == Some(dh) then Ok(s)
    else
      var skipped :- Skip(s, pn);
      Ok(DhStep(skipped, dh, next))
  }

  function OpenWire(key: MessageKey, w: Wire, dh: Key32, ad: Bytes): Result<Bytes, RatchetError> {
    if w.body.None? || w.nonce.None? then Err(CryptoFailure(Aead))
    else
      match Open(key, w.body.value, w.nonce.value, ad + EncodeHeader(dh, w.pn, w.n))
      case Ok(text) => Ok(text)
      case Err(e) => Err(CryptoFailure(e))
  }

  datatype Received = Received(session: Session, text: Bytes)

  predicate IsReplay(s: Session, dh: Key32, n: U32) {
    dh in s.retired || (s.dhr == Some(dh) && n < s.recvN)
  }

  function FromBank(s: Session, w: Wire, dh: Key32, key: MessageKey, ad: Bytes): Result<Received, RatchetError> {
    var text :- OpenWire(key, w, dh, ad);
    Ok(Received(s.(bank := Without(s.bank, KeyId(dh, w.n))), text))
  }

  /** Open the next message of the current receiving chain. */
  function FromChain(s: Session, w: Wire, dh: Key32, ad: Bytes): Result<Received, RatchetError> {
    if s.recvCk.None? then Err(NoReceivingChain)
    else
      var text :- OpenWire(MessageKeyOf(s.recvCk.value), w, dh, ad);
      Ok(Received(s.(recvCk := Some(NextChain(s.recvCk.value)), recvN := WrapInc32(s.recvN)), text))
  }

  function FromAhead(s: Session, w: Wire, dh: Key32, ad: Bytes, next: KeyPair): Result<Received, RatchetError> {
    var turned :- Turn(s, dh, w.pn, next);
    var ready :- Skip(turned, w.n);
    FromChain(ready, w, dh, ad)
  }

  function DecryptKeyed(s: Session, w: Wire, dh: Key32, ad: Bytes, next: KeyPair): Result<Received, RatchetError> {
    match Find(s.bank, KeyId(dh, w.n))
    case Some(key) => FromBank(s, w, dh, key, ad)
    case None =>
      if IsReplay(s, dh, w.n) then Err(Replay(w.n)) else FromAhead(s, w, dh, ad, next)
  }

  function Decrypt(s: Session, w: Wire, ad: Bytes, next: KeyPair): Result<Received, RatchetError> {
    var dh :- DecodeKey(w.dhPub);
    DecryptKeyed(s, w, dh, ad, next)
  }

  /** The keys one delivery derives and banks, in order. */
  function NewlyBanked(s: Session, w: Wire, dh: Key32, next: KeyPair): seq<Entry> {
    if s.dhr == Some(dh) then SkippedBy(s, w.n)
    else SkippedBy(s, w.pn) + SkippedBy(DhStep(SkipTo(s, w.pn), dh, next), w.n)
  }
}
