/**
 The identity object: its keys, its current signed prekey, and the retired ones it
 still honours.
 */
module Identity {
  import opened Wrappers
  import opened Bytes
  import opened Crypto

  /** A signature scheme: the calls the program makes into the Ed25519 library. */
  datatype Scheme = Scheme(sign: (KeyPair, Bytes) -> Bytes, verify: (Key32, Bytes, Bytes) -> bool)

  /** What the program relies on: signatures are 64 bytes long and honest ones verify. */
  ghost predicate Correct(sc: Scheme) {
    forall kp: KeyPair, msg: Bytes ::
      Matching(kp) ==> |sc.sign(kp, msg)| == 64 && sc.verify(kp.pub, msg, sc.sign(kp, msg))
  }

  const SPK_ROTATION_SECS: int := 2 * 24 * 60 * 60

  const SPK_RETENTION_SECS: int := 30 * 24 * 60 * 60

  datatype SignedPreKey = SignedPreKey(id: U32, keypair: KeyPair, signature: Bytes, createdAt: int)

  datatype RetiredSignedPreKey = RetiredSignedPreKey(prekey: SignedPreKey, retiredAt: int)

  datatype OneTimePreKey = OneTimePreKey(id: U32, keypair: KeyPair)

  /** The fields of an identity. */
  datatype Keys = Keys(
    ikSign: KeyPair,
    ikDh: KeyPair,
    nostr: KeyPair,
    signedPrekey: SignedPreKey,
    oneTimePrekeys: seq<OneTimePreKey>,
    retired: seq<RetiredSignedPreKey>)

  function CreatePrekey(sc: Scheme, ikSign: KeyPair, id: U32, next: KeyPair, now: int): SignedPreKey {
    SignedPreKey(id, next, sc.sign(ikSign, next.pub), now)
  }

  // ---------- published bundles ----------

  datatype IdentityError = InvalidLength | BadHex

  /** What a peer is given, all keys and signatures in hexadecimal. */
  datatype PublicBundle = PublicBundle(
    ikSignPub: Bytes, ikDhPub: Bytes, nostrPub: Bytes, spkId: U32, spkPub: Bytes, spkSig: Bytes, idSig: Bytes)

  function IdentitySigningBytes(ikDhPub: Key32, nostrPub: Key32): Bytes {
    ikDhPub + nostrPub
  }

  const OPK_COUNT: nat := 50

  /** A new identity out of freshly generated pairs. */
  function CreateIdentity(
    sc: Scheme, ikSign: KeyPair, ikDh: KeyPair, nostr: KeyPair, spk: KeyPair, opks: seq<KeyPair>, now: int): Keys
    requires |opks| == OPK_COUNT
  {
    Keys(ikSign, ikDh, nostr, CreatePrekey(sc, ikSign, 1, spk, now), CreateOneTimePrekeys(1, opks), [])
  }

  function CreateOneTimePrekeys(startId: U32, pairs: seq<KeyPair>): seq<OneTimePreKey>
    requires startId + |pairs| <= U32_MAX
  {
    seq(|pairs|, i requires 0 <= i < |pairs| => OneTimePreKey(startId + i, pairs[i]))
  }

  function PublicBundleFor(sc: Scheme, k: Keys): PublicBundle {
    PublicBundle(
      Hex(k.ikSign.pub), Hex(k.ikDh.pub), Hex(k.nostr.pub), k.signedPrekey.id,
      Hex(k.signedPrekey.keypair.pub), Hex(k.signedPrekey.signature),
      Hex(sc.sign(k.ikSign, IdentitySigningBytes(k.ikDh.pub, k.nostr.pub))))
  }

  function DecodeExactly(s: Bytes, n: nat): (r: Result<Bytes, IdentityError>)
    ensures r.Ok? ==> |r.value| == n
  {
    match HexDecode(s)
    case None => Err(BadHex)
    case Some(b) => if |b| == n then Ok(b) else Err(InvalidLength)
  }

  /** The signed prekey is signed by the identity key. */
  predicate VerifyBundle(sc: Scheme, b: PublicBundle) {
    var (ik, spk, sig) := (DecodeExactly(b.ikSignPub, 32), DecodeExactly(b.spkPub, 32), DecodeExactly(b.spkSig, 64));
    ik.Ok? && spk.Ok? && sig.Ok? && sc.verify(ik.value, spk.value, sig.value)
  }

  /** Moreover the identity key signed the transport keys. */
  predicate VerifyBundleBinding(sc: Scheme, b: PublicBundle) {
    && VerifyBundle(sc, b)
    && var (ik, dh, nostr, sig) := (DecodeExactly(b.ikSignPub, 32), DecodeExactly(b.ikDhPub, 32),
                                    DecodeExactly(b.nostrPub, 32), DecodeExactly(b.idSig, 64));
       ik.Ok? && dh.Ok? && nostr.Ok? && sig.Ok?
       && sc.verify(ik.value, IdentitySigningBytes(dh.value, nostr.value), sig.value)
  }

  /** A bundle passes exactly if its identity key, prekey and signature decode to 32, 32 and 64 bytes that verify. */
  lemma VerifyBundleIff(sc: Scheme, b: PublicBundle)
    ensures VerifyBundle(sc, b) <==>
            match (HexDecode(b.ikSignPub), HexDecode(b.spkPub), HexDecode(b.spkSig))
            case (Some(ik), Some(spk), Some(sig)) => |ik| == 32 && |spk| == 32 && |sig| == 64 && sc.verify(ik, spk, sig)
            case _ => false
  {
  }

  /** Moreover the transport keys must decode, and the identity key must have signed the two in this order. */
  lemma VerifyBundleBindingIff(sc: Scheme, b: PublicBundle)
    ensures VerifyBundleBinding(sc, b) <==>
            && VerifyBundle(sc, b)
            && match (HexDecode(b.ikSignPub), HexDecode(b.ikDhPub), HexDecode(b.nostrPub), HexDecode(b.idSig))
               case (Some(ik), Some(dh), Some(nostr), Some(idSig)) =>
                 |ik| == 32 && |dh| == 32 && |nostr| == 32 && |idSig| == 64 && sc.verify(ik, dh + nostr, idSig)
               case _ => false
  {
  }

  /** What a peer decodes from a published bundle are the identity's own public keys, and no one-time prekey. */
  lemma BundleShowsKeys(sc: Scheme, k: Keys)
    ensures var b := PublicBundleFor(sc, k);
            && HexDecode(b.ikSignPub) == Some(k.ikSign.pub)
            && HexDecode(b.ikDhPub) == Some(k.ikDh.pub)
            && HexDecode(b.nostrPub) == Some(k.nostr.pub)
            && b.spkId == k.signedPrekey.id
            && HexDecode(b.spkPub) == Some(k.signedPrekey.keypair.pub)
            && HexDecode(b.spkSig) == Some(k.signedPrekey.signature)
            && HexDecode(b.idSig) == Some(sc.sign(k.ikSign, k.ikDh.pub + k.nostr.pub))
  {
    HexRoundTrip(k.ikSign.pub);
    HexRoundTrip(k.ikDh.pub);
    HexRoundTrip(k.nostr.pub);
    HexRoundTrip(k.signedPrekey.keypair.pub);
    HexRoundTrip(k.signedPrekey.signature);
    HexRoundTrip(sc.sign(k.ikSign, k.ikDh.pub + k.nostr.pub));
  }

  /** Under a scheme in which a signature is good for one key and message only, no honest bundle survives a change of its prekey. */
  lemma SwappedPrekeyRefused(sc: Scheme, k: Keys, b: PublicBundle)
    requires k.signedPrekey.signature == sc.sign(k.ikSign, k.signedPrekey.keypair.pub)
    requires forall m: Bytes :: m != k.signedPrekey.keypair.pub ==> !sc.verify(k.ikSign.pub, m, k.signedPrekey.signature)
    requires b == PublicBundleFor(sc, k).(spkPub := b.spkPub) && HexDecode(b.spkPub) != Some(k.signedPrekey.keypair.pub)
    ensures !VerifyBundle(sc, b) && !VerifyBundleBinding(sc, b)
  {
    BundleShowsKeys(sc, k);
    VerifyBundleIff(sc, b);
  }

  lemma DecodeHex(b: Bytes)
    ensures DecodeExactly(Hex(b), |b|) == Ok(b)
  {
    HexRoundTrip(b);
  }

  /** Every bundle an identity hands out passes both checks. */
  lemma OwnBundleVerifies(sc: Scheme, k: Keys)
    requires Correct(sc) && Matching(k.ikSign)
    requires k.signedPrekey.signature == sc.sign(k.ikSign, k.signedPrekey.keypair.pub)
    ensures VerifyBundleBinding(sc, PublicBundleFor(sc, k))
  {
    DecodeHex(k.ikSign.pub);
    DecodeHex(k.ikDh.pub);
    DecodeHex(k.nostr.pub);
    DecodeHex(k.signedPrekey.keypair.pub);
    DecodeHex(k.signedPrekey.signature);
    DecodeHex(sc.sign(k.ikSign, IdentitySigningBytes(k.ikDh.pub, k.nostr.pub)));
  }

  // ---------- lookup ----------

  function FindRetired(retired: seq<RetiredSignedPreKey>, id: U32): Option<SignedPreKey> {
    if retired == [] then None
    else if retired[0].prekey.id == id then Some(retired[0].prekey)
    else FindRetired(retired[1..], id)
  }

  /** The current signed prekey, or a retired one not yet dropped. */
  function SignedPrekeyById(k: Keys, id: U32): Option<SignedPreKey> {
    if k.signedPrekey.id == id then Some(k.signedPrekey) else FindRetired(k.retired, id)
  }

  /** The current key if it has the id, otherwise the first retired one that has it, otherwise nothing. */
  lemma {:induction false} LookupOutcome(k: Keys, id: U32)
    ensures var found := SignedPrekeyById(k, id);
            if k.signedPrekey.id == id then found == Some(k.signedPrekey)
            else if exists i :: 0 <= i < |k.retired| && k.retired[i].prekey.id == id
            then exists i :: 0 <= i < |k.retired| && k.retired[i].prekey.id == id && found == Some(k.retired[i].prekey)
                             && forall j :: 0 <= j < i ==> k.retired[j].prekey.id != id
            else found == None
    decreases |k.retired|
  {
    if k.retired != [] && k.signedPrekey.id != id && k.retired[0].prekey.id != id {
      var rest := k.(retired := k.retired[1..]);
      LookupOutcome(rest, id);
      assert forall i :: 0 < i < |k.retired| ==> k.retired[i] == rest.retired[i - 1];
      if i :| 0 <= i < |rest.retired| && rest.retired[i].prekey.id == id
              && SignedPrekeyById(rest, id) == Some(rest.retired[i].prekey)
              && forall j :: 0 <= j < i ==> rest.retired[j].prekey.id != id {
        assert k.retired[i + 1].prekey.id == id && SignedPrekeyById(k, id) == Some(k.retired[i + 1].prekey);
      }
    }
  }

  /** The position of the first one-time prekey with this id, or the length of the list. */
  function IndexOfOneTime(list: seq<OneTimePreKey>, id: U32): (i: nat)
    ensures i <= |list| && (i < |list| ==> list[i].id == id)
    ensures forall j :: 0 <= j < i ==> list[j].id != id
  {
    if list == [] || list[0].id == id then 0 else 1 + IndexOfOneTime(list[1..], id)
  }

  // ---------- rotation ----------

  function MaxId(id: U32, retired: seq<RetiredSignedPreKey>): U32
    decreases |retired|
  {
    if retired == [] then id
    else MaxId(if retired[0].prekey.id > id then retired[0].prekey.id else id, retired[1..])
  }

  predicate Due(k: Keys, now: int) {
    now - k.signedPrekey.createdAt >= SPK_ROTATION_SECS
  }

  /** The current key replaced by a new one and retired. */
  function Replaced(sc: Scheme, k: Keys, now: int, next: KeyPair): Keys {
    var id := SaturatingAdd32(MaxId(k.signedPrekey.id, k.retired), 1);
    k.(signedPrekey := CreatePrekey(sc, k.ikSign, id, next, now),
       retired := k.retired + [RetiredSignedPreKey(k.signedPrekey, now)])
  }

  predicate Live(r: RetiredSignedPreKey, now: int) {
    now - r.retiredAt < SPK_RETENTION_SECS
  }

  /** The retired keys whose retention has not run out. */
  function Retained(retired: seq<RetiredSignedPreKey>, now: int): seq<RetiredSignedPreKey> {
    if retired == [] then []
    else if Live(retired[0], now) then [retired[0]] + Retained(retired[1..], now)
    else Retained(retired[1..], now)
  }

  function Rotate(sc: Scheme, k: Keys, now: int, next: KeyPair): Keys {
    var current := if Due(k, now) then Replaced(sc, k, now, next) else k;
    current.(retired := Retained(current.retired, now))
  }

  lemma {:induction false} RetainedAll(retired: seq<RetiredSignedPreKey>, now: int)
    ensures |Retained(retired, now)| <= |retired|
    ensures |Retained(retired, now)| == |retired| ==> Retained(retired, now) == retired
  {
    if retired != [] {
      RetainedAll(retired[1..], now);
      assert retired == [retired[0]] + retired[1..];
    }
  }

  lemma {:induction false} RetainedExactly(retired: seq<RetiredSignedPreKey>, now: int, x: RetiredSignedPreKey)
    ensures multiset(Retained(retired, now))[x] == if now - x.retiredAt < 2592000 then multiset(retired)[x] else 0
  {
    if retired != [] {
      RetainedExactly(retired[1..], now, x);
      assert retired == [retired[0]] + retired[1..];
    }
  }

  lemma {:induction false} MaxIdIsGreatest(id: U32, retired: seq<RetiredSignedPreKey>)
    ensures MaxId(id, retired) >= id
    ensures forall i :: 0 <= i < |retired| ==> retired[i].prekey.id <= MaxId(id, retired)
    ensures MaxId(id, retired) == id || exists i :: 0 <= i < |retired| && retired[i].prekey.id == MaxId(id, retired)
    decreases |retired|
  {
    if retired != [] {
      var m := if retired[0].prekey.id > id then retired[0].prekey.id else id;
      MaxIdIsGreatest(m, retired[1..]);
      assert forall i :: 1 <= i < |retired| ==> retired[i] == retired[1..][i - 1];
      if i :| 0 <= i < |retired| - 1 && retired[1..][i].prekey.id == MaxId(m, retired[1..]) {
        assert retired[i + 1].prekey.id == MaxId(id, retired);
      }
    }
  }

  /** The id is in use by the current key or by a retired one. */
  predicate InUse(k: Keys, id: int) {
    id == k.signedPrekey.id || exists i :: 0 <= i < |k.retired| && k.retired[i].prekey.id == id
  }

  /** One above the greatest id in use, held at the greatest 32-bit number. */
  ghost predicate IsNextId(k: Keys, id: int) {
    exists top :: InUse(k, top) && (forall other :: InUse(k, other) ==> other <= top)
                  && id == if top == 0xFFFF_FFFF then top else top + 1
  }

  /**
   The outcome of a rotation call for every identity and clock reading, in seconds: afterwards
   the current key is younger than 2 days. It stays if it was so before; otherwise it is
   replaced by the generated pair under the next id, created now and signed by the identity
   key, and retired now. Of all retired keys exactly those retired less than 30 days ago stay.
   */
  lemma RotationOutcome(sc: Scheme, k: Keys, now: int, next: KeyPair)
    ensures var k2, kept := Rotate(sc, k, now, next), now - k.signedPrekey.createdAt < 172800;
            && now - k2.signedPrekey.createdAt < 172800
            && (if kept then k2.signedPrekey == k.signedPrekey
                else && k2.signedPrekey.createdAt == now
                     && k2.signedPrekey.keypair == next
                     && k2.signedPrekey.signature == sc.sign(k.ikSign, next.pub)
                     && IsNextId(k, k2.signedPrekey.id))
            && (forall x :: multiset(k2.retired)[x] ==
                  (if now - x.retiredAt >= 2592000 then 0
                   else if !kept && x == RetiredSignedPreKey(k.signedPrekey, now) then multiset(k.retired)[x] + 1
                   else multiset(k.retired)[x]))
            && k2 == k.(signedPrekey := k2.signedPrekey, retired := k2.retired)
  {
    var k2 := Rotate(sc, k, now, next);
    var all := if Due(k, now) then Replaced(sc, k, now, next).retired else k.retired;
    forall x ensures multiset(k2.retired)[x] == if now - x.retiredAt < 2592000 then multiset(all)[x] else 0 {
      RetainedExactly(all, now, x);
    }
    if Due(k, now) {
      MaxIdIsGreatest(k.signedPrekey.id, k.retired);
      var top := MaxId(k.signedPrekey.id, k.retired);
      assert InUse(k, top) && forall other :: InUse(k, other) ==> other <= top;
    }
  }

  /** The identity as the program keeps and updates it. */
  class IdentityState {
    var ikSign: KeyPair
    var ikDh: KeyPair
    var nostr: KeyPair
    var signedPrekey: SignedPreKey
    var oneTimePrekeys: seq<OneTimePreKey>
    var retiredSignedPrekeys: seq<RetiredSignedPreKey>

    function View(): Keys
      reads this
    {
      Keys(ikSign, ikDh, nostr, signedPrekey, oneTimePrekeys, retiredSignedPrekeys)
    }

    constructor (k: Keys)
      ensures View() == k
    {
      ikSign, ikDh, nostr := k.ikSign, k.ikDh, k.nostr;
      signedPrekey := k.signedPrekey;
      oneTimePrekeys, retiredSignedPrekeys := k.oneTimePrekeys, k.retired;
    }

    /** Reports a change exactly when there was one. */
    method RotateSignedPrekeyIfDue(sc: Scheme, now: int, next: KeyPair) returns (changed: bool)
      modifies this`signedPrekey, this`retiredSignedPrekeys
      ensures View() == Rotate(sc, old(View()), now, next)
      ensures changed <==> View() != old(View())
      ensures now - signedPrekey.createdAt < 172800
      ensures now - old(signedPrekey).createdAt < 172800 <==> signedPrekey == old(signedPrekey)
    {
      changed := false;
      if now - signedPrekey.createdAt >= SPK_ROTATION_SECS {
        var id := SaturatingAdd32(MaxId(signedPrekey.id, retiredSignedPrekeys), 1);
        var outgoing := signedPrekey;
        signedPrekey := CreatePrekey(sc, ikSign, id, next, now);
        retiredSignedPrekeys := retiredSignedPrekeys + [RetiredSignedPreKey(outgoing, now)];
        changed := true;
      }
      var before := |retiredSignedPrekeys|;
      RetainedAll(retiredSignedPrekeys, now);
      retiredSignedPrekeys := Retained(retiredSignedPrekeys, now);
      if |retiredSignedPrekeys| != before {
        changed := true;
      }
    }

    /** Takes out the first one-time prekey with this id. */
    method ConsumeOneTimePrekey(id: U32) returns (r: Option<OneTimePreKey>)
      modifies this`oneTimePrekeys
      ensures var before, i := old(oneTimePrekeys), IndexOfOneTime(old(oneTimePrekeys), id);
              if i < |before| then r == Some(before[i]) && oneTimePrekeys == before[..i] + before[i + 1..]
              else r == None && oneTimePrekeys == before
    {
      var i := 0;
      while i < |oneTimePrekeys|
        invariant 0 <= i <= |oneTimePrekeys| && oneTimePrekeys == old(oneTimePrekeys)
        invariant forall j :: 0 <= j < i ==> oneTimePrekeys[j].id != id
      {
        if oneTimePrekeys[i].id == id {
          r := Some(oneTimePrekeys[i]);
          oneTimePrekeys := oneTimePrekeys[..i] + oneTimePrekeys[i + 1..];
          return;
        }
        i := i + 1;
      }
      r := None;
    }
  }
}
