/**
 The stored form of an identity, in which retirement times may be missing, and the
 framing of a sealed vault file.
 */
module Vault {
  import opened Wrappers
  import opened Bytes
  import opened Crypto
  import opened Identity
  import opened PrekeyHistory

  datatype SerializedPreKey = SerializedPreKey(
    id: U32, keypair: KeyPair, signature: Bytes, createdAt: int, retiredAt: Option<int>)

  datatype SerializedIdentity = SerializedIdentity(
    ikSign: KeyPair,
    ikDh: KeyPair,
    nostr: KeyPair,
    signedPreKey: SerializedPreKey,
    oneTimePreKeys: seq<OneTimePreKey>,
    retiredSignedPreKeys: seq<SerializedPreKey>)

  function SerializePrekey(p: SignedPreKey, retiredAt: Option<int>): SerializedPreKey {
    SerializedPreKey(p.id, p.keypair, p.signature, p.createdAt, retiredAt)
  }

  function Serialize(k: Keys): SerializedIdentity {
    SerializedIdentity(
      k.ikSign, k.ikDh, k.nostr, SerializePrekey(k.signedPrekey, None), k.oneTimePrekeys,
      seq(|k.retired|, i requires 0 <= i < |k.retired| =>
        SerializePrekey(k.retired[i].prekey, Some(k.retired[i].retiredAt))))
  }

  /** The first of those with the least id above `id`. */
  function NextHigher(list: seq<SerializedPreKey>, id: U32): Option<SerializedPreKey> {
    if list == [] then None
    else
      var rest := NextHigher(list[1..], id);
      if list[0].id > id && (rest.None? || list[0].id <= rest.value.id) then Some(list[0]) else rest
  }

  /** The retirement time of a key stored without one: when the next key was created. */
  function LegacyRetiredAt(id: U32, retired: seq<SerializedPreKey>, current: SerializedPreKey): int {
    match NextHigher(retired + [current], id)
    case Some(next) => next.createdAt
    case None => current.createdAt
  }

  function DeserializePrekey(s: SerializedPreKey): SignedPreKey {
    SignedPreKey(s.id, s.keypair, s.signature, s.createdAt)
  }

  function Deserialize(s: SerializedIdentity): Keys {
    Keys(
      s.ikSign, s.ikDh, s.nostr, DeserializePrekey(s.signedPreKey), s.oneTimePreKeys,
      seq(|s.retiredSignedPreKeys|, i requires 0 <= i < |s.retiredSignedPreKeys| =>
        var r := s.retiredSignedPreKeys[i];
        RetiredSignedPreKey(
          DeserializePrekey(r),
          if r.retiredAt.Some? then r.retiredAt.value
          else LegacyRetiredAt(r.id, s.retiredSignedPreKeys, s.signedPreKey))))
  }

  /** The stored form as an older version wrote some of its entries. */
  function Erase(s: SerializedIdentity, which: set<nat>): SerializedIdentity {
    s.(retiredSignedPreKeys :=
         seq(|s.retiredSignedPreKeys|, i requires 0 <= i < |s.retiredSignedPreKeys| =>
           if i in which then s.retiredSignedPreKeys[i].(retiredAt := None) else s.retiredSignedPreKeys[i]))
  }

  /** A stored identity shows each field of the identity under its own name, the current prekey without a retirement time. */
  lemma SerializedFields(k: Keys)
    ensures var s := Serialize(k);
            && s.ikSign == k.ikSign && s.ikDh == k.ikDh && s.nostr == k.nostr && s.oneTimePreKeys == k.oneTimePrekeys
            && Stored(s.signedPreKey, k.signedPrekey, None)
            && |s.retiredSignedPreKeys| == |k.retired|
            && forall i :: 0 <= i < |k.retired| ==>
                 Stored(s.retiredSignedPreKeys[i], k.retired[i].prekey, Some(k.retired[i].retiredAt))
  {
  }

  predicate Stored(s: SerializedPreKey, p: SignedPreKey, retiredAt: Option<int>) {
    s.id == p.id && s.keypair == p.keypair && s.signature == p.signature && s.createdAt == p.createdAt && s.retiredAt == retiredAt
  }

  /** Whether this is the first, among the entries with a higher id, of those with the least one. */
  ghost predicate IsNextHigher(list: seq<SerializedPreKey>, id: U32, i: int) {
    && 0 <= i < |list| && list[i].id > id
    && (forall j :: 0 <= j < |list| && list[j].id > id ==> list[i].id <= list[j].id)
    && forall j :: 0 <= j < i ==> list[j].id != list[i].id
  }

  lemma {:induction false} NextHigherOutcome(list: seq<SerializedPreKey>, id: U32)
    ensures match NextHigher(list, id)
            case None => forall j :: 0 <= j < |list| ==> list[j].id <= id
            case Some(e) => exists i :: IsNextHigher(list, id, i) && list[i] == e
  {
    if list != [] {
      var rest := list[1..];
      NextHigherOutcome(rest, id);
      assert forall j :: 1 <= j < |list| ==> list[j] == rest[j - 1];
      if NextHigher(list, id) == Some(list[0]) && list[0].id > id {
        assert IsNextHigher(list, id, 0);
      }
      if i :| IsNextHigher(rest, id, i) && NextHigher(rest, id) == Some(rest[i]) {
        assert NextHigher(list, id) == Some(rest[i]) && !(list[0].id > id && list[0].id <= rest[i].id) ==>
                 IsNextHigher(list, id, i + 1);
      }
    }
  }

  /**
   The retirement time that loading puts in for every stored identity and id: the creation
   time of the key with the next higher id, the current key included, or if there is none that
   of the current key.
   */
  lemma LegacyTimeOutcome(id: U32, retired: seq<SerializedPreKey>, current: SerializedPreKey)
    ensures var all := retired + [current];
            if forall j :: 0 <= j < |all| ==> all[j].id <= id then LegacyRetiredAt(id, retired, current) == current.createdAt
            else exists i :: IsNextHigher(all, id, i) && LegacyRetiredAt(id, retired, current) == all[i].createdAt
  {
    NextHigherOutcome(retired + [current], id);
  }

  /** In a list of consecutive ids the next higher one is the next entry. */
  lemma {:induction false} NextHigherIsNext(list: seq<SerializedPreKey>, first: nat, id: U32)
    requires forall i :: 0 <= i < |list| ==> list[i].id == first + i
    requires first <= id < first + |list| - 1
    ensures NextHigher(list, id) == Some(list[id + 1 - first])
  {
    assert forall i :: 0 <= i < |list| - 1 ==> list[1..][i] == list[i + 1];
    if id == first {
      NextHigherSame(list[1..], first + 1, id);
    } else {
      NextHigherIsNext(list[1..], first + 1, id);
    }
  }

  lemma {:induction false} NextHigherSame(list: seq<SerializedPreKey>, first: nat, id: U32)
    requires forall i :: 0 <= i < |list| ==> list[i].id == first + i
    requires list != [] && id < first
    ensures NextHigher(list, id) == Some(list[0])
  {
    assert forall i :: 0 <= i < |list| - 1 ==> list[1..][i] == list[i + 1];
    if |list| > 1 {
      NextHigherSame(list[1..], first + 1, id);
    }
  }

  /**
   For every identity that rotations lead to, dropping the stored retirement times of any
   of its retired keys loses nothing: loading restores the identity exactly.
   */
  lemma ErasedTimesRestored(sc: Scheme, r: Record, which: set<nat>)
    requires Lived(sc, r)
    ensures Deserialize(Erase(Serialize(r.keys), which)) == r.keys
  {
    LivedHistory(sc, r);
    var d := Deserialize(Erase(Serialize(r.keys), which));
    assert |d.retired| == |r.keys.retired|;
    forall i | 0 <= i < |r.keys.retired| ensures d.retired[i] == r.keys.retired[i] {
      RestoredOne(sc, r, which, i);
    }
  }

  lemma RestoredOne(sc: Scheme, r: Record, which: set<nat>, i: nat)
    requires HistoryInv(sc, r) && i < |r.keys.retired|
    ensures Deserialize(Erase(Serialize(r.keys), which)).retired[i] == r.keys.retired[i]
  {
    hide LegacyRetiredAt, Issues, Births, DroppedIffExpired;
    var s := Erase(Serialize(r.keys), which);
    LegacyTime(sc, r, s, which, i);
    assert r.keys.retired[i].retiredAt == r.issued[Oldest(r) + i + 1].createdAt;
  }

  lemma LegacyTime(sc: Scheme, r: Record, s: SerializedIdentity, which: set<nat>, i: nat)
    requires HistoryInv(sc, r) && i < |r.keys.retired| && s == Erase(Serialize(r.keys), which)
    ensures LegacyRetiredAt(s.retiredSignedPreKeys[i].id, s.retiredSignedPreKeys, s.signedPreKey)
         == r.issued[Oldest(r) + i + 1].createdAt
  {
    hide Erase, Serialize, Issues, Births, DroppedIffExpired;
    var list := s.retiredSignedPreKeys + [s.signedPreKey];
    ListAt(sc, r, s, which, list);
    assert list[i].id == Oldest(r) + 1 + i && list[i] == s.retiredSignedPreKeys[i];
    NextHigherIsNext(list, Oldest(r) + 1, list[i].id);
  }

  lemma ListAt(sc: Scheme, r: Record, s: SerializedIdentity, which: set<nat>, list: seq<SerializedPreKey>)
    requires HistoryInv(sc, r) && s == Erase(Serialize(r.keys), which)
    requires list == s.retiredSignedPreKeys + [s.signedPreKey]
    ensures |s.retiredSignedPreKeys| == |r.keys.retired|
    ensures forall i :: 0 <= i < |list| ==>
              list[i].id == Oldest(r) + 1 + i && list[i].createdAt == r.issued[Oldest(r) + i].createdAt
  {
  }

  // ---------- the vault file ----------

  datatype SealedVault = SealedVault(version: Byte, salt: Bytes, nonce: Bytes, ciphertext: Bytes)

  datatype VaultError = Corrupted | BadMagic

  const VAULT_MAGIC: Bytes := [84, 82, 73, 78, 79, 0]

  const SALT_SIZE: nat := 16

  const HEADER_SIZE: nat := 36

  ghost predicate WellFormed(v: SealedVault) {
    |v.salt| == SALT_SIZE && |v.nonce| == NONCE_SIZE
  }

  function EncodeVault(v: SealedVault): Bytes {
    VAULT_MAGIC + [v.version] + [0] + v.salt + v.nonce + v.ciphertext
  }

  /** The text "TRINO" and a zero byte, the version, a zero byte, 16 bytes of salt, 12 of nonce, then the ciphertext. */
  lemma VaultLayout(v: SealedVault)
    requires WellFormed(v)
    ensures var b := EncodeVault(v);
            && |b| == 36 + |v.ciphertext|
            && b[..6] == [84, 82, 73, 78, 79, 0] && b[6] == v.version && b[7] == 0
            && b[8..24] == v.salt && b[24..36] == v.nonce && b[36..] == v.ciphertext
  {
  }

  /**
   Accepts exactly the files that are long enough and start with the magic bytes; the byte
   after the version is not looked at. A decoded vault encodes to the file with that byte cleared.
   */
  method DecodeVault(bytes: Bytes) returns (r: Result<SealedVault, VaultError>)
    ensures r.Ok? <==> |bytes| >= 36 && bytes[..6] == [84, 82, 73, 78, 79, 0]
    ensures r == Err(Corrupted) <==> |bytes| < 36
    ensures r == Err(BadMagic) <==> |bytes| >= 36 && bytes[..6] != [84, 82, 73, 78, 79, 0]
    ensures r.Ok? ==> WellFormed(r.value) && EncodeVault(r.value) == bytes[7 := 0]
    ensures r.Ok? ==> r.value == SealedVault(bytes[6], bytes[8..24], bytes[24..36], bytes[36..])
  {
    if |bytes| < |VAULT_MAGIC| + 2 + SALT_SIZE + NONCE_SIZE {
      return Err(Corrupted);
    }
    if bytes[..|VAULT_MAGIC|] != VAULT_MAGIC {
      return Err(BadMagic);
    }
    var off := |VAULT_MAGIC|;
    var version := bytes[off];
    off := off + 2;
    var salt := bytes[off..off + SALT_SIZE];
    off := off + SALT_SIZE;
    var nonce := bytes[off..off + NONCE_SIZE];
    off := off + NONCE_SIZE;
    r := Ok(SealedVault(version, salt, nonce, bytes[off..]));
    assert EncodeVault(r.value) == bytes[7 := 0];
  }

  /** The encoding can be read back in one way only, so decoding an encoded vault returns it. */
  lemma EncodeVaultInjective(v: SealedVault, w: SealedVault)
    requires WellFormed(v) && WellFormed(w) && EncodeVault(v) == EncodeVault(w)
    ensures v == w
  {
    var a, b := EncodeVault(v), EncodeVault(w);
    assert a[6] == v.version && b[6] == w.version;
    assert a[8..24] == v.salt && b[8..24] == w.salt;
    assert a[24..36] == v.nonce && b[24..36] == w.nonce;
    assert a[36..] == v.ciphertext && b[36..] == w.ciphertext;
  }

  /** Encoding and decoding a vault returns it. */
  method RoundTrip(v: SealedVault) returns (r: Result<SealedVault, VaultError>)
    requires WellFormed(v)
    ensures r == Ok(v)
  {
    var bytes := EncodeVault(v);
    r := DecodeVault(bytes);
    assert |bytes| >= HEADER_SIZE && bytes[..6] == VAULT_MAGIC && bytes[7 := 0] == bytes;
    EncodeVaultInjective(v, r.value);
  }
}
