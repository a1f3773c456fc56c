/**
 The cryptographic primitives as a free term algebra. A private key is named by
 its public image, a Diffie-Hellman output is the unordered pair of the two public
 images, the key-derivation functions are constructors and an authenticated
 ciphertext opens only under an equal key, nonce and associated data. Terms that
 were built differently are different, so no axiom is needed.
 */
module Crypto {
  import opened Wrappers
  import opened Bytes

  datatype PrivateKey = PrivateKey(image: Key32)

  datatype KeyPair = KeyPair(priv: PrivateKey, pub: Key32)

  /** The pair a key generator returns. */
  predicate Matching(kp: KeyPair) {
    kp.priv.image == kp.pub
  }

  datatype Shared = Shared(images: set<Key32>)

  function DeriveShared(ours: PrivateKey, peer: Key32): Shared {
    Shared({ours.image, peer})
  }

  /** Root keys: the handshake secret, and each later output of the root KDF. */
  datatype RootKey = Master(inputs: seq<Shared>) | NextRoot(root: RootKey, dh: Shared)

  /** Chain keys: the second output of the root KDF, and each chain step from it. */
  datatype ChainKey = ChainOf(root: RootKey, dh: Shared) | NextChain(prev: ChainKey)

  datatype MessageKey = MessageKeyOf(chain: ChainKey)

  datatype CryptoError =
    | InvalidKeyLength(expected: nat, got: nat)
    | InvalidNonceLength(expected: nat, got: nat)
    | Aead

  const NONCE_SIZE: nat := 12

  datatype Ciphertext =
    | Sealed(key: MessageKey, nonce: Bytes, plaintext: Bytes, ad: Bytes)
    | Noise(raw: Bytes)

  function Open(key: MessageKey, c: Ciphertext, nonce: Bytes, ad: Bytes): Result<Bytes, CryptoError> {
    if |nonce| != NONCE_SIZE then Err(InvalidNonceLength(NONCE_SIZE, |nonce|))
    else if c.Sealed? && c.key == key && c.nonce == nonce && c.ad == ad then Ok(c.plaintext)
    else Err(Aead)
  }

  // ---------- chains ----------

  /** The chain key `k` steps further on. */
  function Advance(ck: ChainKey, k: nat): ChainKey {
    if k == 0 then ck else NextChain(Advance(ck, k - 1))
  }

  lemma {:induction false} AdvanceAdds(ck: ChainKey, j: nat, k: nat)
    ensures Advance(Advance(ck, j), k) == Advance(ck, j + k)
  {
    if k > 0 {
      AdvanceAdds(ck, j, k - 1);
    }
  }

  /** A position in a chain determines the chain's start and the number of steps. */
  lemma {:induction false} AdvanceInjective(a: ChainKey, j: nat, b: ChainKey, k: nat)
    requires a.ChainOf? && b.ChainOf?
    requires Advance(a, j) == Advance(b, k)
    ensures a == b && j == k
  {
    if j > 0 && k > 0 {
      AdvanceInjective(a, j - 1, b, k - 1);
    }
  }

  function RootDepth(r: RootKey): nat {
    match r
    case Master(_) => 0
    case NextRoot(prev, _) => 1 + RootDepth(prev)
  }

  // ---------- origin ----------

  /** The root key that a chain was started from. */
  function RootOf(ck: ChainKey): RootKey {
    match ck
    case ChainOf(root, _) => root
    case NextChain(prev) => RootOf(prev)
  }

  /** Derived from the given root key by any number of exchanges. */
  predicate Descends(r: RootKey, origin: RootKey) {
    r == origin || (r.NextRoot? && Descends(r.root, origin))
  }

  lemma {:induction false} AdvanceKeepsRoot(ck: ChainKey, k: nat)
    ensures RootOf(Advance(ck, k)) == RootOf(ck)
  {
    if k > 0 {
      AdvanceKeepsRoot(ck, k - 1);
    }
  }
}
