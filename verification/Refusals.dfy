/**
 What any message at all makes of any session: the text it yields, or the one reason for
 which it is refused, told from the session and the message alone.
 */
module Refusals {
  import opened Wrappers
  import opened Bytes
  import opened Crypto
  import opened KeyQueue
  import opened SessionSpec
  import opened SessionLaws

  /** A delivery as its caller sees it. */
  function Outcome(r: Result<Received, RatchetError>): Result<Bytes, RatchetError> {
    match r
    case Ok(got) => Ok(got.text)
    case Err(e) => Err(e)
  }

  /**
   A ciphertext opens exactly if it was sealed under this key and nonce for this header and
   associated data. Undecodable text is refused like a forgery, before the nonce is measured.
   */
  lemma OpenOutcome(key: MessageKey, w: Wire, dh: Key32, ad: Bytes)
    ensures OpenWire(key, w, dh, ad) ==
            if w.body.None? || w.nonce.None? then Err(CryptoFailure(Aead))
            else if |w.nonce.value| != 12 then Err(CryptoFailure(InvalidNonceLength(12, |w.nonce.value|)))
            else if w.body.value.Sealed?
                    && w.body.value == Sealed(key, w.nonce.value, w.body.value.plaintext, ad + EncodeHeader(dh, w.pn, w.n))
            then Ok(w.body.value.plaintext)
            else Err(CryptoFailure(Aead))
  {
  }

  /** The message lies more than 1000 numbers ahead on its chain, or the step to its chain skips more than 1000. */
  predicate TooFar(s: Session, w: Wire, dh: Key32) {
    if s.dhr == Some(dh) then s.recvCk.Some? && w.n > s.recvN + 1000
    else w.n > 1000 || (s.recvCk.Some? && w.pn > s.recvN + 1000)
  }

  /** The key for a message that is not behind: from the current chain, or from the one its ratchet key opens. */
  function KeyAhead(s: Session, w: Wire, dh: Key32): MessageKey
    requires s.dhr == Some(dh) ==> s.recvCk.Some? && s.recvN <= w.n
  {
    if s.dhr == Some(dh) then MessageKeyOf(Advance(s.recvCk.value, w.n - s.recvN))
    else MessageKeyOf(Advance(ChainOf(s.root, Shared({s.dhs.priv.image, dh})), w.n))
  }

  /** The exact outcome of every delivery under a well-formed ratchet key. */
  lemma DeliveryOutcome(s: Session, w: Wire, dh: Key32, ad: Bytes, next: KeyPair)
    requires w.dhPub == Some(dh)
    ensures var current, banked := s.dhr == Some(dh), Find(s.bank, KeyId(dh, w.n));
            Outcome(Decrypt(s, w, ad, next)) ==
            if banked.Some? then OpenWire(banked.value, w, dh, ad)
            else if dh in s.retired || (current && w.n < s.recvN) then Err(Replay(w.n))
            else if TooFar(s, w, dh) then Err(TooManySkipped(1000))
            else if current && s.recvCk.None? then Err(NoReceivingChain)
            else OpenWire(KeyAhead(s, w, dh), w, dh, ad)
  {
    hide OpenWire, BankAll;
    if Find(s.bank, KeyId(dh, w.n)).None? && !IsReplay(s, dh, w.n) {
      if s.dhr == Some(dh) {
        assert Turn(s, dh, w.pn, next) == Ok(s);
      } else {
        NewChainOutcome(s, w, dh, ad, next);
      }
    }
  }

  lemma NewChainOutcome(s: Session, w: Wire, dh: Key32, ad: Bytes, next: KeyPair)
    requires s.dhr != Some(dh)
    ensures Outcome(FromAhead(s, w, dh, ad, next)) ==
            if TooFar(s, w, dh) then Err(TooManySkipped(1000)) else OpenWire(KeyAhead(s, w, dh), w, dh, ad)
  {
    hide OpenWire, BankAll;
    if Skip(s, w.pn).Ok? {
      var turned := DhStep(SkipTo(s, w.pn), dh, next);
      assert Turn(s, dh, w.pn, next) == Ok(turned);
      assert turned.recvN == 0 && turned.recvCk == Some(ChainOf(s.root, Shared({s.dhs.priv.image, dh})));
    }
  }

  /** A ratchet key that does not decode to 32 bytes is refused first, with the length it has. */
  lemma BadRatchetKey(s: Session, w: Wire, ad: Bytes, next: KeyPair)
    ensures w.dhPub.None? ==> Decrypt(s, w, ad, next) == Err(CryptoFailure(InvalidKeyLength(32, 0)))
    ensures w.dhPub.Some? && |w.dhPub.value| != 32 ==>
              Decrypt(s, w, ad, next) == Err(CryptoFailure(InvalidKeyLength(32, |w.dhPub.value|)))
  {
  }

  /** Sending fails only before the first message of the peer has come in. */
  lemma SendOutcome(s: Session, text: Bytes, ad: Bytes, nonce: Bytes)
    ensures s.sendCk.None? <==> Encrypt(s, text, ad, nonce) == Err(NoSendingChain)
    ensures s.sendCk.Some? ==>
              && Encrypt(s, text, ad, nonce).Ok?
              && var w := Encrypt(s, text, ad, nonce).value.wire;
                 && w.dhPub == Some(s.dhs.pub) && w.pn == s.prevN && w.n == s.sendN && w.nonce == Some(nonce)
                 && w.body == Some(Sealed(MessageKeyOf(s.sendCk.value), nonce, text, ad + EncodeHeader(s.dhs.pub, w.pn, w.n)))
  {
  }
}
