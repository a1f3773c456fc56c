/**
 The X3DH handshake, following sections 3.3 and 3.4 of Signal's "The X3DH Key Agreement
 Protocol", without one-time prekeys on the initiating side, and how it starts a session.
 */
module Handshake {
  import opened Wrappers
  import opened Bytes
  import opened Crypto
  import opened SessionSpec
  import opened World
  import opened Deliveries
  import opened Identity
  import opened PrekeyHistory

  datatype X3dhError =
    | InvalidBundle
    | UnknownSpk(id: U32)
    | UnknownOpk(id: U32)
    | Identity(error: IdentityError)

  datatype InitialMessage = InitialMessage(ikDhPub: Bytes, ekPub: Bytes, spkId: U32, opkId: Option<U32>)

  datatype InitiatorResult = InitiatorResult(master: RootKey, message: InitialMessage, ad: Bytes)

  datatype ResponderResult = ResponderResult(master: RootKey, ad: Bytes, spkKeypair: KeyPair)

  function Decode32(s: Bytes): Result<Key32, X3dhError> {
    match DecodeExactly(s, 32)
    case Ok(k) => Ok(k)
    case Err(e) => Err(Identity(e))
  }

  function Initiate(sc: Scheme, ours: Keys, theirs: PublicBundle, ek: KeyPair): Result<InitiatorResult, X3dhError> {
    if !VerifyBundle(sc, theirs) then Err(InvalidBundle)
    else
      var theirIk :- Decode32(theirs.ikDhPub);
      var theirSpk :- Decode32(theirs.spkPub);
      var inputs := [DeriveShared(ours.ikDh.priv, theirSpk),
                     DeriveShared(ek.priv, theirIk),
                     DeriveShared(ek.priv, theirSpk)];
      Ok(InitiatorResult(Master(inputs),
                         InitialMessage(Hex(ours.ikDh.pub), Hex(ek.pub), theirs.spkId, None),
                         ours.ikDh.pub + theirIk))
  }

  /** The three exchanges on the responding side. */
  function ResponderInputs(spk: KeyPair, ikDh: KeyPair, theirIk: Key32, theirEk: Key32): seq<Shared> {
    [DeriveShared(spk.priv, theirIk), DeriveShared(ikDh.priv, theirEk), DeriveShared(spk.priv, theirEk)]
  }

  datatype Responded = Responded(result: ResponderResult, keys: Keys)

  function Respond(ours: Keys, msg: InitialMessage): Result<Responded, X3dhError> {
    match SignedPrekeyById(ours, msg.spkId)
    case None => Err(UnknownSpk(msg.spkId))
    case Some(prekey) =>
      var theirIk :- Decode32(msg.ikDhPub);
      var theirEk :- Decode32(msg.ekPub);
      var inputs := ResponderInputs(prekey.keypair, ours.ikDh, theirIk, theirEk);
      var ad := theirIk + ours.ikDh.pub;
      match msg.opkId
      case None => Ok(Responded(ResponderResult(Master(inputs), ad, prekey.keypair), ours))
      case Some(opkId) =>
        var i := IndexOfOneTime(ours.oneTimePrekeys, opkId);
        if i == |ours.oneTimePrekeys| then Err(UnknownOpk(opkId))
        else
          var all := inputs + [DeriveShared(ours.oneTimePrekeys[i].keypair.priv, theirEk)];
          Ok(Responded(ResponderResult(Master(all), ad, prekey.keypair),
                       ours.(oneTimePrekeys := ours.oneTimePrekeys[..i] + ours.oneTimePrekeys[i + 1..])))
  }

  /** Responding uses up the one-time prekey it names and changes nothing else. */
  method RespondTo(ours: IdentityState, msg: InitialMessage) returns (r: Result<ResponderResult, X3dhError>)
    modifies ours
    ensures match Respond(old(ours.View()), msg)
            case Ok(out) => r == Ok(out.result) && ours.View() == out.keys
            case Err(e) => r == Err(e) && ours.View() == old(ours.View())
  {
    var prekey := SignedPrekeyById(ours.View(), msg.spkId);
    if prekey.None? {
      return Err(UnknownSpk(msg.spkId));
    }
    var theirIk := Decode32(msg.ikDhPub);
    if theirIk.Err? {
      return Err(theirIk.error);
    }
    var theirEk := Decode32(msg.ekPub);
    if theirEk.Err? {
      return Err(theirEk.error);
    }
    var keypair := prekey.value.keypair;
    var inputs := ResponderInputs(keypair, ours.ikDh, theirIk.value, theirEk.value);
    if msg.opkId.Some? {
      var opk := ours.ConsumeOneTimePrekey(msg.opkId.value);
      if opk.None? {
        return Err(UnknownOpk(msg.opkId.value));
      }
      inputs := inputs + [DeriveShared(opk.value.keypair.priv, theirEk.value)];
    }
    r := Ok(ResponderResult(Master(inputs), theirIk.value + ours.ikDh.pub, keypair));
  }

  /**
   Initiating, for every bundle: it is refused as invalid exactly if it fails the check of its
   prekey's signature; after that only a malformed transport key stops it. The secret is made
   of the exchanges between our identity key and their prekey, the new key and their identity
   key, and the new key and their prekey, in this order.
   */
  lemma InitiateOutcome(sc: Scheme, ours: Keys, theirs: PublicBundle, ek: KeyPair)
    ensures Initiate(sc, ours, theirs, ek) == Err(InvalidBundle) <==>
            match (HexDecode(theirs.ikSignPub), HexDecode(theirs.spkPub), HexDecode(theirs.spkSig))
            case (Some(ik), Some(spk), Some(sig)) => !(|ik| == 32 && |spk| == 32 && |sig| == 64 && sc.verify(ik, spk, sig))
            case _ => true
    ensures Initiate(sc, ours, theirs, ek) != Err(InvalidBundle) ==>
            match HexDecode(theirs.ikDhPub)
            case None => Initiate(sc, ours, theirs, ek) == Err(Identity(BadHex))
            case Some(ikDh) =>
              if |ikDh| != 32 then Initiate(sc, ours, theirs, ek) == Err(Identity(InvalidLength))
              else
                && HexDecode(theirs.spkPub).Some?
                && var (us, eph, spk) := (ours.ikDh.priv.image, ek.priv.image, HexDecode(theirs.spkPub).value);
                   && |spk| == 32
                   && Initiate(sc, ours, theirs, ek) ==
                      Ok(InitiatorResult(Master([Shared({us, spk}), Shared({eph, ikDh}), Shared({eph, spk})]),
                                         InitialMessage(Hex(ours.ikDh.pub), Hex(ek.pub), theirs.spkId, None),
                                         ours.ikDh.pub + ikDh))
  {
    VerifyBundleIff(sc, theirs);
  }

  /**
   Responding, for every message: an unknown prekey id is refused first, then malformed keys,
   then an unknown one-time prekey. The exchanges mirror those of the initiator, and a one-time
   prekey adds a fourth with the initiator's new key, at the end.
   */
  lemma RespondOutcome(ours: Keys, msg: InitialMessage)
    ensures var found := SignedPrekeyById(ours, msg.spkId);
            var (ikHex, ekHex) := (HexDecode(msg.ikDhPub), HexDecode(msg.ekPub));
            var i := match msg.opkId case None => 0 case Some(id) => IndexOfOneTime(ours.oneTimePrekeys, id);
            if found.None? then Respond(ours, msg) == Err(UnknownSpk(msg.spkId))
            else if ikHex.None? then Respond(ours, msg) == Err(Identity(BadHex))
            else if |ikHex.value| != 32 then Respond(ours, msg) == Err(Identity(InvalidLength))
            else if ekHex.None? then Respond(ours, msg) == Err(Identity(BadHex))
            else if |ekHex.value| != 32 then Respond(ours, msg) == Err(Identity(InvalidLength))
            else if msg.opkId.Some? && i == |ours.oneTimePrekeys| then Respond(ours, msg) == Err(UnknownOpk(msg.opkId.value))
            else
              var (us, spk, ik, ek) := (ours.ikDh.priv.image, found.value.keypair.priv.image, ikHex.value, ekHex.value);
              var three := [Shared({spk, ik}), Shared({us, ek}), Shared({spk, ek})];
              && Respond(ours, msg).Ok?
              && var out := Respond(ours, msg).value;
                 && out.result.ad == ik + ours.ikDh.pub && out.result.spkKeypair == found.value.keypair
                 && (msg.opkId.None? ==> out.result.master == Master(three) && out.keys == ours)
                 && (msg.opkId.Some? ==>
                       && ours.oneTimePrekeys[i].id == msg.opkId.value
                       && out.result.master == Master(three + [Shared({ours.oneTimePrekeys[i].keypair.priv.image, ek})])
                       && out.keys == ours.(oneTimePrekeys := ours.oneTimePrekeys[..i] + ours.oneTimePrekeys[i + 1..]))
  {
  }

  /** A message that used up a one-time prekey is refused if it comes again, and only for that reason. */
  lemma OneTimeOnce(ours: Keys, msg: InitialMessage)
    requires forall i, j :: 0 <= i < j < |ours.oneTimePrekeys| ==> ours.oneTimePrekeys[i].id != ours.oneTimePrekeys[j].id
    requires Respond(ours, msg).Ok?
    ensures var again := Respond(Respond(ours, msg).value.keys, msg);
            again == match msg.opkId
                     case Some(id) => Err(UnknownOpk(id))
                     case None => Respond(ours, msg)
  {
    if msg.opkId.Some? {
      var i := IndexOfOneTime(ours.oneTimePrekeys, msg.opkId.value);
      var rest := ours.oneTimePrekeys[..i] + ours.oneTimePrekeys[i + 1..];
      assert forall j :: 0 <= j < |rest| ==> rest[j] == ours.oneTimePrekeys[if j < i then j else j + 1];
      assert IndexOfOneTime(rest, msg.opkId.value) == |rest|;
    }
  }

  /**
   A handshake made from any bundle a peer ever published, answered after any number of
   rotations: the responder refuses it exactly if the bundle's prekey was dropped after its
   retention ran out; otherwise both sides hold the same secret and associated data, and the
   responder gets the keypair whose public half the initiator used.
   */
  lemma HandshakeAgrees(sc: Scheme, alice: Keys, bob: Record, calls: seq<Call>, ek: KeyPair)
    requires Correct(sc) && Matching(alice.ikDh) && Matching(ek) && Matching(bob.keys.ikSign) && Matching(bob.keys.ikDh)
    requires HistoryInv(sc, bob) && Usable(calls, bob)
    ensures var later := AfterCalls(sc, bob, calls);
            var j := |bob.issued| - 1;
            var bundle := PublicBundleFor(sc, bob.keys);
            && Initiate(sc, alice, bundle, ek).Ok?
            && |later.born| == |later.issued| > j >= 0
            && var init := Initiate(sc, alice, bundle, ek).value;
               match Respond(later.keys, init.message)
               case Err(e) =>
                 e == UnknownSpk(bundle.spkId) && j < |later.issued| - 1 && Expired(later, j, |later.clock|)
               case Ok(out) =>
                 && (j == |later.issued| - 1 || !Expired(later, j, |later.clock|))
                 && out.keys == later.keys
                 && out.result.master == init.master
                 && out.result.ad == init.ad
                 && Matching(out.result.spkKeypair) && Hex(out.result.spkKeypair.pub) == bundle.spkPub
  {
    hide Initiate, Respond, AfterCalls, SignedPrekeyById, Expired, Usable, Hex;
    var later, j := AfterCalls(sc, bob, calls), |bob.issued| - 1;
    CallsExtend(sc, bob, calls);
    CallsKeepHistory(sc, bob, calls);
    IssuedResolves(sc, later, j);
    assert later.issued[j] == bob.issued[j] == bob.keys.signedPrekey;
    InitiateOwnBundle(sc, alice, bob.keys, ek);
    RespondToOwn(alice, later.keys, bob.keys.signedPrekey, ek);
  }

  lemma InitiateOwnBundle(sc: Scheme, alice: Keys, bob: Keys, ek: KeyPair)
    requires Correct(sc) && Matching(bob.ikSign)
    requires bob.signedPrekey.signature == sc.sign(bob.ikSign, bob.signedPrekey.keypair.pub)
    ensures var spk := bob.signedPrekey.keypair.pub;
            Initiate(sc, alice, PublicBundleFor(sc, bob), ek) ==
            Ok(InitiatorResult(
                 Master([DeriveShared(alice.ikDh.priv, spk), DeriveShared(ek.priv, bob.ikDh.pub), DeriveShared(ek.priv, spk)]),
                 InitialMessage(Hex(alice.ikDh.pub), Hex(ek.pub), bob.signedPrekey.id, None),
                 alice.ikDh.pub + bob.ikDh.pub))
  {
    OwnBundleVerifies(sc, bob);
    DecodeHex(bob.ikDh.pub);
    DecodeHex(bob.signedPrekey.keypair.pub);
  }

  /** Each exchange is the same from both ends. */
  lemma ExchangesAgree(alice: KeyPair, ek: KeyPair, ikDh: KeyPair, spk: KeyPair)
    requires Matching(alice) && Matching(ek) && Matching(ikDh) && Matching(spk)
    ensures ResponderInputs(spk, ikDh, alice.pub, ek.pub)
         == [DeriveShared(alice.priv, spk.pub), DeriveShared(ek.priv, ikDh.pub), DeriveShared(ek.priv, spk.pub)]
  {
    assert {alice.pub, spk.pub} == {spk.pub, alice.pub};
    assert {ek.pub, ikDh.pub} == {ikDh.pub, ek.pub};
    assert {ek.pub, spk.pub} == {spk.pub, ek.pub};
  }

  lemma RespondToOwn(alice: Keys, bob: Keys, prekey: SignedPreKey, ek: KeyPair)
    requires Matching(alice.ikDh) && Matching(ek) && Matching(bob.ikDh) && Matching(prekey.keypair)
    requires SignedPrekeyById(bob, prekey.id) in {None, Some(prekey)}
    ensures var spk := prekey.keypair.pub;
            var msg := InitialMessage(Hex(alice.ikDh.pub), Hex(ek.pub), prekey.id, None);
            Respond(bob, msg) ==
            if SignedPrekeyById(bob, prekey.id).None? then Err(UnknownSpk(prekey.id))
            else Ok(Responded(ResponderResult(
                   Master([DeriveShared(alice.ikDh.priv, spk), DeriveShared(ek.priv, bob.ikDh.pub), DeriveShared(ek.priv, spk)]),
                   alice.ikDh.pub + bob.ikDh.pub, prekey.keypair), bob))
  {
    DecodeHex(alice.ikDh.pub);
    DecodeHex(ek.pub);
    ExchangesAgree(alice.ikDh, ek, bob.ikDh, prekey.keypair);
  }

  /**
   The sessions that such a handshake starts, the initiator's from the bundle's prekey and
   the responder's from the keypair it got back, satisfy the two-party invariant.
   */
  lemma HandshakeStartsSession(sc: Scheme, alice: Keys, bob: Record, calls: seq<Call>, ek: KeyPair, first: KeyPair)
    requires Correct(sc) && Matching(alice.ikDh) && Matching(ek) && Matching(bob.keys.ikSign) && Matching(bob.keys.ikDh)
    requires HistoryInv(sc, bob) && Usable(calls, bob)
    requires Matching(first) && first.pub != bob.keys.signedPrekey.keypair.pub
    requires SignedPrekeyById(AfterCalls(sc, bob, calls).keys, bob.keys.signedPrekey.id).Some?
    ensures var bundle := PublicBundleFor(sc, bob.keys);
            && Initiate(sc, alice, bundle, ek).Ok?
            && var init := Initiate(sc, alice, bundle, ek).value;
               && Respond(AfterCalls(sc, bob, calls).keys, init.message).Ok?
               && Decode32(bundle.spkPub).Ok?
               && var out := Respond(AfterCalls(sc, bob, calls).keys, init.message).value.result;
                  var w := Start(init.master, init.ad, out.spkKeypair, first);
                  && Inv(w)
                  && w.ad == out.ad
                  && w.alice.session == InitInitiator(init.master, Decode32(bundle.spkPub).value, first)
                  && w.bob.session == InitResponder(out.master, out.spkKeypair)
  {
    HandshakeAgrees(sc, alice, bob, calls, ek);
    var init := Initiate(sc, alice, PublicBundleFor(sc, bob.keys), ek).value;
    var out := Respond(AfterCalls(sc, bob, calls).keys, init.message).value.result;
    DecodeHex(bob.keys.signedPrekey.keypair.pub);
    HexInjective(out.spkKeypair.pub, bob.keys.signedPrekey.keypair.pub);
    StartHasInv(init.master, init.ad, out.spkKeypair, first);
  }

  /** The responder's first session opens the initiator's first message. */
  lemma FirstMessage(master: RootKey, ad: Bytes, spk: KeyPair, first: KeyPair, text: Bytes, nonce: Bytes, next: KeyPair)
    requires Matching(spk) && Matching(first) && |nonce| == NONCE_SIZE
    ensures var sent := Encrypt(InitInitiator(master, spk.pub, first), text, ad, nonce);
            && sent.Ok?
            && var got := Decrypt(InitResponder(master, spk), sent.value.wire, ad, next);
               got.Ok? && got.value.text == text
  {
    var wire := Encrypt(InitInitiator(master, spk.pub, first), text, ad, nonce).value.wire;
    var s := InitResponder(master, spk);
    var s2 := DhStep(s, first.pub, next);
    assert Turn(s, first.pub, 0, next) == Ok(s2);
    assert Skip(s2, 0) == Ok(s2);
    assert {first.pub, spk.pub} == {spk.pub, first.pub};
    assert s2.recvCk == Some(ChainOf(master, DeriveShared(first.priv, spk.pub)));
  }

  /**
   However old the bundle, as long as its prekey is retained, the first message under the
   new session opens at the other end to the text that was sent.
   */
  lemma FirstMessageOpens(
    sc: Scheme, alice: Keys, bob: Record, calls: seq<Call>, ek: KeyPair, first: KeyPair, text: Bytes, nonce: Bytes, next: KeyPair)
    requires Correct(sc) && Matching(alice.ikDh) && Matching(ek) && Matching(bob.keys.ikSign) && Matching(bob.keys.ikDh)
    requires HistoryInv(sc, bob) && Usable(calls, bob) && Matching(first) && |nonce| == NONCE_SIZE
    requires SignedPrekeyById(AfterCalls(sc, bob, calls).keys, bob.keys.signedPrekey.id).Some?
    ensures var bundle := PublicBundleFor(sc, bob.keys);
            && Initiate(sc, alice, bundle, ek).Ok? && Decode32(bundle.spkPub).Ok?
            && var init := Initiate(sc, alice, bundle, ek).value;
               var sent := Encrypt(InitInitiator(init.master, Decode32(bundle.spkPub).value, first), text, init.ad, nonce);
               && sent.Ok? && Respond(AfterCalls(sc, bob, calls).keys, init.message).Ok?
               && var out := Respond(AfterCalls(sc, bob, calls).keys, init.message).value.result;
                  var got := Decrypt(InitResponder(out.master, out.spkKeypair), sent.value.wire, out.ad, next);
                  got.Ok? && got.value.text == text
  {
    HandshakeAgrees(sc, alice, bob, calls, ek);
    hide Initiate, Respond, AfterCalls, SignedPrekeyById, Expired, Usable, HistoryInv, Encrypt, Decrypt;
    var init := Initiate(sc, alice, PublicBundleFor(sc, bob.keys), ek).value;
    var out := Respond(AfterCalls(sc, bob, calls).keys, init.message).value.result;
    DecodeHex(bob.keys.signedPrekey.keypair.pub);
    HexInjective(out.spkKeypair.pub, bob.keys.signedPrekey.keypair.pub);
    FirstMessage(init.master, init.ad, out.spkKeypair, first, text, nonce, next);
  }
}
