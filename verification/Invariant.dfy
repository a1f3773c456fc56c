/**
 The two-party invariant is kept by every step of every run: the sides' ratchet keys
 leapfrog by one, both draw on one sequence of root keys, and every message number
 passed is accounted for exactly once.
 */
module Invariant {
  import opened Wrappers
  import opened Bytes
  import opened Crypto
  import opened KeyQueue
  import opened SessionSpec
  import opened World
  import opened TwoParty

  // ---------- growing history ----------

  /**
   History only grows: keys are appended, notes are appended, and all chains but the
   two newest are closed.
   */
  ghost predicate Extends(w: World, w2: World) {
    && Shape(w) && Shape(w2)
    && w2.master == w.master && w2.ad == w.ad
    && |w.keys| <= |w2.keys| && w2.keys[..|w.keys|] == w.keys
    && (forall e :: 0 <= e < |w.keys| ==> w.sent[e] <= w2.sent[e])
    && (forall e :: 0 <= e < |w.keys| - 2 ==> w2.sent[e] == w.sent[e])
  }

  lemma {:induction false} RootAtExtends(w: World, w2: World, e: nat)
    requires Extends(w, w2) && e < |w.keys|
    ensures RootAt(w2.master, w2.keys, e) == RootAt(w.master, w.keys, e)
  {
    assert w2.keys[..|w.keys|][e] == w.keys[e];
    if e > 0 {
      assert w2.keys[..|w.keys|][e - 1] == w.keys[e - 1];
      RootAtExtends(w, w2, e - 1);
    }
  }

  lemma ChainAtExtends(w: World, w2: World, e: nat)
    requires Extends(w, w2) && 1 <= e < |w.keys|
    ensures ChainAt(w2.master, w2.keys, e) == ChainAt(w.master, w.keys, e)
  {
    RootAtExtends(w, w2, e - 1);
    assert w2.keys[..|w.keys|][e] == w.keys[e];
    assert w2.keys[..|w.keys|][e - 1] == w.keys[e - 1];
  }

  lemma IndexExtends(w: World, w2: World, dh: Key32)
    requires Extends(w, w2) && dh in w.keys
    ensures dh in w2.keys && IndexOf(w2.keys, dh) == IndexOf(w.keys, dh)
  {
    var e := IndexOf(w.keys, dh);
    assert w2.keys[..|w.keys|][e] == w2.keys[e];
    IndexIs(w2.keys, e);
  }

  /** Messages already sent keep their wire form. */
  lemma HonestWireExtends(w: World, w2: World, e: nat, n: nat)
    requires Extends(w, w2) && WasSent(w, e, n)
    ensures WasSent(w2, e, n) && HonestWire(w2, e, n) == HonestWire(w, e, n)
    ensures w2.sent[e][n] == w.sent[e][n]
  {
    ChainAtExtends(w, w2, e);
    assert w2.keys[..|w.keys|][e] == w2.keys[e];
  }

  lemma ReceiveSideExtends(w: World, w2: World, x: int, s: Session)
    requires Extends(w, w2) && ReceiveSide(w, x, s)
    ensures ReceiveSide(w2, x, s)
  {
    if x > 0 {
      assert w2.keys[..|w.keys|][x - 1] == w2.keys[x - 1];
    }
    if x >= 2 {
      ChainAtExtends(w, w2, x - 1);
    }
  }

  lemma RetiredSideExtends(w: World, w2: World, x: int, retired: seq<Key32>)
    requires Extends(w, w2) && RetiredSide(w.keys, x, retired)
    ensures RetiredSide(w2.keys, x, retired)
  {
    forall i | 0 <= i < |retired| ensures retired[i] == w2.keys[x - 1 - 2 * (|retired| - i)] {
      var j := x - 1 - 2 * (|retired| - i);
      assert w2.keys[..|w.keys|][j] == w2.keys[j];
    }
  }

  lemma SendSideExtends(w: World, w2: World, x: int, s: Session)
    requires Extends(w, w2) && SendSide(w, x, s) && w2.sent[x] == w.sent[x]
    ensures SendSide(w2, x, s)
  {
    RootAtExtends(w, w2, x);
    assert w2.keys[..|w.keys|][x] == w2.keys[x];
    if x >= 1 {
      ChainAtExtends(w, w2, x);
    }
  }

  lemma PassedExtends(w: World, w2: World, x: int, recvN: nat, id: KeyId)
    requires Extends(w, w2) && x < |w.keys|
    ensures Passed(w2, x, recvN, id) <==> Passed(w, x, recvN, id)
  {
    if id.dh in w.keys {
      IndexExtends(w, w2, id.dh);
    }
  }

  lemma BankRightExtends(w: World, w2: World, q: Queue)
    requires Extends(w, w2) && BankRight(w, q)
    ensures BankRight(w2, q)
  {
    forall i | 0 <= i < |q|
      ensures q[i].id.dh in w2.keys && IndexOf(w2.keys, q[i].id.dh) >= 1
      ensures q[i].key == KeyAt(w2.master, w2.keys, IndexOf(w2.keys, q[i].id.dh), q[i].id.n)
    {
      IndexExtends(w, w2, q[i].id.dh);
      ChainAtExtends(w, w2, IndexOf(w.keys, q[i].id.dh));
    }
  }

  lemma LogRightExtends(w: World, w2: World, log: seq<Delivery>)
    requires Extends(w, w2) && LogRight(w, log)
    ensures LogRight(w2, log)
  {
    forall i | 0 <= i < |log|
      ensures log[i].id.dh in w2.keys
      ensures var e := IndexOf(w2.keys, log[i].id.dh);
              WasSent(w2, e, log[i].id.n) && log[i].text == w2.sent[e][log[i].id.n].text
    {
      IndexExtends(w, w2, log[i].id.dh);
      HonestWireExtends(w, w2, IndexOf(w.keys, log[i].id.dh), log[i].id.n);
    }
  }

  lemma PassedSetExtends(w: World, w2: World, x: int, recvN: nat)
    requires Extends(w, w2) && x < |w.keys|
    ensures PassedSet(w2, x, recvN) == PassedSet(w, x, recvN)
  {
    forall id ensures id in PassedSet(w2, x, recvN) <==> id in PassedSet(w, x, recvN) {
      PassedExtends(w, w2, x, recvN, id);
    }
  }

  lemma LedgerExtends(w: World, w2: World, x: int, peer: Peer)
    requires Extends(w, w2) && x < |w.keys| && Ledger(w, x, peer)
    ensures Ledger(w2, x, peer)
  {
    LogRightExtends(w, w2, peer.log);
    BankRightExtends(w, w2, peer.session.bank);
    PassedSetExtends(w, w2, x, peer.session.recvN);
  }

  /** A side that does nothing keeps its invariant while its own chain does not grow. */
  lemma PeerExtends(w: World, w2: World, x: int, peer: Peer)
    requires Extends(w, w2) && PeerInv(w, x, peer) && w2.sent[x] == w.sent[x]
    ensures PeerInv(w2, x, peer)
  {
    SendSideExtends(w, w2, x, peer.session);
    ReceiveSideExtends(w, w2, x, peer.session);
    RetiredSideExtends(w, w2, x, peer.session.retired);
    LedgerExtends(w, w2, x, peer);
  }

  // ---------- sending ----------

  lemma SendExtends(w: World, w2: World, x: int, note: Note)
    requires Shape(w) && |w.keys| - 2 <= x < |w.keys| && 1 <= x && |w.sent[x]| < U32_MAX
    requires w2.master == w.master && w2.ad == w.ad && w2.keys == w.keys
    requires w2.sent == w.sent[x := w.sent[x] + [note]]
    ensures Extends(w, w2)
  {
  }

  /** The wire that encryption produces is the honest form of the new message. */
  lemma SentWire(w: World, w2: World, x: int, s: Session, note: Note)
    requires SendSideReady(w, x, s) && Extends(w, w2)
    requires w2.keys == w.keys && w2.sent == w.sent[x := w.sent[x] + [note]]
    ensures Encrypt(s, note.text, w.ad, note.nonce).Ok?
    ensures var out := Encrypt(s, note.text, w.ad, note.nonce).value;
            out.wire == HonestWire(w2, x, |w.sent[x]|) && SendSide(w2, x, out.session)
  {
    assert w2.sent[x][|w.sent[x]|] == note;
  }

  ghost predicate SendSideReady(w: World, x: int, s: Session) {
    Shape(w) && 1 <= x < |w.keys| && SendSide(w, x, s) && s.sendN < U32_MAX
  }

  lemma SendNetwork(w: World, w2: World, x: int, note: Note)
    requires Extends(w, w2) && OnlySent(w) && AllSent(w)
    requires 1 <= x < |w.keys| && w2.keys == w.keys && w2.sent == w.sent[x := w.sent[x] + [note]]
    requires |note.nonce| == NONCE_SIZE
    requires w2.network == w.network + {HonestWire(w2, x, |w.sent[x]|)}
    ensures OnlySent(w2) && AllSent(w2)
  {
    forall v | v in w2.network
      ensures exists e: nat, n: nat :: WasSent(w2, e, n) && v == HonestWire(w2, e, n)
    {
      if v in w.network {
        var e: nat, n: nat :| WasSent(w, e, n) && v == HonestWire(w, e, n);
        HonestWireExtends(w, w2, e, n);
      } else {
        assert WasSent(w2, x, |w.sent[x]|);
      }
    }
    forall e: nat, n: nat | WasSent(w2, e, n)
      ensures HonestWire(w2, e, n) in w2.network && |w2.sent[e][n].nonce| == NONCE_SIZE
    {
      if e != x || n < |w.sent[x]| {
        HonestWireExtends(w, w2, e, n);
      }
    }
  }

  lemma Epochs(w: World, p: Party)
    requires |w.keys| >= 2
    ensures 0 <= |w.keys| - 2 <= Epoch(w, p) < |w.keys|
    ensures Epoch(w, Alice) != Epoch(w, Bob)
    ensures Epoch(w, p) % 2 == (if p.Alice? then 1 else 0)
  {
  }

  lemma InvOf(w: World, p: Party)
    requires Inv(w)
    ensures PeerInv(w, Epoch(w, p), PeerOf(w, p))
  {
  }

  function Other(p: Party): Party {
    if p.Alice? then Bob else Alice
  }

  lemma InvFrom(w: World, p: Party)
    requires Shape(w) && OnlySent(w) && AllSent(w)
    requires PeerInv(w, Epoch(w, p), PeerOf(w, p))
    requires PeerInv(w, Epoch(w, Other(p)), PeerOf(w, Other(p)))
    ensures Inv(w)
  {
  }

  /** What a send changes in the world. */
  lemma SendEffect(w: World, p: Party, note: Note, out: Sent)
    requires Encrypt(PeerOf(w, p).session, note.text, w.ad, note.nonce) == Ok(out)
    requires 0 <= Epoch(w, p) < |w.sent|
    ensures var w2, x := DoSend(w, p, note), Epoch(w, p);
            && w2.master == w.master && w2.ad == w.ad && w2.keys == w.keys
            && w2.sent == w.sent[x := w.sent[x] + [note]]
            && w2.network == w.network + {out.wire}
            && PeerOf(w2, p) == PeerOf(w, p).(session := out.session)
            && PeerOf(w2, Other(p)) == PeerOf(w, Other(p))
            && Epoch(w2, p) == x && Epoch(w2, Other(p)) == Epoch(w, Other(p))
  {
  }

  /**
   A send keeps the invariant. A side that has a sending chain adds the note to it and puts
   exactly the honest wire of the new message on the network; one that has none changes nothing.
   */
  lemma SendKeepsInv(w: World, p: Party, note: Note)
    requires Inv(w) && Legal(w, Send(p, note))
    ensures Inv(DoSend(w, p, note))
    ensures var x, w2 := Epoch(w, p), DoSend(w, p, note);
            if x == 0 then w2 == w
            else && 1 <= x < |w.sent| && w2.sent == w.sent[x := w.sent[x] + [note]]
                 && WasSent(w2, x, |w.sent[x]|)
                 && w2.network == w.network + {HonestWire(w2, x, |w.sent[x]|)}
  {
    var x, peer := Epoch(w, p), PeerOf(w, p);
    Epochs(w, p);
    InvOf(w, p);
    InvOf(w, Other(p));
    if x >= 1 {
      SendStep(w, p, note);
    }
  }

  lemma SendStep(w: World, p: Party, note: Note)
    requires Inv(w) && Epoch(w, p) >= 1
    requires SendSideReady(w, Epoch(w, p), PeerOf(w, p).session) && |note.nonce| == NONCE_SIZE
    ensures Inv(DoSend(w, p, note))
    ensures var x, w2 := Epoch(w, p), DoSend(w, p, note);
            && x < |w.sent| && w2.sent == w.sent[x := w.sent[x] + [note]]
            && WasSent(w2, x, |w.sent[x]|)
            && w2.network == w.network + {HonestWire(w2, x, |w.sent[x]|)}
  {
    var x, peer, w2 := Epoch(w, p), PeerOf(w, p), DoSend(w, p, note);
    var out := Encrypt(peer.session, note.text, w.ad, note.nonce).value;
    SendEffect(w, p, note, out);
    Epochs(w, p);
    Epochs(w, Other(p));
    InvOf(w, p);
    InvOf(w, Other(p));
    SendHistory(w, w2, x, note, out, peer.session);
    SentWire(w, w2, x, peer.session, note);
    SendSender(w, w2, x, peer, PeerOf(w2, p));
    PeerExtends(w, w2, Epoch(w, Other(p)), PeerOf(w, Other(p)));
    InvFrom(w2, p);
  }

  lemma SendHistory(w: World, w2: World, x: int, note: Note, out: Sent, s: Session)
    requires SendSideReady(w, x, s) && OnlySent(w) && AllSent(w) && |w.keys| - 2 <= x
    requires w2.master == w.master && w2.ad == w.ad && w2.keys == w.keys
    requires w2.sent == w.sent[x := w.sent[x] + [note]] && w2.network == w.network + {out.wire}
    requires Encrypt(s, note.text, w.ad, note.nonce) == Ok(out) && |note.nonce| == NONCE_SIZE
    ensures Extends(w, w2) && OnlySent(w2) && AllSent(w2) && SendSide(w2, x, out.session)
  {
    SendExtends(w, w2, x, note);
    SentWire(w, w2, x, s, note);
    SendNetwork(w, w2, x, note);
  }

  lemma SendSender(w: World, w2: World, x: int, peer: Peer, peer2: Peer)
    requires Extends(w, w2) && PeerInv(w, x, peer) && SendSide(w2, x, peer2.session)
    requires peer2.log == peer.log && peer2.evicted == peer.evicted
    requires peer2.session == peer.session.(sendCk := peer2.session.sendCk, sendN := peer2.session.sendN)
    ensures PeerInv(w2, x, peer2)
  {
    ReceiveSideExtends(w, w2, x, peer.session);
    RetiredSideExtends(w, w2, x, peer.session.retired);
    LedgerExtends(w, w2, x, peer);
  }
}
