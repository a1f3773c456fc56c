/**
 Bursts between two sides of a running session: what a side that has just stepped its
 ratchet sends on its new chain, delivered to its peer in any order. Whether the order
 matters is told in numbers that the receiver can see.
 */
module BurstRuns {
  import opened Wrappers
  import opened Bytes
  import opened Crypto
  import opened KeyQueue
  import opened SessionSpec
  import opened World
  import opened TwoParty
  import opened Invariant
  import opened Deliveries
  import opened Guarantees
  import opened Burst

  /** The number of keys that stepping to a chain with this `pn` skips over. */
  function Gap(s: Session, pn: U32): nat {
    if s.recvCk.None? || s.dhr.None? || pn <= s.recvN then 0 else pn - s.recvN
  }

  /** The other side is ahead of `p` and has sent nothing on its chain, and the step to it is allowed. */
  ghost predicate BurstDue(w: World, p: Party) {
    var s, t := PeerOf(w, p).session, PeerOf(w, Other(p)).session;
    && Epoch(w, Other(p)) == Epoch(w, p) + 1
    && t.sendN == 0
    && Skip(s, t.prevN).Ok?
  }

  ghost predicate Burstable(notes: seq<Note>) {
    && 0 < |notes| <= MAX_BURST
    && forall i :: 0 <= i < |notes| ==> |notes[i].nonce| == NONCE_SIZE
  }

  lemma ReadyForBurst(w: World, p: Party)
    requires Reachable(w) && BurstDue(w, p)
    ensures var s, t := PeerOf(w, p).session, PeerOf(w, Other(p)).session;
            && CanTurn(s, t.dhs.pub, t.prevN)
            && t.sendCk == Some(ChainFor(s, t.dhs.pub))
            && Fresh(s.bank, SkippedBy(s, t.prevN))
  {
    hide Reachable, Epoch, Skip, Ledger, SendSide, ReceiveSide, RetiredSide, CanTurn, Fresh, SkippedBy, ChainFor;
    ReachableInv(w);
    InvOf(w, p);
    InvOf(w, Other(p));
    ReadyAt(w, Epoch(w, p), PeerOf(w, p), PeerOf(w, Other(p)));
  }

  lemma ReadyAt(w: World, x: int, peer: Peer, other: Peer)
    requires Shape(w) && PeerInv(w, x, peer) && SendSide(w, x + 1, other.session)
    requires other.session.sendN == 0 && Skip(peer.session, other.session.prevN).Ok?
    ensures var s, t := peer.session, other.session;
            && CanTurn(s, t.dhs.pub, t.prevN)
            && t.sendCk == Some(ChainFor(s, t.dhs.pub))
            && Fresh(s.bank, SkippedBy(s, t.prevN))
  {
    hide Skip;
    var s, t := peer.session, other.session;
    NotRetired(w, x, s, x + 1);
    forall i | 0 <= i < |s.bank| ensures s.bank[i].id.dh != t.dhs.pub {
      assert s.bank[i].id in Ids(s.bank);
      BankedIsPeers(w, x, peer, s.bank[i].id);
      IndexIs(w.keys, x + 1);
    }
    assert {w.keys[x], w.keys[x + 1]} == {w.keys[x + 1], w.keys[x]};
    if x >= 2 {
      FreshOnCurrent(w, x, peer, t.prevN);
    }
  }

  /**
   In every reachable world: a burst of up to 1001 messages on the sender's new chain opens
   to its own texts in every order, and the receiver's session afterwards is known exactly.
   */
  lemma BurstArrives(w: World, p: Party, notes: seq<Note>, order: seq<nat>, next: KeyPair)
    requires Reachable(w) && BurstDue(w, p) && Burstable(notes) && IsPermutation(order, |notes|)
    ensures var s, t := PeerOf(w, p).session, PeerOf(w, Other(p)).session;
            var wires, s2 := SendAll(t, notes, w.ad), TurnedTo(s, t.dhs.pub, t.prevN, next);
            var lost := LostFor(|s2.bank|, 0, Peak(order));
            && |wires| == |notes| && lost <= |s2.bank|
            && Outcomes(s, Arranged(wires, order), w.ad, next) == Texts(Arranged(notes, order))
            && ReceiveAll(s, Arranged(wires, order), w.ad, next) == AfterBurst(s2, ChainFor(s, t.dhs.pub), |notes|, lost)
  {
    ReadyForBurst(w, p);
    SentBurstDelivered(PeerOf(w, Other(p)).session, PeerOf(w, p).session, notes, order, w.ad, next);
  }

  lemma TurnedSize(s: Session, dh: Key32, pn: U32, next: KeyPair)
    requires |s.bank| <= MAX_SKIPPED_KEYS && Fresh(s.bank, SkippedBy(s, pn))
    ensures var all := |s.bank| + Gap(s, pn);
            |TurnedTo(s, dh, pn, next).bank| == if all <= MAX_SKIPPED_KEYS then all else MAX_SKIPPED_KEYS
  {
    hide Fresh;
    BankAllFresh(s.bank, SkippedBy(s, pn));
  }

  /**
   In every reachable world: the order in which a burst arrives is immaterial exactly if it is
   a single message or if the keys banked now, those that the step of the ratchet skips over
   and all but one of the burst's have room under the global cap together.
   */
  lemma BurstOrderIffRoom(w: World, p: Party, notes: seq<Note>, next: KeyPair)
    requires Reachable(w) && BurstDue(w, p) && Burstable(notes)
    ensures var s, t := PeerOf(w, p).session, PeerOf(w, Other(p)).session;
            OrderInsensitive(s, SendAll(t, notes, w.ad), w.ad, next) <==>
              |notes| == 1 || |s.bank| + Gap(s, t.prevN) + |notes| - 1 <= 2000
  {
    var s, t := PeerOf(w, p).session, PeerOf(w, Other(p)).session;
    assert t.sendN == 0;
    hide Reachable, BurstDue, OrderInsensitive, TurnedTo;
    ReadyForBurst(w, p);
    SendAllIsBurst(t, notes, w.ad);
    TurnedSize(s, t.dhs.pub, t.prevN, next);
    SameForAllOrdersIffRoom(s, t.dhs.pub, SendAll(t, notes, w.ad), t.prevN, w.ad, notes, next);
  }

  // ---------- a session in which the order matters ----------

  lemma {:induction false} RunAppend(w: World, evs: seq<Event>, ev: Event)
    requires LegalRun(w, evs) && Legal(Run(w, evs), ev)
    ensures LegalRun(w, evs + [ev]) && Run(w, evs + [ev]) == Step(Run(w, evs), ev)
    decreases |evs|
  {
    hide Step, Legal;
    if evs == [] {
      assert [ev][1..] == [];
      assert LegalRun(Step(w, ev), []) && Run(Step(w, ev), []) == Step(w, ev);
      assert evs + [ev] == [ev];
    } else {
      RunAppend(Step(w, evs[0]), evs[1..], ev);
      assert (evs + [ev])[1..] == evs[1..] + [ev];
    }
  }

  lemma ReachesNext(w: World, ev: Event)
    requires Reachable(w) && Legal(w, ev)
    ensures Reachable(Step(w, ev))
  {
    var master, ad, spk, first, evs :|
      && Matching(spk) && Matching(first) && spk.pub != first.pub
      && LegalRun(Start(master, ad, spk, first), evs)
      && w == Run(Start(master, ad, spk, first), evs);
    hide Legal, Step, LegalRun, Run, Start;
    RunAppend(Start(master, ad, spk, first), evs, ev);
  }

  lemma ReachesStart(master: RootKey, ad: Bytes, spk: KeyPair, first: KeyPair)
    requires Matching(spk) && Matching(first) && spk.pub != first.pub
    ensures Reachable(Start(master, ad, spk, first))
  {
    var w := Start(master, ad, spk, first);
    hide Start;
    assert LegalRun(w, []) && w == Run(w, []);
  }

  function Copies(note: Note, k: nat): seq<Note> {
    seq(k, i => note)
  }

  /** A side with a sending chain sends the same note k times. */
  lemma {:induction false} SendMany(w: World, p: Party, note: Note, k: nat) returns (w2: World)
    requires Reachable(w) && |note.nonce| == NONCE_SIZE
    requires 1 <= Epoch(w, p) < |w.sent| && |w.sent[Epoch(w, p)]| + k <= U32_MAX
    ensures Reachable(w2) && w2.keys == w.keys && w2.ad == w.ad
    ensures w2.sent == w.sent[Epoch(w, p) := w.sent[Epoch(w, p)] + Copies(note, k)]
    ensures PeerOf(w2, Other(p)) == PeerOf(w, Other(p))
  {
    if k == 0 {
      w2 := w;
      assert w.sent[Epoch(w, p)] + Copies(note, 0) == w.sent[Epoch(w, p)];
      assert w.sent[Epoch(w, p) := w.sent[Epoch(w, p)]] == w.sent;
    } else {
      var w1 := SendMany(w, p, note, k - 1);
      w2 := SendOne(w1, p, note);
      var x, before := Epoch(w, p), w.sent[Epoch(w, p)];
      assert Copies(note, k) == Copies(note, k - 1) + [note];
      assert before + Copies(note, k) == before + Copies(note, k - 1) + [note];
      assert w1.sent[x] == before + Copies(note, k - 1);
      assert w.sent[x := before + Copies(note, k)] == w1.sent[x := before + Copies(note, k)];
    }
  }

  lemma SendOne(w: World, p: Party, note: Note) returns (w2: World)
    requires Reachable(w) && |note.nonce| == NONCE_SIZE
    requires 1 <= Epoch(w, p) < |w.sent| && |w.sent[Epoch(w, p)]| < U32_MAX
    ensures Reachable(w2) && w2.keys == w.keys && w2.ad == w.ad
    ensures w2.sent == w.sent[Epoch(w, p) := w.sent[Epoch(w, p)] + [note]]
    ensures PeerOf(w2, Other(p)) == PeerOf(w, Other(p))
    ensures var s, s2 := PeerOf(w, p).session, PeerOf(w2, p).session;
            s2 == s.(sendCk := s2.sendCk, sendN := s2.sendN)
  {
    ReachableInv(w);
    InvOf(w, p);
    w2 := Step(w, Send(p, note));
    ReachesNext(w, Send(p, note));
    SendEffect(w, p, note, Encrypt(PeerOf(w, p).session, note.text, w.ad, note.nonce).value);
  }

  /** A message of the next chain opens whenever the gaps allow it. */
  lemma NextDelivers(w: World, p: Party, e: nat, n: U32, next: KeyPair)
    requires Reachable(w) && WasSent(w, e, n) && e == Epoch(w, p) + 1
    requires Matching(next) && next.pub !in w.keys
    requires Shape(w) && GapsAllowed(w, p, e, n)
    ensures Legal(w, Deliver(p, HonestWire(w, e, n), next))
    ensures Decrypt(PeerOf(w, p).session, HonestWire(w, e, n), w.ad, next).Ok?
    ensures KeyId(w.keys[e], n) !in Ids(PeerOf(w, p).session.bank)
    ensures PeerOf(w, p).session.dhr != Some(w.keys[e])
    ensures PeerOf(w, p).session.dhs.pub in w.keys
  {
    hide Decrypt, HonestWire, GapsAllowed, Epoch, Ledger;
    ReachableInv(w);
    InvOf(w, p);
    Epochs(w, p);
    Neighbours(Epoch(w, p));
    Conservation(w, p, e, n);
    DeliversExactly(w, p, e, n, next);
    NotRetired(w, Epoch(w, p), PeerOf(w, p).session, e);
    assert HonestWire(w, e, n) in w.network;
  }

  /** Delivering message `n` of the chain that the receiver has yet to step to. */
  lemma StepDelivered(w: World, p: Party, e: nat, n: U32, next: KeyPair) returns (w2: World)
    requires Reachable(w) && WasSent(w, e, n) && e == Epoch(w, p) + 1 && n < U32_MAX
    requires Matching(next) && next.pub !in w.keys
    requires Shape(w) && GapsAllowed(w, p, e, n)
    ensures Reachable(w2) && w2.keys == w.keys + [next.pub] && w2.sent == w.sent + [[]] && w2.ad == w.ad
    ensures PeerOf(w2, Other(p)) == PeerOf(w, Other(p))
    ensures var s, s2 := PeerOf(w, p).session, PeerOf(w2, p).session;
            && s2.recvN == n + 1 && s2.recvCk.Some? && s2.dhr.Some?
            && s2.bank == BankAll(s.bank, NextBanked(s, PnOf(w, e), n, w.keys[e], next))
  {
    hide Decrypt, HonestWire, GapsAllowed, Epoch, Reachable, NextBanked;
    var wire, s := HonestWire(w, e, n), PeerOf(w, p).session;
    NextDelivers(w, p, e, n, next);
    HonestHeader(w, e, n);
    ReachesNext(w, Deliver(p, wire, next));
    w2 := Step(w, Deliver(p, wire, next));
    NextEffect(PeerOf(w, p), wire, w.keys[e], w.ad, next, Decrypt(s, wire, w.ad, next).value);
  }

  function SampleKey(c: Byte): KeyPair {
    var image: Key32 := seq(32, i => c);
    KeyPair(PrivateKey(image), image)
  }

  lemma SampleKeysDiffer(c: Byte, d: Byte)
    ensures Matching(SampleKey(c))
    ensures SampleKey(c).pub == SampleKey(d).pub ==> c == d
  {
    assert SampleKey(c).pub[0] == c && SampleKey(d).pub[0] == d;
  }

  const SHORT: Note := Note([], seq(NONCE_SIZE, i => 0))

  /** Alice sends 1002 messages, of which Bob receives the second; he holds the first one's key, and 1000 are out. */
  lemma BobOwed() returns (w: World)
    ensures Reachable(w) && w.ad == []
    ensures w.keys == [SampleKey(1).pub, SampleKey(2).pub, SampleKey(3).pub]
    ensures w.sent == [[], Copies(SHORT, 1002), []]
    ensures var s := w.bob.session;
            s.recvN == 2 && s.recvCk.Some? && s.dhr.Some? && |s.bank| == 1
  {
    SampleKeysDiffer(1, 2);
    SampleKeysDiffer(3, 1);
    SampleKeysDiffer(3, 2);
    var w0 := Start(Master([]), [], SampleKey(1), SampleKey(2));
    ReachesStart(Master([]), [], SampleKey(1), SampleKey(2));
    var w1 := SendMany(w0, Alice, SHORT, 1002);
    assert [] + Copies(SHORT, 1002) == Copies(SHORT, 1002);
    assert w1.sent == [[], Copies(SHORT, 1002)];
    assert w1.bob == w0.bob;
    w := AfterFirst(w1);
  }

  lemma AfterFirst(w1: World) returns (w: World)
    requires Reachable(w1) && w1.ad == [] && w1.keys == [SampleKey(1).pub, SampleKey(2).pub]
    requires SampleKey(3).pub !in w1.keys && Matching(SampleKey(3))
    requires w1.sent == [[], Copies(SHORT, 1002)] && w1.bob.session == InitResponder(Master([]), SampleKey(1))
    ensures Reachable(w) && w.ad == [] && w.keys == w1.keys + [SampleKey(3).pub] && w.sent == w1.sent + [[]]
    ensures var s := w.bob.session;
            s.recvN == 2 && s.recvCk.Some? && s.dhr.Some? && |s.bank| == 1
  {
    hide SampleKey;
    ReachableInv(w1);
    w := StepDelivered(w1, Bob, 1, 1, SampleKey(3));
    var d := NextBanked(w1.bob.session, 0, 1, w1.keys[1], SampleKey(3));
    assert |d| == 1;
    BankAllFresh([], d);
  }

  /** Bob replies and Alice steps her ratchet: a burst on her new chain is due. */
  lemma AliceReplies(w: World) returns (w3: World)
    requires Reachable(w) && w.ad == []
    requires w.keys == [SampleKey(1).pub, SampleKey(2).pub, SampleKey(3).pub]
    requires w.sent == [[], Copies(SHORT, 1002), []]
    requires w.bob.session.recvN == 2 && w.bob.session.recvCk.Some?
    ensures Reachable(w3) && BurstDue(w3, Bob)
    ensures w3.keys == w.keys + [SampleKey(4).pub]
    ensures w3.alice.session.prevN == 1002
    ensures var s, s3 := w.bob.session, w3.bob.session;
            s3.recvN == s.recvN && s3.recvCk == s.recvCk && s3.dhr == s.dhr && s3.bank == s.bank
  {
    SampleKeysDiffer(4, 1);
    SampleKeysDiffer(4, 2);
    SampleKeysDiffer(4, 3);
    hide SampleKey, Reachable, Inv;
    var w2 := SendOne(w, Bob, SHORT);
    ReachableInv(w2);
    OneReply(w2);
    w3 := StepDelivered(w2, Alice, 2, 0, SampleKey(4));
    ReachableInv(w3);
    AliceAhead(w3);
  }

  lemma OneReply(w2: World)
    requires Inv(w2) && |w2.keys| == 3 && |w2.sent| == 3 && |w2.sent[2]| == 1
    ensures Shape(w2) && WasSent(w2, 2, 0) && Epoch(w2, Alice) == 1 && GapsAllowed(w2, Alice, 2, 0)
  {
    hide Ledger, HonestWire;
  }

  lemma AliceAhead(w3: World)
    requires Inv(w3) && |w3.keys| == 4 && |w3.sent| == 4 && |w3.sent[1]| == 1002 && w3.sent[3] == []
    requires w3.bob.session.recvN == 2
    ensures BurstDue(w3, Bob) && w3.alice.session.prevN == 1002
  {
    hide Ledger, HonestWire;
    InvOf(w3, Alice);
  }

  /** In some reachable world the order in which a burst arrives decides how many banked keys survive. */
  lemma OrderCanMatter() returns (w: World, notes: seq<Note>, next: KeyPair)
    ensures Reachable(w) && BurstDue(w, Bob) && Burstable(notes)
    ensures Matching(next) && next.pub !in w.keys
    ensures |w.bob.session.bank| == 1 && Gap(w.bob.session, w.alice.session.prevN) == 1000 && |notes| == MAX_BURST
    ensures !OrderInsensitive(w.bob.session, SendAll(w.alice.session, notes, w.ad), w.ad, next)
  {
    var w1 := BobOwed();
    w := AliceReplies(w1);
    notes, next := Copies(SHORT, MAX_BURST), SampleKey(5);
    SampleKeysDiffer(5, 1);
    SampleKeysDiffer(5, 2);
    SampleKeysDiffer(5, 3);
    SampleKeysDiffer(5, 4);
    BurstOrderIffRoom(w, Bob, notes, next);
  }
}
