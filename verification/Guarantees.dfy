/** What the two-party invariant gives the users of a session, in every reachable world. */
module Guarantees {
  import opened Wrappers
  import opened Bytes
  import opened Crypto
  import opened KeyQueue
  import opened SessionSpec
  import opened SessionLaws
  import opened World
  import opened TwoParty
  import opened Invariant
  import opened Deliveries

  /** Worlds that some run of sends and deliveries leads to from a fresh session. */
  ghost predicate Reachable(w: World) {
    exists master, ad, spk, first, evs ::
      && Matching(spk) && Matching(first) && spk.pub != first.pub
      && LegalRun(Start(master, ad, spk, first), evs)
      && w == Run(Start(master, ad, spk, first), evs)
  }

  lemma ReachableInv(w: World)
    requires Reachable(w)
    ensures Inv(w)
  {
    var master, ad, spk, first, evs :|
      && Matching(spk) && Matching(first) && spk.pub != first.pub
      && LegalRun(Start(master, ad, spk, first), evs)
      && w == Run(Start(master, ad, spk, first), evs);
    StartHasInv(master, ad, spk, first);
    RunKeepsInv(Start(master, ad, spk, first), evs);
  }

  // ---------- agreement ----------

  /**
   The side ahead derived its root key from the other's by one exchange, receives on the
   other's open chain, and its receiving chain key, brought forward by the number of
   outstanding messages, is the other's sending chain key.
   */
  ghost predicate InStep(ahead: Session, behind: Session) {
    && ahead.dhr == Some(behind.dhs.pub)
    && ahead.root == NextRoot(behind.root, DeriveShared(ahead.dhs.priv, behind.dhs.pub))
    && (behind.sendCk.Some? ==>
          && ahead.recvCk.Some?
          && ahead.recvN <= behind.sendN
          && behind.sendCk == Some(Advance(ahead.recvCk.value, behind.sendN - ahead.recvN)))
  }

  /** A side's keys as the schedule has them for its epoch: root, sending chain and receiving chain. */
  ghost predicate OnSchedule(w: World, x: int, s: Session) {
    && 0 <= x < |w.keys|
    && s.dhs.pub == w.keys[x]
    && s.root == RootAt(w.master, w.keys, x)
    && s.sendCk == (if x == 0 then None else Some(Advance(ChainAt(w.master, w.keys, x), s.sendN)))
    && s.recvCk == (if x < 2 then None else Some(Advance(ChainAt(w.master, w.keys, x - 1), s.recvN)))
  }

  /**
   In every reachable world the sides' ratchet keys leapfrog by exactly one, and each side's
   root, sending and receiving key is the scheduled one of its epoch.
   */
  lemma SidesAgree(w: World)
    requires Reachable(w)
    ensures var a, b := Epoch(w, Alice), Epoch(w, Bob);
            || (a == b + 1 && InStep(w.alice.session, w.bob.session))
            || (b == a + 1 && InStep(w.bob.session, w.alice.session))
    ensures OnSchedule(w, Epoch(w, Alice), w.alice.session) && OnSchedule(w, Epoch(w, Bob), w.bob.session)
  {
    hide Epoch, RootAt, InStep, OnSchedule;
    ReachableInv(w);
    var a, b := Epoch(w, Alice), Epoch(w, Bob);
    Epochs(w, Alice);
    Epochs(w, Bob);
    KeysOnSchedule(w, a, w.alice.session);
    KeysOnSchedule(w, b, w.bob.session);
    if a > b {
      AgreeAhead(w, a, w.alice.session, w.bob.session);
    } else {
      AgreeAhead(w, b, w.bob.session, w.alice.session);
    }
  }

  lemma KeysOnSchedule(w: World, x: int, s: Session)
    requires Shape(w) && SendSide(w, x, s) && ReceiveSide(w, x, s)
    ensures OnSchedule(w, x, s)
  {
  }

  lemma AgreeAhead(w: World, x: int, s: Session, t: Session)
    requires Shape(w) && x >= 1 && SendSide(w, x, s) && ReceiveSide(w, x, s) && SendSide(w, x - 1, t)
    ensures InStep(s, t)
  {
    if x >= 2 {
      AdvanceAdds(ChainAt(w.master, w.keys, x - 1), s.recvN, t.sendN - s.recvN);
    }
  }

  // ---------- conservation ----------

  /** The receiver has yet to reach this message number. */
  ghost predicate Ahead(w: World, p: Party, e: int, n: int) {
    var x := Epoch(w, p);
    (e == x - 1 && n >= PeerOf(w, p).session.recvN) || e == x + 1
  }

  function Tally(b: bool): nat {
    if b then 1 else 0
  }

  /** Chain `e` carries messages to `p`. */
  ghost predicate Addressed(w: World, p: Party, e: int) {
    e % 2 != Epoch(w, p) % 2
  }

  lemma AheadOrPassed(w: World, p: Party, e: nat, n: U32)
    requires Inv(w) && WasSent(w, e, n) && Addressed(w, p, e)
    ensures Ahead(w, p, e, n) <==> !Passed(w, Epoch(w, p), PeerOf(w, p).session.recvN, KeyId(w.keys[e], n))
  {
    var x := Epoch(w, p);
    IndexIs(w.keys, e);
    Epochs(w, p);
    Epochs(w, Other(p));
    ParitySplit(x, e);
  }

  lemma ParitySplit(x: int, e: int)
    requires e % 2 != x % 2
    ensures e < x - 1 || e == x - 1 || e == x + 1 || e > x + 2
  {
  }

  /**
   Conservation: every message ever sent is, on the receiving side, in exactly one
   class: accepted, its key banked, its key evicted by the cap, or still ahead.
   */
  lemma Conservation(w: World, p: Party, e: nat, n: U32)
    requires Reachable(w) && WasSent(w, e, n) && Addressed(w, p, e)
    ensures var peer, id := PeerOf(w, p), KeyId(w.keys[e], n);
            Tally(id in LogIds(peer.log)) + Tally(id in Ids(peer.session.bank))
            + Tally(id in peer.evicted) + Tally(Ahead(w, p, e, n)) == 1
  {
    ReachableInv(w);
    InvOf(w, p);
    AheadOrPassed(w, p, e, n);
    var peer, id := PeerOf(w, p), KeyId(w.keys[e], n);
    assert id in PassedSet(w, Epoch(w, p), peer.session.recvN) <==> !Ahead(w, p, e, n);
  }

  /** Nothing is accepted, banked or evicted but messages that the peer sent. */
  lemma NothingInvented(w: World, p: Party, id: KeyId)
    requires Reachable(w)
    requires id in LogIds(PeerOf(w, p).log) || id in Ids(PeerOf(w, p).session.bank) || id in PeerOf(w, p).evicted
    ensures id.dh in w.keys
    ensures var e := IndexOf(w.keys, id.dh); WasSent(w, e, id.n) && Addressed(w, p, e)
  {
    ReachableInv(w);
    InvOf(w, p);
    var x := Epoch(w, p);
    assert id in PassedSet(w, x, PeerOf(w, p).session.recvN);
    Epochs(w, p);
    PassedWasSent(w, x, PeerOf(w, p).session, id);
  }

  lemma PassedWasSent(w: World, x: int, s: Session, id: KeyId)
    requires Shape(w) && ReceiveSide(w, x, s) && Passed(w, x, s.recvN, id)
    ensures WasSent(w, IndexOf(w.keys, id.dh), id.n)
  {
  }

  // ---------- what is accepted ----------

  /**
   Whatever a delivery accepts is a message the peer sent to this side, with its header,
   nonce and ciphertext unchanged, and it yields the text that was encrypted: reflected,
   re-addressed, renumbered or otherwise altered messages are all refused.
   */
  lemma OnlyGenuineAccepted(w: World, p: Party, wire: Wire, next: KeyPair) returns (e: nat, n: nat)
    requires Reachable(w) && Legal(w, Deliver(p, wire, next))
    requires Decrypt(PeerOf(w, p).session, wire, w.ad, next).Ok?
    ensures Genuine(w, wire, Decrypt(PeerOf(w, p).session, wire, w.ad, next).value.text, e, n)
    ensures Addressed(w, p, e)
  {
    ReachableInv(w);
    InvOf(w, p);
    Epochs(w, p);
    var route;
    e, n, route := Authentic(w, Epoch(w, p), PeerOf(w, p), wire, next);
  }

  /** A ciphertext under a key that is not of this session is refused, whatever its header. */
  lemma ForeignRefused(w: World, p: Party, wire: Wire, next: KeyPair)
    requires Reachable(w) && Matching(next) && next.pub !in w.keys
    requires wire.body.Some? && (wire.body.value.Sealed? ==> Foreign(w, wire.body.value.key))
    ensures Decrypt(PeerOf(w, p).session, wire, w.ad, next).Err?
  {
    if Decrypt(PeerOf(w, p).session, wire, w.ad, next).Ok? {
      var e, n := OnlyGenuineAccepted(w, p, wire, next);
      NotForeign(w, e - 1, Shared({w.keys[e], w.keys[e - 1]}), n);
    }
  }

  /** The gaps a delivery may jump: at most 1000 numbers on each chain it moves along. */
  ghost predicate GapsAllowed(w: World, p: Party, e: int, n: int)
    requires Shape(w)
  {
    var x, s := Epoch(w, p), PeerOf(w, p).session;
    && (e == x - 1 ==> n <= s.recvN + 1000)
    && (e == x + 1 ==> n <= 1000 && (2 <= x <= |w.sent| ==> |w.sent[x - 1]| <= s.recvN + 1000))
  }

  lemma HonestHeader(w: World, e: nat, n: U32)
    requires Shape(w) && WasSent(w, e, n)
    ensures var wire := HonestWire(w, e, n);
            wire.dhPub == Some(w.keys[e]) && wire.n == n && wire.pn == PnOf(w, e)
  {
  }

  /** An honest wire opens under its key. */
  lemma HonestOpens(w: World, e: nat, n: U32)
    requires Shape(w) && WasSent(w, e, n) && |w.sent[e][n].nonce| == NONCE_SIZE
    ensures OpenWire(KeyAt(w.master, w.keys, e, n), HonestWire(w, e, n), w.keys[e], w.ad).Ok?
  {
  }

  /** A banked message opens, whatever the gaps. */
  lemma BankedOpens(w: World, x: int, peer: Peer, e: nat, n: U32, next: KeyPair)
    requires Shape(w) && Ledger(w, x, peer) && WasSent(w, e, n) && |w.sent[e][n].nonce| == NONCE_SIZE
    requires KeyId(w.keys[e], n) in Ids(peer.session.bank)
    ensures Decrypt(peer.session, HonestWire(w, e, n), w.ad, next).Ok?
  {
    var id := KeyId(w.keys[e], n);
    FindSound(peer.session.bank, id);
    hide HonestWire, OpenWire, FromAhead;
    HonestHeader(w, e, n);
    HonestOpens(w, e, n);
    IndexIs(w.keys, e);
    var i :| 0 <= i < |peer.session.bank| && peer.session.bank[i] == Entry(id, Find(peer.session.bank, id).value);
  }

  lemma CurrentOpens(w: World, x: int, s: Session, e: nat, n: U32, next: KeyPair)
    requires Shape(w) && ReceiveSide(w, x, s) && WasSent(w, e, n) && |w.sent[e][n].nonce| == NONCE_SIZE
    requires KeyId(w.keys[e], n) !in Ids(s.bank) && w.keys[e] !in s.retired
    requires e == x - 1 && s.recvN <= n
    ensures Decrypt(s, HonestWire(w, e, n), w.ad, next).Ok? <==> n <= s.recvN + MAX_SKIP
  {
    hide HonestWire, OpenWire;
    HonestHeader(w, e, n);
    HonestOpens(w, e, n);
    FindSound(s.bank, KeyId(w.keys[e], n));
    CurrentKey(w, x, s, n);
    if n <= s.recvN + MAX_SKIP {
      assert Skip(s, n) == Ok(SkipTo(s, n));
    }
  }

  lemma NextOpens(w: World, x: int, s: Session, e: nat, n: U32, next: KeyPair)
    requires Shape(w) && SendSide(w, x, s) && ReceiveSide(w, x, s)
    requires WasSent(w, e, n) && |w.sent[e][n].nonce| == NONCE_SIZE
    requires KeyId(w.keys[e], n) !in Ids(s.bank) && w.keys[e] !in s.retired && s.dhr != Some(w.keys[e])
    requires e == x + 1
    ensures Decrypt(s, HonestWire(w, e, n), w.ad, next).Ok? <==>
            n <= MAX_SKIP && (x >= 2 ==> |w.sent[x - 1]| <= s.recvN + MAX_SKIP)
  {
    NextTurn(w, x, s, next);
    HonestHeader(w, e, n);
    HonestOpens(w, e, n);
    hide HonestWire, OpenWire, SendSide, ReceiveSide, ChainAt, Turn;
    FindSound(s.bank, KeyId(w.keys[e], n));
    var pn := PnOf(w, e);
    if Skip(s, pn).Ok? && n <= MAX_SKIP {
      var s2 := Turn(s, w.keys[e], pn, next).value;
      assert Skip(s2, n) == Ok(SkipTo(s2, n));
      assert SkipTo(s2, n).recvCk == Some(Advance(ChainAt(w.master, w.keys, e), n));
    }
  }

  /** Whether a side can turn to the next chain, and where that leaves it. */
  lemma NextTurn(w: World, x: int, s: Session, next: KeyPair)
    requires Shape(w) && SendSide(w, x, s) && ReceiveSide(w, x, s) && x + 1 < |w.keys| && s.dhr != Some(w.keys[x + 1])
    ensures var pn, turned := PnOf(w, x + 1), Turn(s, w.keys[x + 1], PnOf(w, x + 1), next);
            && (Skip(s, pn).Ok? <==> (x >= 2 ==> |w.sent[x - 1]| <= s.recvN + MAX_SKIP))
            && (turned.Ok? <==> Skip(s, pn).Ok?)
            && (turned.Ok? ==> && turned.value.recvCk == Some(ChainAt(w.master, w.keys, x + 1))
                               && turned.value.recvN == 0
                               && turned.value.dhr == Some(w.keys[x + 1]))
  {
    assert {w.keys[x], w.keys[x + 1]} == {w.keys[x + 1], w.keys[x]};
  }

  lemma AheadOpens(w: World, p: Party, e: nat, n: U32, next: KeyPair)
    requires Inv(w) && WasSent(w, e, n) && Addressed(w, p, e) && Ahead(w, p, e, n)
    requires KeyId(w.keys[e], n) !in Ids(PeerOf(w, p).session.bank)
    ensures Decrypt(PeerOf(w, p).session, HonestWire(w, e, n), w.ad, next).Ok? <==> GapsAllowed(w, p, e, n)
  {
    hide Decrypt, HonestWire, Epoch, SendSide, RetiredSide, Ledger, PassedSet;
    var x, s := Epoch(w, p), PeerOf(w, p).session;
    Epochs(w, p);
    InvOf(w, p);
    NotRetired(w, x, s, e);
    if e == x - 1 {
      if x >= 2 {
        CurrentOpens(w, x, s, e, n, next);
      }
    } else {
      NextOpens(w, x, s, e, n, next);
    }
  }

  lemma NotRetired(w: World, x: int, s: Session, e: nat)
    requires Shape(w) && RetiredSide(w.keys, x, s.retired) && ReceiveSide(w, x, s)
    requires x - 1 <= e < |w.keys|
    ensures w.keys[e] !in s.retired
    ensures e != x - 1 ==> s.dhr != Some(w.keys[e])
  {
  }

  /**
   Delivery: in every reachable world, handing a side a message its peer sent succeeds
   exactly when the message was not accepted before, its key was not evicted by the cap,
   and its key is banked or the jumps to it are at most 1000 numbers each. What it yields
   is the text that was encrypted.
   */
  lemma DeliversExactly(w: World, p: Party, e: nat, n: U32, next: KeyPair)
    requires Reachable(w) && WasSent(w, e, n) && Addressed(w, p, e)
    requires Matching(next) && next.pub !in w.keys
    ensures Shape(w)
    ensures var peer, id := PeerOf(w, p), KeyId(w.keys[e], n);
            var result := Decrypt(peer.session, HonestWire(w, e, n), w.ad, next);
            && (result.Ok? <==> && id !in LogIds(peer.log)
                                && id !in peer.evicted
                                && (id in Ids(peer.session.bank) || GapsAllowed(w, p, e, n)))
            && (result.Ok? ==> result.value.text == w.sent[e][n].text)
  {
    ReachableInv(w);
    var peer, id := PeerOf(w, p), KeyId(w.keys[e], n);
    Conservation(w, p, e, n);
    InvOf(w, p);
    assert HonestWire(w, e, n) in w.network && |w.sent[e][n].nonce| == NONCE_SIZE;
    if id in Ids(peer.session.bank) {
      BankedOpens(w, Epoch(w, p), peer, e, n, next);
    } else if Ahead(w, p, e, n) {
      AheadOpens(w, p, e, n, next);
    } else if Decrypt(peer.session, HonestWire(w, e, n), w.ad, next).Ok? {
      AcceptedNotBehind(w, p, e, n, next);
    }
    if Decrypt(peer.session, HonestWire(w, e, n), w.ad, next).Ok? {
      TextOfSlot(w, p, e, n, next);
    }
  }

  /** A delivery that succeeds came from the bank or from ahead. */
  lemma AcceptedNotBehind(w: World, p: Party, e: nat, n: U32, next: KeyPair)
    requires Inv(w) && WasSent(w, e, n) && HonestWire(w, e, n) in w.network
    requires Decrypt(PeerOf(w, p).session, HonestWire(w, e, n), w.ad, next).Ok?
    ensures KeyId(w.keys[e], n) in Ids(PeerOf(w, p).session.bank) || Ahead(w, p, e, n)
  {
    InvOf(w, p);
    Epochs(w, p);
    var e2, n2, route := Authentic(w, Epoch(w, p), PeerOf(w, p), HonestWire(w, e, n), next);
    IndexIs(w.keys, e);
    IndexIs(w.keys, e2);
  }

  lemma TextOfSlot(w: World, p: Party, e: nat, n: U32, next: KeyPair)
    requires Inv(w) && WasSent(w, e, n) && HonestWire(w, e, n) in w.network
    requires Decrypt(PeerOf(w, p).session, HonestWire(w, e, n), w.ad, next).Ok?
    ensures Decrypt(PeerOf(w, p).session, HonestWire(w, e, n), w.ad, next).value.text == w.sent[e][n].text
  {
    InvOf(w, p);
    Epochs(w, p);
    var e2, n2, route := Authentic(w, Epoch(w, p), PeerOf(w, p), HonestWire(w, e, n), next);
    IndexIs(w.keys, e);
    IndexIs(w.keys, e2);
  }

  // ---------- at most once ----------

  /** Over any run no message is accepted twice, and each yielded the text sent. */
  lemma AtMostOnce(w: World, p: Party, i: nat, j: nat)
    requires Reachable(w) && i < |PeerOf(w, p).log| && j < |PeerOf(w, p).log|
    requires PeerOf(w, p).log[i].id == PeerOf(w, p).log[j].id
    ensures i == j
    ensures Shape(w)
    ensures var d := PeerOf(w, p).log[i];
            && d.id.dh in w.keys
            && var e := IndexOf(w.keys, d.id.dh);
               WasSent(w, e, d.id.n) && d.text == w.sent[e][d.id.n].text
  {
    ReachableInv(w);
    InvOf(w, p);
    assert LogRight(w, PeerOf(w, p).log);
  }

  /** The receiver has already used, or lost, the message's key. */
  ghost predicate Spent(w: World, p: Party, id: KeyId) {
    id in LogIds(PeerOf(w, p).log) || id in PeerOf(w, p).evicted
  }

  /** Redelivering an accepted message is refused and changes nothing. */
  lemma RedeliveryRefused(w: World, p: Party, e: nat, n: U32, next: KeyPair)
    requires Reachable(w) && WasSent(w, e, n) && Addressed(w, p, e)
    requires Matching(next) && next.pub !in w.keys
    requires Spent(w, p, KeyId(w.keys[e], n))
    ensures Shape(w) && Step(w, Deliver(p, HonestWire(w, e, n), next)) == w
  {
    DeliversExactly(w, p, e, n, next);
  }

  /**
   Specifically, it is refused as a replay while its chain is the current one or one of
   the 8 latest before it: successive chains from one peer are two epochs apart.
   */
  lemma RedeliveryIsReplay(w: World, p: Party, e: nat, n: U32, next: KeyPair)
    requires Reachable(w) && WasSent(w, e, n) && Addressed(w, p, e)
    requires Spent(w, p, KeyId(w.keys[e], n))
    requires Epoch(w, p) - 1 - e <= 16
    ensures Shape(w) && Decrypt(PeerOf(w, p).session, HonestWire(w, e, n), w.ad, next) == Err(Replay(n))
  {
    ReachableInv(w);
    InvOf(w, p);
    var x, peer, id := Epoch(w, p), PeerOf(w, p), KeyId(w.keys[e], n);
    Conservation(w, p, e, n);
    AheadOrPassed(w, p, e, n);
    IndexIs(w.keys, e);
    BehindIsReplay(w, x, peer.session, e, n, next);
  }

  lemma BehindIsReplay(w: World, x: int, s: Session, e: nat, n: U32, next: KeyPair)
    requires Shape(w) && ReceiveSide(w, x, s) && RetiredSide(w.keys, x, s.retired) && WasSent(w, e, n)
    requires KeyId(w.keys[e], n) !in Ids(s.bank)
    requires e < x && e % 2 != x % 2 && x - 1 - e <= 16
    requires e == x - 1 ==> n < s.recvN
    ensures Decrypt(s, HonestWire(w, e, n), w.ad, next) == Err(Replay(n))
  {
    hide HonestWire, FromAhead, RetiredSide, OpenWire, Advance, ChainAt;
    HonestHeader(w, e, n);
    FindSound(s.bank, KeyId(w.keys[e], n));
    UsedOrRetired(w, x, s, e, n);
    hide ReceiveSide, Shape, WasSent, IsReplay;
  }

  lemma UsedOrRetired(w: World, x: int, s: Session, e: nat, n: U32)
    requires Shape(w) && ReceiveSide(w, x, s) && RetiredSide(w.keys, x, s.retired)
    requires e < x && e % 2 != x % 2 && x - 1 - e <= 16
    requires e == x - 1 ==> n < s.recvN
    ensures IsReplay(s, w.keys[e], n)
  {
    hide RetiredSide;
    if e != x - 1 {
      RecentlyRetired(w, x, s, e);
    }
  }

  lemma RecentlyRetired(w: World, x: int, s: Session, e: nat)
    requires Shape(w) && RetiredSide(w.keys, x, s.retired)
    requires e < x - 1 && e % 2 != x % 2 && x - 1 - e <= 16
    ensures w.keys[e] in s.retired
  {
    var k := (x - 1 - e) / 2;
    assert x - 1 - e == 2 * k;
    assert 1 <= k <= |s.retired|;
    assert s.retired[|s.retired| - k] == w.keys[x - 1 - 2 * k];
  }

  // ---------- rejected deliveries ----------

  /** The events of a run that were not refused. */
  function Effective(w: World, evs: seq<Event>): seq<Event>
    decreases |evs|
  {
    if evs == [] then []
    else
      var ev, rest := evs[0], Effective(Step(w, evs[0]), evs[1..]);
      if ev.Deliver? && Decrypt(PeerOf(w, ev.to).session, ev.wire, w.ad, ev.next).Err? then rest
      else [ev] + rest
  }

  /**
   Rejected deliveries leave no trace: a run and the run without them end in the same
   world, although a delivery may have banked, evicted and stepped before it failed.
   */
  lemma {:induction false} RejectsInvisible(w: World, evs: seq<Event>)
    ensures Run(w, Effective(w, evs)) == Run(w, evs)
    ensures LegalRun(w, evs) ==> LegalRun(w, Effective(w, evs))
    decreases |evs|
  {
    if evs != [] {
      RejectsInvisible(Step(w, evs[0]), evs[1..]);
    }
  }

  // ---------- newly banked keys ----------

  lemma SkippedOnNext(s: Session, wire: Wire, dh: Key32, next: KeyPair)
    requires s.dhr != Some(dh)
    ensures NewlyBanked(s, wire, dh, next) == NextBanked(s, wire.pn, wire.n, dh, next)
  {
    var a, b := DhStep(SkipTo(s, wire.pn), dh, next), DhStep(s, dh, next);
    assert a.recvCk == b.recvCk && a.dhr == b.dhr && a.recvN == b.recvN;
  }

  lemma FreshOnRoute(w: World, x: int, peer: Peer, wire: Wire, dh: Key32, next: KeyPair, text: Bytes, e: nat, n: U32, route: Route)
    requires Shape(w) && PeerInv(w, x, peer) && |w.keys| - 2 <= x && next.pub !in w.keys && Matching(next)
    requires Genuine(w, wire, text, e, n) && wire.dhPub == Some(dh)
    requires Routed(w, x, peer.session, e, n, route) && !route.Banked?
    ensures Fresh(peer.session.bank, NewlyBanked(peer.session, wire, dh, next))
    ensures !IsReplay(peer.session, dh, wire.n)
  {
    hide Fresh, Ledger, SendSide, SkippedBy, DhStep, KeyAt, NextBanked;
    GenuineHeader(w, wire, text, e, n);
    NotRetired(w, x, peer.session, e);
    if route.Current? {
      FreshOnCurrent(w, x, peer, n);
    } else {
      SkippedOnNext(peer.session, wire, dh, next);
      FreshOnNext(w, x, peer, next, n);
    }
  }

  /**
   In every reachable world the keys that an accepted delivery derives and banks are new, so
   it evicts none of them: they stand at the end of the store, in order.
   */
  lemma OwnKeysKept(w: World, p: Party, wire: Wire, dh: Key32, next: KeyPair)
    requires Reachable(w) && Legal(w, Deliver(p, wire, next)) && wire.dhPub == Some(dh)
    requires Decrypt(PeerOf(w, p).session, wire, w.ad, next).Ok?
    requires KeyId(dh, wire.n) !in Ids(PeerOf(w, p).session.bank)
    ensures var s := PeerOf(w, p).session;
            var own, bank := NewlyBanked(s, wire, dh, next), Decrypt(s, wire, w.ad, next).value.session.bank;
            Fresh(s.bank, own) && |own| <= |bank| && bank[|bank| - |own|..] == own
  {
    hide Fresh, IsReplay, NewlyBanked, HonestWire, Reachable, PeerInv, DecryptKeyed;
    var x, peer := Epoch(w, p), PeerOf(w, p);
    var s := peer.session;
    ReachableInv(w);
    InvOf(w, p);
    Epochs(w, p);
    var e, n, route := Authentic(w, x, peer, wire, next);
    var text := Decrypt(s, wire, w.ad, next).value.text;
    GenuineHeader(w, wire, text, e, n);
    FreshOnRoute(w, x, peer, wire, dh, next, text, e, n, route);
    FindSound(s.bank, KeyId(dh, wire.n));
    OwnKeysSurvive(s, wire, dh, w.ad, next);
  }

  /**
   The cap is the only cause of loss, delivery by delivery. One that uses a banked key takes
   out that key and no other; any other leaves the newest 2000 of the keys banked before and
   its own, and what was lost are the oldest above that number.
   */
  lemma EvictedOnlyByCap(w: World, p: Party, wire: Wire, dh: Key32, next: KeyPair)
    requires Reachable(w) && Legal(w, Deliver(p, wire, next)) && wire.dhPub == Some(dh)
    requires Decrypt(PeerOf(w, p).session, wire, w.ad, next).Ok?
    ensures var s := PeerOf(w, p).session;
            var s2 := Decrypt(s, wire, w.ad, next).value.session;
            var before, own := s.bank, NewlyBanked(s, wire, dh, next);
            if KeyId(dh, wire.n) in Ids(before)
            then s2.bank == Without(before, KeyId(dh, wire.n))
            else && DistinctIds(before + own) && s2.bank == Newest(before + own)
                 && Ids(before) + Ids(own) - Ids(s2.bank) == Ids(Overflow(before + own))
  {
    hide Reachable, Legal, NewlyBanked;
    var s := PeerOf(w, p).session;
    FindSound(s.bank, KeyId(dh, wire.n));
    if KeyId(dh, wire.n) !in Ids(s.bank) {
      OwnKeysKept(w, p, wire, dh, next);
      BankIsNewest(w, p, wire, dh, next);
      hide Decrypt;
      ConcatDistinct(s.bank, NewlyBanked(s, wire, dh, next));
      NewestSplits(s.bank + NewlyBanked(s, wire, dh, next));
      IdsConcat(s.bank, NewlyBanked(s, wire, dh, next));
    }
  }

  lemma BankIsNewest(w: World, p: Party, wire: Wire, dh: Key32, next: KeyPair)
    requires Reachable(w) && wire.dhPub == Some(dh)
    requires Decrypt(PeerOf(w, p).session, wire, w.ad, next).Ok?
    requires KeyId(dh, wire.n) !in Ids(PeerOf(w, p).session.bank)
    requires Fresh(PeerOf(w, p).session.bank, NewlyBanked(PeerOf(w, p).session, wire, dh, next))
    ensures DistinctIds(PeerOf(w, p).session.bank)
    ensures var s := PeerOf(w, p).session;
            Decrypt(s, wire, w.ad, next).value.session.bank == Newest(s.bank + NewlyBanked(s, wire, dh, next))
  {
    hide Reachable, Fresh, NewlyBanked, Ledger, SendSide, ReceiveSide;
    var s := PeerOf(w, p).session;
    ReachableInv(w);
    InvOf(w, p);
    LedgerBank(w, Epoch(w, p), PeerOf(w, p));
    FindSound(s.bank, KeyId(dh, wire.n));
    BankAllFresh(s.bank, NewlyBanked(s, wire, dh, next));
    if s.dhr == Some(dh) {
      CurrentChain(s, wire, dh, w.ad, next);
    } else {
      NextChainOpened(s, wire, dh, w.ad, next);
    }
  }
}
