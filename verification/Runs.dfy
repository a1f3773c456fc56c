/**
 Runs of the session objects themselves: two of them, driven by the events of the two-party
 model, return what the model says and end where it ends, so whatever holds of reachable
 worlds holds of the objects.
 */
module Runs {
  import opened Wrappers
  import opened Bytes
  import opened Crypto
  import opened KeyQueue
  import opened SessionSpec
  import opened SkippedStore
  import opened World
  import opened Guarantees
  import opened Ratchet

  /** What a call returns to its caller. */
  datatype Reply =
    | Wired(wire: Result<Wire, RatchetError>)
    | Read(text: Result<Bytes, RatchetError>)

  function ReplyTo(w: World, ev: Event): Reply {
    match ev
    case Send(p, note) =>
      (match Encrypt(PeerOf(w, p).session, note.text, w.ad, note.nonce)
       case Ok(out) => Wired(Ok(out.wire))
       case Err(e) => Wired(Err(e)))
    case Deliver(p, wire, next) =>
      match Decrypt(PeerOf(w, p).session, wire, w.ad, next)
      case Ok(got) => Read(Ok(got.text))
      case Err(e) => Read(Err(e))
  }

  function Replies(w: World, evs: seq<Event>): seq<Reply>
    decreases |evs|
  {
    if evs == [] then [] else [ReplyTo(w, evs[0])] + Replies(Step(w, evs[0]), evs[1..])
  }

  predicate Refused(r: Reply) {
    r.Read? && r.text.Err?
  }

  /** The replies to all events but the refused deliveries. */
  function Taken(replies: seq<Reply>): seq<Reply> {
    if replies == [] then []
    else if Refused(replies[0]) then Taken(replies[1..])
    else [replies[0]] + Taken(replies[1..])
  }

  /** The objects hold the sessions of the world's two sides. */
  ghost predicate Hold(w: World, alice: RatchetState, bob: RatchetState)
    reads alice, bob
  {
    && alice != bob
    && alice.Valid() && bob.Valid()
    && alice.View() == w.alice.session && bob.View() == w.bob.session
  }

  /** One event: the object concerned makes the model's step; a refused delivery leaves every field of both as it was. */
  method Handle(alice: RatchetState, bob: RatchetState, ghost w: World, ad: Bytes, ev: Event) returns (r: Reply)
    requires Hold(w, alice, bob) && ad == w.ad
    modifies alice, bob
    ensures Hold(Step(w, ev), alice, bob)
    ensures r == ReplyTo(w, ev)
    ensures old(alice.Ordered() && bob.Ordered()) ==> alice.Ordered() && bob.Ordered()
    ensures Refused(r) ==> alice.Saved() == old(alice.Saved()) && bob.Saved() == old(bob.Saved())
  {
    hide SessionSpec.Encrypt, SessionSpec.Decrypt, StoreValid, QueueOf;
    match ev
    case Send(p, note) =>
      var out;
      if p.Alice? {
        out := alice.Encrypt(note.text, ad, note.nonce);
      } else {
        out := bob.Encrypt(note.text, ad, note.nonce);
      }
      r := Wired(out);
    case Deliver(p, wire, next) =>
      var text;
      if p.Alice? {
        text := alice.Decrypt(wire, ad, next);
      } else {
        text := bob.Decrypt(wire, ad, next);
      }
      r := Read(text);
  }

  /** A whole run. */
  method HandleAll(alice: RatchetState, bob: RatchetState, ghost w: World, ad: Bytes, evs: seq<Event>)
    returns (replies: seq<Reply>)
    requires Hold(w, alice, bob) && ad == w.ad
    modifies alice, bob
    ensures Hold(Run(w, evs), alice, bob)
    ensures replies == Replies(w, evs)
    ensures old(alice.Ordered() && bob.Ordered()) ==> alice.Ordered() && bob.Ordered()
  {
    hide Step, ReplyTo, Run, Replies, StoreValid, QueueOf;
    ghost var now := w;
    replies := [];
    assert evs[0..] == evs;
    for i := 0 to |evs|
      invariant Hold(now, alice, bob) && now.ad == ad
      invariant Run(now, evs[i..]) == Run(w, evs)
      invariant replies + Replies(now, evs[i..]) == Replies(w, evs)
      invariant old(alice.Ordered() && bob.Ordered()) ==> alice.Ordered() && bob.Ordered()
    {
      var r := Handle(alice, bob, now, ad, evs[i]);
      OneEvent(now, evs, i);
      StepKeepsAd(now, evs[i]);
      now := Step(now, evs[i]);
      replies := replies + [r];
    }
    assert evs[|evs|..] == [];
    NoEvents(now);
  }

  lemma OneEvent(w: World, evs: seq<Event>, i: nat)
    requires i < |evs|
    ensures Run(w, evs[i..]) == Run(Step(w, evs[i]), evs[i + 1..])
    ensures Replies(w, evs[i..]) == [ReplyTo(w, evs[i])] + Replies(Step(w, evs[i]), evs[i + 1..])
  {
    hide Step, ReplyTo;
    assert evs[i..][1..] == evs[i + 1..];
  }

  lemma NoEvents(w: World)
    ensures Run(w, []) == w && Replies(w, []) == []
  {
  }

  lemma StepKeepsAd(w: World, ev: Event)
    ensures Step(w, ev).ad == w.ad
  {
    hide Encrypt, Decrypt;
  }

  /** A new session of two objects ends in a reachable world, if the run is legal. */
  method FreshRun(master: RootKey, ad: Bytes, spk: KeyPair, first: KeyPair, evs: seq<Event>)
    returns (alice: RatchetState, bob: RatchetState, replies: seq<Reply>)
    requires Matching(spk) && Matching(first) && spk.pub != first.pub
    requires LegalRun(Start(master, ad, spk, first), evs)
    ensures fresh(alice) && fresh(bob)
    ensures alice.Valid() && bob.Valid() && alice.Ordered() && bob.Ordered()
    ensures var w := Run(Start(master, ad, spk, first), evs);
            Reachable(w) && Hold(w, alice, bob)
    ensures replies == Replies(Start(master, ad, spk, first), evs)
  {
    hide LegalRun, Run, Replies, InitInitiator, InitResponder;
    alice := new RatchetState.Initiator(master, spk.pub, first);
    bob := new RatchetState.Responder(master, spk);
    replies := HandleAll(alice, bob, Start(master, ad, spk, first), ad, evs);
  }

  // ---------- refused deliveries ----------

  /** With complete order lists, the abstract session determines every field. */
  lemma FieldsFromView(a: RatchetState, b: RatchetState)
    requires a.Valid() && b.Valid() && a.Ordered() && b.Ordered() && a.View() == b.View()
    ensures a.Saved() == b.Saved()
  {
    hide QueueOf;
    StoreFromQueue(a.skippedKeys, a.skippedKeyOrder, b.skippedKeys, b.skippedKeyOrder);
  }

  lemma StoreFromQueue(m: map<KeyId, MessageKey>, order: seq<KeyId>, m2: map<KeyId, MessageKey>, order2: seq<KeyId>)
    requires StoreValid(m, order) && Members(order) == m.Keys
    requires StoreValid(m2, order2) && Members(order2) == m2.Keys
    requires QueueOf(m, order) == QueueOf(m2, order2)
    ensures m == m2 && order == order2
  {
    CompleteOrder(m, order);
    CompleteOrder(m2, order2);
    hide QueueOf, StoreValid;
    assert order == order2;
    forall id | id in m ensures m[id] == m2[id] {
      assert id in Members(order);
      var i :| 0 <= i < |order| && order[i] == id;
    }
  }

  lemma {:induction false} TakenReplies(w: World, evs: seq<Event>)
    ensures Replies(w, Effective(w, evs)) == Taken(Replies(w, evs))
    decreases |evs|
  {
    if evs != [] {
      var rest := Replies(Step(w, evs[0]), evs[1..]);
      TakenReplies(Step(w, evs[0]), evs[1..]);
      assert Replies(w, evs)[1..] == rest;
      if Refused(ReplyTo(w, evs[0])) {
        assert Step(w, evs[0]) == w;
      }
    }
  }

  /**
   Refused deliveries are invisible over whole runs of the objects, although a delivery may
   bank and evict keys and step the ratchet before it fails. Of two pairs of objects in equal
   states one handles all events, the other only those that the first did not refuse. All
   other replies agree and so do the states, and with complete order lists every field.
   */
  method RefusalsInvisible(
    alice: RatchetState, bob: RatchetState, alice2: RatchetState, bob2: RatchetState,
    ghost w: World, ad: Bytes, evs: seq<Event>, kept: seq<Event>) returns (replies: seq<Reply>, replies2: seq<Reply>)
    requires {alice, bob} !! {alice2, bob2} && ad == w.ad
    requires Hold(w, alice, bob) && Hold(w, alice2, bob2)
    requires kept == Effective(w, evs)
    modifies alice, bob, alice2, bob2
    ensures replies == Replies(w, evs) && replies2 == Taken(replies)
    ensures old(alice.Ordered() && bob.Ordered() && alice2.Ordered() && bob2.Ordered()) ==>
              alice2.Saved() == alice.Saved() && bob2.Saved() == bob.Saved()
    ensures Hold(Run(w, evs), alice, bob) && Hold(Run(w, evs), alice2, bob2)
  {
    hide Run, Effective, Replies, Taken, StoreValid, QueueOf;
    replies := HandleAll(alice, bob, w, ad, evs);
    replies2 := HandleAll(alice2, bob2, w, ad, kept);
    RejectsInvisible(w, evs);
    TakenReplies(w, evs);
    if alice.Ordered() && bob.Ordered() && alice2.Ordered() && bob2.Ordered() {
      FieldsFromView(alice, alice2);
      FieldsFromView(bob, bob2);
    }
  }
}
