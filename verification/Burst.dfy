/**
 A burst of messages on one fresh chain, delivered in any order: every message opens,
 and which state is left behind.
 */
module Burst {
  import opened Wrappers
  import opened Bytes
  import opened Crypto
  import opened KeyQueue
  import opened SessionSpec
  import opened SessionLaws
  import opened World

  /** The longest burst whose every order is within the skip limit. */
  const MAX_BURST: nat := MAX_SKIP + 1

  // ---------- sending a burst ----------

  function SenderAfter(t: Session, notes: seq<Note>, ad: Bytes): Session {
    if notes == [] then t
    else
      var before := SenderAfter(t, notes[..|notes| - 1], ad);
      match Encrypt(before, notes[|notes| - 1].text, ad, notes[|notes| - 1].nonce)
      case Ok(out) => out.session
      case Err(_) => before
  }

  /** The wires that encrypting the notes in order produces. */
  function SendAll(t: Session, notes: seq<Note>, ad: Bytes): seq<Wire> {
    if notes == [] then []
    else
      var before, last := notes[..|notes| - 1], notes[|notes| - 1];
      match Encrypt(SenderAfter(t, before, ad), last.text, ad, last.nonce)
      case Ok(out) => SendAll(t, before, ad) + [out.wire]
      case Err(_) => SendAll(t, before, ad)
  }

  /** Message `n` of the chain that starts at `chain` under the key `dh`. */
  function ChainWire(dh: Key32, pn: U32, chain: ChainKey, ad: Bytes, n: U32, note: Note): Wire {
    Wire(Some(dh), pn, n, Some(note.nonce),
         Some(Sealed(MessageKeyOf(Advance(chain, n)), note.nonce, note.text, ad + EncodeHeader(dh, pn, n))))
  }

  ghost predicate IsBurst(wires: seq<Wire>, dh: Key32, pn: U32, chain: ChainKey, ad: Bytes, notes: seq<Note>) {
    && |wires| == |notes| <= MAX_BURST
    && (forall i :: 0 <= i < |wires| ==> wires[i] == ChainWire(dh, pn, chain, ad, i, notes[i]))
    && (forall i :: 0 <= i < |notes| ==> |notes[i].nonce| == NONCE_SIZE)
  }

  lemma {:induction false} SenderAfterIs(t: Session, notes: seq<Note>, ad: Bytes)
    requires t.sendCk.Some? && t.sendN == 0 && |notes| < U32_MAX
    ensures SenderAfter(t, notes, ad) == t.(sendCk := Some(Advance(t.sendCk.value, |notes|)), sendN := |notes|)
  {
    if notes != [] {
      SenderAfterIs(t, notes[..|notes| - 1], ad);
    }
  }

  /** Encrypting on a fresh chain produces a burst. */
  lemma {:induction false} SendAllIsBurst(t: Session, notes: seq<Note>, ad: Bytes)
    requires t.sendCk.Some? && t.sendN == 0 && |notes| <= MAX_BURST
    requires forall i :: 0 <= i < |notes| ==> |notes[i].nonce| == NONCE_SIZE
    ensures IsBurst(SendAll(t, notes, ad), t.dhs.pub, t.prevN, t.sendCk.value, ad, notes)
  {
    if notes != [] {
      var k := |notes| - 1;
      SendAllIsBurst(t, notes[..k], ad);
      SenderAfterIs(t, notes[..k], ad);
    }
  }

  // ---------- receiving one ----------

  /** Deliver the wires in order; a refused one leaves the session as it was. */
  function ReceiveAll(s: Session, wires: seq<Wire>, ad: Bytes, next: KeyPair): Session
    decreases |wires|
  {
    if wires == [] then s
    else
      match Decrypt(s, wires[0], ad, next)
      case Ok(got) => ReceiveAll(got.session, wires[1..], ad, next)
      case Err(_) => ReceiveAll(s, wires[1..], ad, next)
  }

  function Outcomes(s: Session, wires: seq<Wire>, ad: Bytes, next: KeyPair): seq<Result<Bytes, RatchetError>>
    decreases |wires|
  {
    if wires == [] then []
    else
      match Decrypt(s, wires[0], ad, next)
      case Ok(got) => [Ok(got.text)] + Outcomes(got.session, wires[1..], ad, next)
      case Err(e) => [Err(e)] + Outcomes(s, wires[1..], ad, next)
  }

  /** The entries numbered below `r` that are not in `done`, in ascending order. */
  ghost function Pending(dh: Key32, chain: ChainKey, r: U32, done: set<nat>): seq<Entry> {
    if r == 0 then []
    else
      var before := Pending(dh, chain, r - 1, done);
      if r - 1 in done then before else before + [Slot(dh, chain, r - 1)]
  }

  function Slot(dh: Key32, chain: ChainKey, n: U32): Entry {
    Entry(KeyId(dh, n), MessageKeyOf(Advance(chain, n)))
  }

  /** Ready to receive on a chain none of whose messages has been seen. */
  ghost predicate AtStart(s: Session, dh: Key32, chain: ChainKey) {
    && s.dhr == Some(dh) && s.recvCk == Some(chain) && s.recvN == 0
    && dh !in s.retired
    && DistinctIds(s.bank) && |s.bank| <= MAX_SKIPPED_KEYS
    && forall i :: 0 <= i < |s.bank| ==> s.bank[i].id.dh != dh
  }

  /** The session after `done` was delivered, the highest being `r - 1`, at the cost of `lost` old keys. */
  ghost function Midway(s: Session, dh: Key32, chain: ChainKey, done: set<nat>, r: U32, lost: nat): Session
    requires lost <= |s.bank|
  {
    s.(bank := s.bank[lost..] + Pending(dh, chain, r, done), recvCk := Some(Advance(chain, r)), recvN := r)
  }

  lemma {:induction false} PendingFacts(dh: Key32, chain: ChainKey, r: U32, done: set<nat>)
    ensures var q := Pending(dh, chain, r, done);
            && |q| <= r
            && DistinctIds(q)
            && (forall i :: 0 <= i < |q| ==> q[i].id.n < r && q[i].id.n !in done && q[i] == Slot(dh, chain, q[i].id.n))
            && (forall n: U32 :: n < r && n !in done ==> Slot(dh, chain, n) in q)
  {
    if r > 0 {
      PendingFacts(dh, chain, r - 1, done);
    }
  }

  lemma {:induction false} PendingBeyond(dh: Key32, chain: ChainKey, r: U32, done: set<nat>, n: nat)
    requires n >= r
    ensures Pending(dh, chain, r, done + {n}) == Pending(dh, chain, r, done)
  {
    if r > 0 {
      PendingBeyond(dh, chain, r - 1, done, n);
    }
  }

  /** Jumping ahead from `r` to `n` leaves the numbers between pending. */
  lemma {:induction false} PendingJump(dh: Key32, chain: ChainKey, r: U32, n: U32, done: set<nat>)
    requires r <= n && forall i :: i in done ==> i < r
    ensures Pending(dh, chain, n, done) == Pending(dh, chain, r, done) + Derived(dh, Advance(chain, r), r, n)
    decreases n
  {
    var d := Derived(dh, Advance(chain, r), r, n);
    if r == n {
      assert d == [];
    } else {
      PendingJump(dh, chain, r, n - 1, done);
      AdvanceAdds(chain, r, n - 1 - r);
      assert d == Derived(dh, Advance(chain, r), r, n - 1) + [Slot(dh, chain, n - 1)];
    }
  }

  lemma SlotId(dh: Key32, chain: ChainKey, n: U32)
    ensures Slot(dh, chain, n).id == KeyId(dh, n)
  {
  }

  /** Consuming a pending entry. */
  lemma {:induction false} PendingConsumed(dh: Key32, chain: ChainKey, r: U32, done: set<nat>, n: U32)
    requires n < r && n !in done
    ensures Without(Pending(dh, chain, r, done), KeyId(dh, n)) == Pending(dh, chain, r, done + {n})
  {
    hide Slot;
    SlotId(dh, chain, r - 1);
    var id := KeyId(dh, n);
    var before := Pending(dh, chain, r - 1, done);
    PendingFacts(dh, chain, r - 1, done);
    if r - 1 == n {
      PendingBeyond(dh, chain, n, done, n);
      WithoutSplit(before, Slot(dh, chain, n), []);
      assert before + [Slot(dh, chain, n)] + [] == before + [Slot(dh, chain, n)];
      assert before + [] == before;
    } else {
      PendingConsumed(dh, chain, r - 1, done, n);
      if r - 1 !in done {
        WithoutConcat(before, [Slot(dh, chain, r - 1)], id);
      }
    }
  }

  lemma {:induction false} WithoutConcat(a: Queue, b: Queue, id: KeyId)
    ensures Without(a + b, id) == Without(a, id) + Without(b, id)
  {
    if a == [] {
      assert a + b == b;
    } else {
      assert (a + b)[1..] == a[1..] + b;
      WithoutConcat(a[1..], b, id);
    }
  }

  lemma {:induction false} PendingSize(dh: Key32, chain: ChainKey, r: U32, done: set<nat>)
    requires forall i :: i in done ==> i < r
    ensures |Pending(dh, chain, r, done)| == r - |done|
  {
    if r == 0 {
      assert done == {};
    } else {
      PendingBeyond(dh, chain, r - 1, done - {r - 1}, r - 1);
      PendingSize(dh, chain, r - 1, done - {r - 1});
      assert r - 1 in done ==> done == done - {r - 1} + {r - 1};
      assert r - 1 !in done ==> done == done - {r - 1};
    }
  }

  /** What every delivery of the burst does: it opens, and the session stays of the same form. */
  ghost predicate Opens(m: Session, wire: Wire, ad: Bytes, next: KeyPair, text: Bytes, after: Session) {
    Decrypt(m, wire, ad, next) == Ok(Received(after, text))
  }

  lemma MidwayBank(s: Session, dh: Key32, chain: ChainKey, done: set<nat>, r: U32, lost: nat)
    requires AtStart(s, dh, chain) && lost <= |s.bank|
    ensures var q := Midway(s, dh, chain, done, r, lost).bank;
            && DistinctIds(q)
            && (forall i :: 0 <= i < |q| && q[i].id.dh == dh ==>
                  q[i].id.n < r && q[i].id.n !in done && q[i] == Slot(dh, chain, q[i].id.n))
  {
    PendingFacts(dh, chain, r, done);
  }

  lemma LatePending(s: Session, dh: Key32, chain: ChainKey, done: set<nat>, r: U32, lost: nat, wire: Wire,
                    pn: U32, ad: Bytes, note: Note, n: U32, next: KeyPair)
    requires AtStart(s, dh, chain) && lost <= |s.bank| && n < r && n !in done
    requires wire == ChainWire(dh, pn, chain, ad, n, note) && |note.nonce| == NONCE_SIZE
    ensures Opens(Midway(s, dh, chain, done, r, lost), wire, ad, next, note.text,
                  Midway(s, dh, chain, done + {n}, r, lost))
  {
    var m, id := Midway(s, dh, chain, done, r, lost), KeyId(dh, n);
    var earlier, pending := s.bank[lost..], Pending(dh, chain, r, done);
    PendingFacts(dh, chain, r, done);
    assert Slot(dh, chain, n) in pending;
    assert Slot(dh, chain, n) in m.bank;
    assert id in Ids(m.bank);
    FindSound(m.bank, id);
    MidwayBank(s, dh, chain, done, r, lost);
    assert Find(m.bank, id) == Some(Slot(dh, chain, n).key);
    WithoutConcat(earlier, pending, id);
    WithoutAbsent(earlier, id);
    PendingConsumed(dh, chain, r, done, n);
    assert Without(m.bank, id) == earlier + Pending(dh, chain, r, done + {n});
  }

  /** How many old keys are lost in all once so many pending keys stand beside the rest under the cap. */
  function LostFor(size: nat, lost: nat, pending: int): nat {
    if size + pending <= MAX_SKIPPED_KEYS + lost then lost else size + pending - MAX_SKIPPED_KEYS
  }

  lemma ConcatAssociates(a: Queue, b: Queue, c: Queue)
    ensures a + b + c == a + (b + c)
  {
  }

  lemma NewestOfTwo(a: Queue, lost: nat, b: Queue)
    requires lost <= |a| && |b| <= MAX_SKIPPED_KEYS
    ensures var lost2 := LostFor(|a|, lost, |b|);
            lost <= lost2 <= |a| && Newest(a[lost..] + b) == a[lost2..] + b
  {
  }

  lemma JumpFresh(s: Session, dh: Key32, chain: ChainKey, done: set<nat>, r: U32, lost: nat, n: U32)
    requires AtStart(s, dh, chain) && lost <= |s.bank| && r <= n
    requires |Midway(s, dh, chain, done, r, lost).bank| <= MAX_SKIPPED_KEYS
    ensures var m, d := Midway(s, dh, chain, done, r, lost), Derived(dh, Advance(chain, r), r, n);
            BankAll(m.bank, d) == Newest(m.bank + d)
  {
    var m, d := Midway(s, dh, chain, done, r, lost), Derived(dh, Advance(chain, r), r, n);
    DerivedIds(dh, Advance(chain, r), r, n);
    MidwayBank(s, dh, chain, done, r, lost);
    BankAllFresh(m.bank, d);
  }

  lemma JumpBank(s: Session, dh: Key32, chain: ChainKey, done: set<nat>, r: U32, lost: nat, n: U32)
    requires AtStart(s, dh, chain) && lost <= |s.bank| && r <= n < MAX_BURST
    requires forall i :: i in done ==> i < r
    requires |Midway(s, dh, chain, done, r, lost).bank| <= MAX_SKIPPED_KEYS
    ensures var m := Midway(s, dh, chain, done, r, lost);
            var pending := Pending(dh, chain, n, done);
            var lost2 := LostFor(|s.bank|, lost, |pending|);
            && lost <= lost2 <= |s.bank|
            && BankAll(m.bank, SkippedBy(m, n)) == s.bank[lost2..] + pending
            && |s.bank[lost2..] + pending| <= MAX_SKIPPED_KEYS
  {
    var m := Midway(s, dh, chain, done, r, lost);
    var d := Derived(dh, Advance(chain, r), r, n);
    assert SkippedBy(m, n) == d;
    PendingJump(dh, chain, r, n, done);
    PendingFacts(dh, chain, n, done);
    JumpFresh(s, dh, chain, done, r, lost, n);
    ConcatAssociates(s.bank[lost..], Pending(dh, chain, r, done), d);
    NewestOfTwo(s.bank, lost, Pending(dh, chain, n, done));
  }

  lemma EarlyAhead(s: Session, dh: Key32, chain: ChainKey, done: set<nat>, r: U32, lost: nat, wire: Wire,
                   pn: U32, ad: Bytes, note: Note, n: U32, next: KeyPair) returns (lost2: nat)
    requires AtStart(s, dh, chain) && lost <= |s.bank| && r <= n < MAX_BURST
    requires forall i :: i in done ==> i < r
    requires |Midway(s, dh, chain, done, r, lost).bank| <= MAX_SKIPPED_KEYS
    requires wire == ChainWire(dh, pn, chain, ad, n, note) && |note.nonce| == NONCE_SIZE
    ensures lost2 == LostFor(|s.bank|, lost, |Pending(dh, chain, n, done)|) && lost <= lost2 <= |s.bank|
    ensures Opens(Midway(s, dh, chain, done, r, lost), wire, ad, next, note.text,
                  Midway(s, dh, chain, done + {n}, n + 1, lost2))
    ensures |Midway(s, dh, chain, done + {n}, n + 1, lost2).bank| <= MAX_SKIPPED_KEYS
  {
    var m := Midway(s, dh, chain, done, r, lost);
    lost2 := LostFor(|s.bank|, lost, |Pending(dh, chain, n, done)|);
    JumpBank(s, dh, chain, done, r, lost, n);
    MidwayBank(s, dh, chain, done, r, lost);
    FindSound(m.bank, KeyId(dh, n));
    AdvanceAdds(chain, r, n - r);
    PendingBeyond(dh, chain, n, done, n);
    assert Skip(m, n) == Ok(SkipTo(m, n));
    assert SkipTo(m, n) == m.(bank := BankAll(m.bank, SkippedBy(m, n)), recvCk := Some(Advance(chain, n)), recvN := n);
  }

  // ---------- receiving all, in any order ----------

  ghost predicate IsPermutation(order: seq<nat>, n: nat) {
    && |order| == n
    && (forall i :: 0 <= i < n ==> order[i] < n)
    && (forall i, j :: 0 <= i < j < n ==> order[i] != order[j])
    && (forall k: nat :: k < n ==> k in order)
  }

  function Arranged<T>(items: seq<T>, order: seq<nat>): seq<T>
    requires forall i :: 0 <= i < |order| ==> order[i] < |items|
  {
    seq(|order|, i requires 0 <= i < |order| => items[order[i]])
  }

  function Elements(order: seq<nat>): set<nat> {
    set i | 0 <= i < |order| :: order[i]
  }

  function Texts(notes: seq<Note>): seq<Result<Bytes, RatchetError>> {
    seq(|notes|, i requires 0 <= i < |notes| => Ok(notes[i].text))
  }

  /** A stage of the delivery of a burst. */
  ghost predicate Stage(s: Session, dh: Key32, chain: ChainKey, done: set<nat>, r: U32, lost: nat) {
    && AtStart(s, dh, chain) && lost <= |s.bank| && r <= MAX_BURST
    && (forall i :: i in done ==> i < r)
    && (r > 0 ==> r - 1 in done)
    && |Midway(s, dh, chain, done, r, lost).bank| <= MAX_SKIPPED_KEYS
  }

  /** One more message, wherever it stands. */
  lemma AnyNext(s: Session, dh: Key32, chain: ChainKey, done: set<nat>, r: U32, lost: nat, wire: Wire,
                pn: U32, ad: Bytes, note: Note, n: U32, next: KeyPair) returns (r2: U32, lost2: nat)
    requires Stage(s, dh, chain, done, r, lost) && n < MAX_BURST && n !in done
    requires wire == ChainWire(dh, pn, chain, ad, n, note) && |note.nonce| == NONCE_SIZE
    ensures Stage(s, dh, chain, done + {n}, r2, lost2)
    ensures Opens(Midway(s, dh, chain, done, r, lost), wire, ad, next, note.text,
                  Midway(s, dh, chain, done + {n}, r2, lost2))
    ensures r2 == if n < r then r else n + 1
    ensures lost2 == LostFor(|s.bank|, lost, n - |done|)
  {
    hide Decrypt, ChainWire;
    if n < r {
      r2, lost2 := r, lost;
      PendingSize(dh, chain, r, done);
      LatePending(s, dh, chain, done, r, lost, wire, pn, ad, note, n, next);
      PendingConsumed(dh, chain, r, done, n);
      WithoutIds(Pending(dh, chain, r, done), KeyId(dh, n));
    } else {
      r2 := n + 1;
      lost2 := EarlyAhead(s, dh, chain, done, r, lost, wire, pn, ad, note, n, next);
      PendingFacts(dh, chain, n, done);
      PendingSize(dh, chain, n, done);
    }
  }

  /**
   How far ahead of its turn some message arrives: the greatest difference between a number
   and the place it has in the order.
   */
  function Peak(order: seq<nat>): nat {
    if order == [] then 0
    else
      var rest := Peak(order[1..]);
      if order[0] >= rest - 1 then order[0] else rest - 1
  }

  lemma {:induction false} PeakIsGreatest(order: seq<nat>)
    requires order != []
    ensures forall i :: 0 <= i < |order| ==> order[i] - i <= Peak(order)
    ensures exists i :: 0 <= i < |order| && order[i] - i == Peak(order)
  {
    assert order[0] - 0 == order[0];
    if |order| > 1 {
      var rest := order[1..];
      PeakIsGreatest(rest);
      assert forall i :: 0 < i < |order| ==> order[i] == rest[i - 1];
      var i :| 0 <= i < |rest| && rest[i] - i == Peak(rest);
      assert order[i + 1] - (i + 1) == Peak(rest) - 1;
    }
  }

  lemma ArrangedSplit<T>(items: seq<T>, order: seq<nat>)
    requires order != [] && forall i :: 0 <= i < |order| ==> order[i] < |items|
    ensures forall i :: 0 <= i < |order[1..]| ==> order[1..][i] < |items|
    ensures Arranged(items, order) == [items[order[0]]] + Arranged(items, order[1..])
  {
    assert forall i :: 0 <= i < |order| - 1 ==> order[1..][i] == order[i + 1];
  }

  lemma TextsSplit(note: Note, notes: seq<Note>)
    ensures Texts([note] + notes) == [Ok(note.text)] + Texts(notes)
  {
  }

  lemma PeakSplit(order: seq<nat>)
    requires order != []
    ensures Peak(order) == if order[0] >= Peak(order[1..]) - 1 then order[0] else Peak(order[1..]) - 1
  {
  }

  lemma PeakOfOne(n: nat)
    ensures Peak([n]) == n
  {
  }

  lemma LostTwice(size: nat, lost: nat, a: int, b: int)
    ensures LostFor(size, LostFor(size, lost, a), b) == LostFor(size, lost, if a >= b then a else b)
  {
  }

  lemma {:induction false} DeliverFrom(s: Session, dh: Key32, chain: ChainKey, done: set<nat>, r: U32, lost: nat,
                                       wires: seq<Wire>, pn: U32, ad: Bytes, notes: seq<Note>, order: seq<nat>, next: KeyPair)
    returns (r2: U32, lost2: nat)
    requires Stage(s, dh, chain, done, r, lost) && IsBurst(wires, dh, pn, chain, ad, notes)
    requires forall i :: 0 <= i < |order| ==> order[i] < |wires| && order[i] !in done
    requires forall i, j :: 0 <= i < j < |order| ==> order[i] != order[j]
    ensures Stage(s, dh, chain, done + Elements(order), r2, lost2)
    ensures var m := Midway(s, dh, chain, done, r, lost);
            && ReceiveAll(m, Arranged(wires, order), ad, next) == Midway(s, dh, chain, done + Elements(order), r2, lost2)
            && Outcomes(m, Arranged(wires, order), ad, next) == Texts(Arranged(notes, order))
    ensures lost2 == if order == [] then lost else LostFor(|s.bank|, lost, Peak(order) - |done|)
    decreases |order|
  {
    hide Decrypt, Midway, Stage, ChainWire, Peak, LostFor, Arranged, Texts, Elements;
    if order == [] {
      r2, lost2 := r, lost;
      NoElements(done);
      NoneArranged(wires);
      NoneArranged(notes);
    } else {
      var n := order[0];
      var r1, lost1 := AnyNext(s, dh, chain, done, r, lost, wires[n], pn, ad, notes[n], n, next);
      assert forall i :: 0 <= i < |order| - 1 ==> order[1..][i] == order[i + 1];
      r2, lost2 := DeliverFrom(s, dh, chain, done + {n}, r1, lost1, wires, pn, ad, notes, order[1..], next);
      if |order| > 1 {
        PeakSplit(order);
        LostTwice(|s.bank|, lost, n - |done|, Peak(order[1..]) - |done + {n}|);
      } else {
        PeakOfOne(n);
        assert order == [n];
      }
      ElementsSplit(order);
      assert done + {n} + Elements(order[1..]) == done + Elements(order);
      ArrangedSplit(wires, order);
      ArrangedSplit(notes, order);
      TextsSplit(notes[n], Arranged(notes, order[1..]));
    }
  }

  lemma NoneArranged<T>(items: seq<T>)
    ensures Arranged(items, []) == [] && Texts([]) == []
  {
  }

  lemma NoElements(done: set<nat>)
    ensures done + Elements([]) == done
  {
  }

  lemma ElementsSplit(order: seq<nat>)
    requires order != []
    ensures Elements(order) == {order[0]} + Elements(order[1..])
  {
    forall k | k in Elements(order) ensures k in {order[0]} + Elements(order[1..]) {
      var i :| 0 <= i < |order| && order[i] == k;
      if i > 0 {
        assert order[1..][i - 1] == k;
      }
    }
    forall k | k in Elements(order[1..]) ensures k in Elements(order) {
      var i :| 0 <= i < |order| - 1 && order[1..][i] == k;
      assert order[i + 1] == k;
    }
  }

  lemma {:induction false} PendingNone(dh: Key32, chain: ChainKey, r: U32, done: set<nat>)
    requires forall i: nat :: i < r ==> i in done
    ensures Pending(dh, chain, r, done) == []
  {
    if r > 0 {
      PendingNone(dh, chain, r - 1, done);
    }
  }

  /** The session once the whole burst is in. */
  function AfterBurst(s: Session, chain: ChainKey, n: U32, lost: nat): Session
    requires lost <= |s.bank|
  {
    s.(bank := s.bank[lost..], recvCk := Some(Advance(chain, n)), recvN := n)
  }

  lemma PeakFits(size: nat, order: seq<nat>, n: nat)
    requires size <= MAX_SKIPPED_KEYS && IsPermutation(order, n) && 0 < n <= MAX_BURST
    ensures Peak(order) < n && LostFor(size, 0, Peak(order)) <= size
  {
    PeakIsGreatest(order);
    var i :| 0 <= i < |order| && order[i] - i == Peak(order);
  }

  /** The burst theorem once the ratchet has stepped and before any message of the chain is seen. */
  lemma EveryOrderFromStart(s: Session, dh: Key32, chain: ChainKey, wires: seq<Wire>, pn: U32, ad: Bytes,
                            notes: seq<Note>, order: seq<nat>, next: KeyPair)
    requires AtStart(s, dh, chain) && IsBurst(wires, dh, pn, chain, ad, notes)
    requires IsPermutation(order, |wires|) && order != []
    ensures LostFor(|s.bank|, 0, Peak(order)) <= |s.bank|
    ensures ReceiveAll(s, Arranged(wires, order), ad, next)
         == AfterBurst(s, chain, |wires|, LostFor(|s.bank|, 0, Peak(order)))
    ensures Outcomes(s, Arranged(wires, order), ad, next) == Texts(Arranged(notes, order))
  {
    PeakFits(|s.bank|, order, |wires|);
    StageAtStart(s, dh, chain);
    hide Peak, LostFor, Texts, ReceiveAll, Outcomes, Midway, Stage, AtStart, AfterBurst, Elements;
    var r, lost := DeliverFrom(s, dh, chain, {}, 0, 0, wires, pn, ad, notes, order, next);
    StageAtEnd(s, dh, chain, order, |wires|, r, lost);
  }

  lemma StageAtStart(s: Session, dh: Key32, chain: ChainKey)
    requires AtStart(s, dh, chain)
    ensures Stage(s, dh, chain, {}, 0, 0) && Midway(s, dh, chain, {}, 0, 0) == s
  {
    assert s.bank[0..] + [] == s.bank;
  }

  lemma StageAtEnd(s: Session, dh: Key32, chain: ChainKey, order: seq<nat>, n: U32, r: U32, lost: nat)
    requires IsPermutation(order, n) && n > 0 && Stage(s, dh, chain, {} + Elements(order), r, lost)
    ensures Midway(s, dh, chain, {} + Elements(order), r, lost) == AfterBurst(s, chain, n, lost)
  {
    hide AtStart;
    var done := {} + Elements(order);
    assert done == Elements(order);
    AllDone(order, n, r);
    PendingNone(dh, chain, r, done);
    assert s.bank[lost..] + [] == s.bank[lost..];
  }

  lemma AllDone(order: seq<nat>, n: nat, r: nat)
    requires IsPermutation(order, n) && n > 0
    requires (forall i :: i in Elements(order) ==> i < r) && (r > 0 ==> r - 1 in Elements(order))
    ensures r == n && forall i: nat :: i < r ==> i in Elements(order)
  {
    forall k: nat | k < n ensures k in Elements(order) {
      assert k in order;
    }
    assert n - 1 in Elements(order);
  }

  function Range(lo: nat, hi: nat): (r: seq<nat>)
    requires lo <= hi
    ensures |r| == hi - lo && forall i :: 0 <= i < |r| ==> r[i] == lo + i
  {
    seq(hi - lo, i => lo + i)
  }

  // ---------- a burst that opens a new chain ----------

  /** `dh` is a ratchet key this session has no trace of, and stepping to it is allowed. */
  ghost predicate CanTurn(s: Session, dh: Key32, pn: U32) {
    && s.dhr != Some(dh) && dh !in s.retired
    && Skip(s, pn).Ok?
    && DistinctIds(s.bank) && |s.bank| <= MAX_SKIPPED_KEYS
    && forall i :: 0 <= i < |s.bank| ==> s.bank[i].id.dh != dh
  }

  function TurnedTo(s: Session, dh: Key32, pn: U32, next: KeyPair): Session {
    DhStep(SkipTo(s, pn), dh, next)
  }

  /** The chain that a session receives on once it has stepped to `dh`. */
  function ChainFor(s: Session, dh: Key32): ChainKey {
    ChainOf(s.root, DeriveShared(s.dhs.priv, dh))
  }

  lemma TurnedAtStart(s: Session, dh: Key32, pn: U32, next: KeyPair)
    requires CanTurn(s, dh, pn)
    ensures AtStart(TurnedTo(s, dh, pn, next), dh, ChainFor(s, dh))
  {
    var d := SkippedBy(s, pn);
    var bank := BankAll(s.bank, d);
    BankAllBounded(s.bank, d);
    BankAllEntries(s.bank, d);
    forall i | 0 <= i < |bank| ensures bank[i].id.dh != dh {
      assert bank[i] in bank;
    }
    assert TurnedTo(s, dh, pn, next).bank == bank;
  }

  /** The first message of the burst to arrive steps the ratchet; which one it is does not matter. */
  lemma FirstTurns(s: Session, dh: Key32, pn: U32, wire: Wire, ad: Bytes, next: KeyPair)
    requires CanTurn(s, dh, pn) && wire.dhPub == Some(dh) && wire.pn == pn
    ensures Decrypt(TurnedTo(s, dh, pn, next), wire, ad, next).Ok? ==>
              Decrypt(s, wire, ad, next) == Decrypt(TurnedTo(s, dh, pn, next), wire, ad, next)
  {
    var id, s2 := KeyId(dh, wire.n), TurnedTo(s, dh, pn, next);
    FindSound(s.bank, id);
    TurnedAtStart(s, dh, pn, next);
    FindSound(s2.bank, id);
    assert Turn(s, dh, pn, next) == Ok(s2);
  }

  /**
   A burst of up to 1001 messages on a chain the session has not seen: in every order of
   delivery every message yields its own text and no key of the chain stays banked. The
   session that is left is known exactly: beyond the step of the ratchet it has lost as many
   of the oldest banked keys as were in the way of the message that came furthest ahead of
   its turn.
   */
  lemma EveryOrderOpens(s: Session, dh: Key32, wires: seq<Wire>, pn: U32, ad: Bytes,
                        notes: seq<Note>, order: seq<nat>, next: KeyPair)
    requires CanTurn(s, dh, pn) && IsBurst(wires, dh, pn, ChainFor(s, dh), ad, notes)
    requires IsPermutation(order, |wires|) && order != []
    ensures var t := TurnedTo(s, dh, pn, next);
            var lost := LostFor(|t.bank|, 0, Peak(order));
            && lost <= |t.bank|
            && ReceiveAll(s, Arranged(wires, order), ad, next) == AfterBurst(t, ChainFor(s, dh), |wires|, lost)
            && Outcomes(s, Arranged(wires, order), ad, next) == Texts(Arranged(notes, order))
  {
    var t, arranged := TurnedTo(s, dh, pn, next), Arranged(wires, order);
    TurnedAtStart(s, dh, pn, next);
    EveryOrderFromStart(t, dh, ChainFor(s, dh), wires, pn, ad, notes, order, next);
    assert Outcomes(t, arranged, ad, next)[0] == Ok(notes[order[0]].text);
    FirstTurns(s, dh, pn, arranged[0], ad, next);
  }

  // ---------- does the order matter? ----------

  /** All orders of delivery leave the same session. */
  ghost predicate OrderInsensitive(s: Session, wires: seq<Wire>, ad: Bytes, next: KeyPair) {
    forall a, b :: IsPermutation(a, |wires|) && IsPermutation(b, |wires|) ==>
      ReceiveAll(s, Arranged(wires, a), ad, next) == ReceiveAll(s, Arranged(wires, b), ad, next)
  }

  lemma InOrder(n: nat)
    ensures IsPermutation(Range(0, n), n) && Peak(Range(0, n)) == 0
  {
    if n > 0 {
      PeakIsGreatest(Range(0, n));
    }
    var order := Range(0, n);
    forall k: nat | k < n ensures k in order {
      assert order[k] == k;
    }
  }

  lemma LastFirst(n: nat)
    requires n > 0
    ensures var order := [n - 1] + Range(0, n - 1);
            IsPermutation(order, n) && Peak(order) == n - 1
  {
    var order := [n - 1] + Range(0, n - 1);
    forall k: nat | k < n ensures k in order {
      if k < n - 1 {
        assert order[k + 1] == k;
      } else {
        assert order[0] == k;
      }
    }
    PeakIsGreatest(order);
    assert order[0] - 0 == n - 1;
  }

  /**
   The final session is the same for all orders exactly when the keys banked once the ratchet
   has stepped leave room under the global cap for all but one of the burst's keys.
   */
  lemma SameForAllOrdersIffRoom(s: Session, dh: Key32, wires: seq<Wire>, pn: U32, ad: Bytes,
                                notes: seq<Note>, next: KeyPair)
    requires CanTurn(s, dh, pn) && IsBurst(wires, dh, pn, ChainFor(s, dh), ad, notes) && wires != []
    ensures OrderInsensitive(s, wires, ad, next) <==>
            |TurnedTo(s, dh, pn, next).bank| + |wires| - 1 <= MAX_SKIPPED_KEYS
  {
    hide CanTurn, IsBurst, TurnedTo, ReceiveAll, Peak;
    var t, n := TurnedTo(s, dh, pn, next), |wires|;
    if |t.bank| + n - 1 <= MAX_SKIPPED_KEYS {
      forall a, b | IsPermutation(a, n) && IsPermutation(b, n)
        ensures ReceiveAll(s, Arranged(wires, a), ad, next) == ReceiveAll(s, Arranged(wires, b), ad, next)
      {
        NothingLost(s, dh, wires, pn, ad, notes, a, next);
        NothingLost(s, dh, wires, pn, ad, notes, b, next);
      }
    } else {
      InOrder(n);
      LastFirst(n);
      OrderCosts(s, dh, wires, pn, ad, notes, Range(0, n), next);
      OrderCosts(s, dh, wires, pn, ad, notes, [n - 1] + Range(0, n - 1), next);
    }
  }

  lemma NothingLost(s: Session, dh: Key32, wires: seq<Wire>, pn: U32, ad: Bytes,
                    notes: seq<Note>, order: seq<nat>, next: KeyPair)
    requires CanTurn(s, dh, pn) && IsBurst(wires, dh, pn, ChainFor(s, dh), ad, notes) && wires != []
    requires IsPermutation(order, |wires|)
    requires |TurnedTo(s, dh, pn, next).bank| + |wires| - 1 <= MAX_SKIPPED_KEYS
    ensures ReceiveAll(s, Arranged(wires, order), ad, next)
         == AfterBurst(TurnedTo(s, dh, pn, next), ChainFor(s, dh), |wires|, 0)
  {
    EveryOrderOpens(s, dh, wires, pn, ad, notes, order, next);
    PeakFits(|TurnedTo(s, dh, pn, next).bank|, order, |wires|);
  }

  /** The number of old keys still banked in the end tells the peak of the order, above the room there is. */
  lemma OrderCosts(s: Session, dh: Key32, wires: seq<Wire>, pn: U32, ad: Bytes,
                   notes: seq<Note>, order: seq<nat>, next: KeyPair)
    requires CanTurn(s, dh, pn) && IsBurst(wires, dh, pn, ChainFor(s, dh), ad, notes) && wires != []
    requires IsPermutation(order, |wires|)
    ensures var size := |TurnedTo(s, dh, pn, next).bank|;
            && size <= MAX_SKIPPED_KEYS
            && |ReceiveAll(s, Arranged(wires, order), ad, next).bank| == size - LostFor(size, 0, Peak(order))
  {
    EveryOrderOpens(s, dh, wires, pn, ad, notes, order, next);
    TurnedAtStart(s, dh, pn, next);
  }

  // ---------- from encryption to decryption ----------

  /**
   End to end for a burst: what a sender encrypts on a fresh chain, a receiver that has yet
   to see that chain opens completely and correctly, in every order of delivery.
   */
  lemma SentBurstDelivered(t: Session, s: Session, notes: seq<Note>, order: seq<nat>, ad: Bytes, next: KeyPair)
    requires t.sendN == 0 && 0 < |notes| <= MAX_BURST
    requires forall i :: 0 <= i < |notes| ==> |notes[i].nonce| == NONCE_SIZE
    requires CanTurn(s, t.dhs.pub, t.prevN) && t.sendCk == Some(ChainFor(s, t.dhs.pub))
    requires IsPermutation(order, |notes|)
    ensures |SendAll(t, notes, ad)| == |notes|
    ensures Outcomes(s, Arranged(SendAll(t, notes, ad), order), ad, next) == Texts(Arranged(notes, order))
    ensures var s2 := TurnedTo(s, t.dhs.pub, t.prevN, next);
            var lost := LostFor(|s2.bank|, 0, Peak(order));
            && lost <= |s2.bank|
            && ReceiveAll(s, Arranged(SendAll(t, notes, ad), order), ad, next)
               == AfterBurst(s2, ChainFor(s, t.dhs.pub), |notes|, lost)
  {
    SendAllIsBurst(t, notes, ad);
    EveryOrderOpens(s, t.dhs.pub, SendAll(t, notes, ad), t.prevN, ad, notes, order, next);
  }
}
