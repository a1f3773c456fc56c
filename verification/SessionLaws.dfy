/**
 What every delivery does to a session, whoever made the message: no assumption is
 made on headers, keys or ciphertexts here.
 */
module SessionLaws {
  import opened Wrappers
  import opened Bytes
  import opened Crypto
  import opened KeyQueue
  import opened SessionSpec

  lemma {:induction false} BankAllConcat(q: Queue, a: seq<Entry>, b: seq<Entry>)
    ensures BankAll(q, a + b) == BankAll(BankAll(q, a), b)
    decreases |b|
  {
    if b == [] {
      assert a + b == a;
    } else {
      assert (a + b)[..|a + b| - 1] == a + b[..|b| - 1];
      BankAllConcat(q, a, b[..|b| - 1]);
    }
  }

  lemma DerivedIds(dh: Key32, ck: ChainKey, lo: U32, hi: U32)
    requires lo <= hi
    ensures DistinctIds(Derived(dh, ck, lo, hi))
    ensures forall id :: id in Ids(Derived(dh, ck, lo, hi)) <==> id.dh == dh && lo <= id.n < hi
  {
    var es := Derived(dh, ck, lo, hi);
    forall id: KeyId | id.dh == dh && lo <= id.n < hi ensures id in Ids(es) {
      assert es[id.n - lo].id == id;
    }
  }

  // ---------- the exact effect of a successful delivery ----------

  /** A delivery on the current chain: which key opened it and what the session becomes. */
  lemma CurrentChain(s: Session, w: Wire, dh: Key32, ad: Bytes, next: KeyPair)
    requires s.dhr == Some(dh) && !IsReplay(s, dh, w.n)
    requires FromAhead(s, w, dh, ad, next).Ok?
    ensures s.recvCk.Some? && s.recvN <= w.n
    ensures var got := FromAhead(s, w, dh, ad, next).value;
            && OpenWire(MessageKeyOf(Advance(s.recvCk.value, w.n - s.recvN)), w, dh, ad) == Ok(got.text)
            && got.session == s.(bank := BankAll(s.bank, NewlyBanked(s, w, dh, next)),
                                 recvCk := Some(Advance(s.recvCk.value, w.n - s.recvN + 1)),
                                 recvN := WrapInc32(w.n))
  {
  }

  /** A delivery under a new ratchet key. */
  lemma NextChainOpened(s: Session, w: Wire, dh: Key32, ad: Bytes, next: KeyPair)
    requires s.dhr != Some(dh)
    requires FromAhead(s, w, dh, ad, next).Ok?
    ensures Skip(s, w.pn).Ok? && w.n <= MAX_SKIP
    ensures var got := FromAhead(s, w, dh, ad, next).value;
            var chain := ChainOf(s.root, DeriveShared(s.dhs.priv, dh));
            && OpenWire(MessageKeyOf(Advance(chain, w.n)), w, dh, ad) == Ok(got.text)
            && got.session == DhStep(s, dh, next).(bank := BankAll(s.bank, NewlyBanked(s, w, dh, next)),
                                                   recvCk := Some(Advance(chain, w.n + 1)),
                                                   recvN := WrapInc32(w.n))
  {
    var skipped := SkipTo(s, w.pn);
    var turned := DhStep(skipped, dh, next);
    assert Turn(s, dh, w.pn, next) == Ok(turned);
    BankAllConcat(s.bank, SkippedBy(s, w.pn), SkippedBy(turned, w.n));
    assert turned.bank == BankAll(s.bank, SkippedBy(s, w.pn));
    assert SkipTo(turned, w.n).bank == BankAll(turned.bank, SkippedBy(turned, w.n));
    assert turned.recvCk == Some(ChainOf(s.root, DeriveShared(s.dhs.priv, dh)));
  }

  // ---------- bounds ----------

  lemma {:induction false} BankAllBounded(q: Queue, es: seq<Entry>)
    requires DistinctIds(q)
    ensures DistinctIds(BankAll(q, es))
    ensures |q| <= MAX_SKIPPED_KEYS || es != [] ==> |BankAll(q, es)| <= MAX_SKIPPED_KEYS
  {
    if es != [] {
      var before := BankAll(q, es[..|es| - 1]);
      BankAllBounded(q, es[..|es| - 1]);
      PutIds(before, es[|es| - 1]);
      NewestSplits(Put(before, es[|es| - 1]));
    }
  }

  /** Banking invents nothing. */
  lemma {:induction false} BankAllEntries(q: Queue, es: seq<Entry>)
    ensures forall e :: e in BankAll(q, es) ==> e in q || e in es
  {
    if es != [] {
      var k := |es| - 1;
      BankAllEntries(q, es[..k]);
      PutEntries(BankAll(q, es[..k]), es[k]);
    }
  }

  lemma {:induction false} PutEntries(q: Queue, e: Entry)
    ensures forall x :: x in Put(q, e) ==> x in q || x == e
  {
    if q != [] && q[0].id != e.id {
      PutEntries(q[1..], e);
    }
  }

  lemma BankAllIds(q: Queue, es: seq<Entry>)
    ensures Ids(BankAll(q, es)) <= Ids(q) + Ids(es)
  {
    BankAllEntries(q, es);
    forall id | id in Ids(BankAll(q, es)) ensures id in Ids(q) + Ids(es) {
      var e :| e in BankAll(q, es) && e.id == id;
      if e in q {
        var i :| 0 <= i < |q| && q[i] == e;
      }
    }
  }

  /** One delivery derives at most two gaps' worth of keys. */
  lemma NewlyBankedBounded(s: Session, w: Wire, dh: Key32, ad: Bytes, next: KeyPair)
    requires FromAhead(s, w, dh, ad, next).Ok?
    ensures |NewlyBanked(s, w, dh, next)| <= 2 * 1000
  {
    if s.dhr != Some(dh) {
      NextChainOpened(s, w, dh, ad, next);
    }
  }

  /**
   Even from a full or over-full store, and even across a ratchet step, a delivery
   never evicts a key that it banked itself.
   */
  lemma OwnKeysSurvive(s: Session, w: Wire, dh: Key32, ad: Bytes, next: KeyPair)
    requires Find(s.bank, KeyId(dh, w.n)).None? && !IsReplay(s, dh, w.n)
    requires DecryptKeyed(s, w, dh, ad, next).Ok?
    requires Fresh(s.bank, NewlyBanked(s, w, dh, next))
    ensures var own := NewlyBanked(s, w, dh, next);
            var bank := DecryptKeyed(s, w, dh, ad, next).value.session.bank;
            |own| <= |bank| && bank[|bank| - |own|..] == own
  {
    var es := NewlyBanked(s, w, dh, next);
    NewlyBankedBounded(s, w, dh, ad, next);
    if s.dhr == Some(dh) {
      CurrentChain(s, w, dh, ad, next);
    } else {
      NextChainOpened(s, w, dh, ad, next);
    }
    if es != [] {
      BankAllFresh(s.bank, es);
      var all := s.bank + es;
      assert all[|all| - |es|..] == es;
    }
  }

  /** What holds of every session whatever messages arrive. */
  ghost predicate Sound(s: Session) {
    && DistinctIds(s.bank)
    && |s.bank| <= 2000
    && |s.retired| <= 8
    && (forall i, j :: 0 <= i < j < |s.retired| ==> s.retired[i] != s.retired[j])
    && (s.dhr.Some? ==> s.dhr.value !in s.retired)
  }

  lemma RetireSound(s: Session, dh: Key32)
    requires Sound(s) && s.dhr != Some(dh) && dh !in s.retired
    ensures var r := Retire(s.retired, s.dhr, dh);
            && |r| <= MAX_RETIRED_DH_KEYS
            && dh !in r
            && forall i, j :: 0 <= i < j < |r| ==> r[i] != r[j]
  {
  }

  /** Any message at all, accepted or not, leaves a sound session sound. */
  lemma DecryptKeepsSound(s: Session, w: Wire, ad: Bytes, next: KeyPair)
    requires Sound(s) && Decrypt(s, w, ad, next).Ok?
    ensures Sound(Decrypt(s, w, ad, next).value.session)
  {
    var dh: Key32 := w.dhPub.value;
    var id := KeyId(dh, w.n);
    if Find(s.bank, id).Some? {
      WithoutIds(s.bank, id);
      WithoutDistinct(s.bank, id);
    } else {
      BankAllBounded(s.bank, NewlyBanked(s, w, dh, next));
      if s.dhr == Some(dh) {
        CurrentChain(s, w, dh, ad, next);
      } else {
        NextChainOpened(s, w, dh, ad, next);
        RetireSound(s, dh);
      }
    }
  }

  // ---------- any session, any calls ----------

  /** A call on a session: with any text, or with any wire and any generated key pair. */
  datatype Call =
    | Encrypting(text: Bytes, ad: Bytes, nonce: Bytes)
    | Decrypting(wire: Wire, ad: Bytes, next: KeyPair)

  function AfterCall(s: Session, c: Call): Session {
    match c
    case Encrypting(text, ad, nonce) =>
      (match Encrypt(s, text, ad, nonce)
       case Ok(out) => out.session
       case Err(_) => s)
    case Decrypting(wire, ad, next) =>
      match Decrypt(s, wire, ad, next)
      case Ok(got) => got.session
      case Err(_) => s
  }

  function AfterCalls(s: Session, calls: seq<Call>): Session
    decreases |calls|
  {
    if calls == [] then s else AfterCalls(AfterCall(s, calls[0]), calls[1..])
  }

  lemma CallKeepsSound(s: Session, c: Call)
    requires Sound(s)
    ensures Sound(AfterCall(s, c))
  {
    hide Decrypt;
    if c.Decrypting? && Decrypt(s, c.wire, c.ad, c.next).Ok? {
      DecryptKeepsSound(s, c.wire, c.ad, c.next);
    }
  }

  lemma {:induction false} CallsKeepSound(s: Session, calls: seq<Call>)
    requires Sound(s)
    ensures Sound(AfterCalls(s, calls))
    decreases |calls|
  {
    if calls != [] {
      CallKeepsSound(s, calls[0]);
      CallsKeepSound(AfterCall(s, calls[0]), calls[1..]);
    }
  }

  /** Whatever calls are made on a fresh session of either kind, with whatever messages, it stays sound. */
  lemma FreshStaysSound(master: RootKey, theirSpk: Key32, keys: KeyPair, calls: seq<Call>)
    ensures Sound(AfterCalls(InitInitiator(master, theirSpk, keys), calls))
    ensures Sound(AfterCalls(InitResponder(master, keys), calls))
  {
    CallsKeepSound(InitInitiator(master, theirSpk, keys), calls);
    CallsKeepSound(InitResponder(master, keys), calls);
  }
}
