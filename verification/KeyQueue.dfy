/**
 The specification of the skipped-key store: a queue of banked message keys,
 oldest first, that drops its oldest entries above a global cap.
 */
module KeyQueue {
  import opened Wrappers
  import opened Bytes
  import opened Crypto

  const MAX_SKIPPED_KEYS: nat := 2000

  /** Names one message key: the sender's ratchet key and the message number. */
  datatype KeyId = KeyId(dh: Key32, n: U32)

  /** The textual form the program stores, "dhPubHex:n". */
  function Render(id: KeyId): Bytes {
    Hex(id.dh) + [58] + Decimal(id.n)
  }

  /** The key in lowercase hexadecimal, a colon, and the shortest numeral of the number. */
  lemma RenderText(id: KeyId)
    ensures var t := Render(id);
            && |t| > 65 && t[64] == 58
            && (forall i :: 0 <= i < 64 ==> IsLowerHex(t[i]))
            && HexDecode(t[..64]) == Some(id.dh)
            && AllDigits(t[65..]) && ValueOf(t[65..]) == id.n
            && (t[65] == 48 ==> id.n == 0)
  {
    var t := Render(id);
    assert t[..64] == Hex(id.dh) && t[65..] == Decimal(id.n);
    HexRoundTrip(id.dh);
    DecimalValue(id.n);
    DecimalShortest(id.n);
    assert t[65] == t[65..][0];
    assert forall i :: 0 <= i < 64 ==> t[i] == t[..64][i];
  }

  /** The textual form loses nothing, so a map keyed by it is a map keyed by `KeyId`. */
  lemma RenderInjective(a: KeyId, b: KeyId)
    requires Render(a) == Render(b)
    ensures a == b
  {
    assert Render(a)[..64] == Hex(a.dh) && Render(b)[..64] == Hex(b.dh);
    HexInjective(a.dh, b.dh);
    assert Render(a)[65..] == Decimal(a.n) && Render(b)[65..] == Decimal(b.n);
    DecimalInjective(a.n, b.n);
  }

  datatype Entry = Entry(id: KeyId, key: MessageKey)

  type Queue = seq<Entry>

  function Ids(q: Queue): set<KeyId> {
    set i | 0 <= i < |q| :: q[i].id
  }

  /** No message key is banked twice. */
  ghost predicate DistinctIds(q: Queue) {
    forall i, j :: 0 <= i < j < |q| ==> q[i].id != q[j].id
  }

  function Find(q: Queue, id: KeyId): Option<MessageKey> {
    if q == [] then None
    else if q[0].id == id then Some(q[0].key)
    else Find(q[1..], id)
  }

  lemma {:induction false} FindSound(q: Queue, id: KeyId)
    ensures Find(q, id).Some? <==> id in Ids(q)
    ensures Find(q, id).Some? ==> Entry(id, Find(q, id).value) in q
  {
    if q != [] && q[0].id != id {
      FindSound(q[1..], id);
      assert forall i :: 0 <= i < |q| - 1 ==> q[1..][i] == q[i + 1];
      if id in Ids(q) {
        var i :| 0 <= i < |q| && q[i].id == id;
        assert q[1..][i - 1].id == id;
      }
    }
  }

  /** The queue without a consumed key. */
  function Without(q: Queue, id: KeyId): Queue {
    if q == [] then []
    else if q[0].id == id then Without(q[1..], id)
    else [q[0]] + Without(q[1..], id)
  }

  lemma {:induction false} WithoutIds(q: Queue, id: KeyId)
    ensures Ids(Without(q, id)) == Ids(q) - {id}
    ensures |Without(q, id)| <= |q|
    ensures forall e :: e in Without(q, id) ==> e in q
  {
    if q != [] {
      WithoutIds(q[1..], id);
      IdsCons(q[0], q[1..]);
      assert [q[0]] + q[1..] == q;
      IdsCons(q[0], Without(q[1..], id));
    }
  }

  lemma {:induction false} WithoutDistinct(q: Queue, id: KeyId)
    requires DistinctIds(q)
    ensures DistinctIds(Without(q, id))
  {
    if q != [] {
      WithoutDistinct(q[1..], id);
      var r := Without(q[1..], id);
      forall j | 0 <= j < |r| ensures q[0].id != r[j].id {
        WithoutIds(q[1..], id);
        assert r[j] in q[1..];
      }
    }
  }

  /** Removing an entry with a distinct id from the middle of the queue. */
  lemma {:induction false} WithoutSplit(a: Queue, e: Entry, b: Queue)
    requires e.id !in Ids(a) && e.id !in Ids(b)
    ensures Without(a + [e] + b, e.id) == a + b
  {
    if a == [] {
      assert a + [e] + b == [e] + b;
      assert ([e] + b)[1..] == b;
      WithoutAbsent(b, e.id);
      assert a + b == b;
    } else {
      assert [a[0]] + a[1..] == a;
      IdsCons(a[0], a[1..]);
      WithoutSplit(a[1..], e, b);
      assert (a + [e] + b)[1..] == a[1..] + [e] + b;
      assert a + b == [a[0]] + (a[1..] + b);
    }
  }

  lemma {:induction false} WithoutAbsent(q: Queue, id: KeyId)
    requires id !in Ids(q)
    ensures Without(q, id) == q
  {
    if q != [] {
      assert [q[0]] + q[1..] == q;
      IdsCons(q[0], q[1..]);
      WithoutAbsent(q[1..], id);
    }
  }

  lemma IdsCons(e: Entry, q: Queue)
    ensures Ids([e] + q) == {e.id} + Ids(q)
  {
    IdsConcat([e], q);
    assert [e][0].id in Ids([e]);
  }

  lemma IdsConcat(a: Queue, b: Queue)
    ensures Ids(a + b) == Ids(a) + Ids(b)
  {
    forall id | id in Ids(a) + Ids(b) ensures id in Ids(a + b) {
      if id in Ids(a) {
        var i :| 0 <= i < |a| && a[i].id == id;
        assert (a + b)[i].id == id;
      } else {
        var i :| 0 <= i < |b| && b[i].id == id;
        assert (a + b)[|a| + i].id == id;
      }
    }
  }

  // ---------- banking ----------

  /** Insert or overwrite: an id already banked keeps its place. */
  function Put(q: Queue, e: Entry): Queue {
    if q == [] then [e]
    else if q[0].id == e.id then [e] + q[1..]
    else [q[0]] + Put(q[1..], e)
  }

  lemma {:induction false} PutFresh(q: Queue, e: Entry)
    requires e.id !in Ids(q)
    ensures Put(q, e) == q + [e]
  {
    if q != [] {
      assert [q[0]] + q[1..] == q;
      IdsCons(q[0], q[1..]);
      PutFresh(q[1..], e);
    }
  }

  lemma {:induction false} PutIds(q: Queue, e: Entry)
    ensures Ids(Put(q, e)) == Ids(q) + {e.id}
    ensures |Put(q, e)| == if e.id in Ids(q) then |q| else |q| + 1
    ensures DistinctIds(q) ==> DistinctIds(Put(q, e))
  {
    if q == [] {
      IdsCons(e, q);
      assert [e] + q == [e];
    } else {
      assert [q[0]] + q[1..] == q;
      IdsCons(q[0], q[1..]);
      if q[0].id == e.id {
        IdsCons(e, q[1..]);
      } else {
        PutIds(q[1..], e);
        IdsCons(q[0], Put(q[1..], e));
        if DistinctIds(q) {
          forall j | 0 <= j < |Put(q[1..], e)| ensures q[0].id != Put(q[1..], e)[j].id {
            assert Put(q[1..], e)[j].id in Ids(q[1..]) + {e.id};
          }
        }
      }
    }
  }

  /** The newest `MAX_SKIPPED_KEYS` entries. */
  function Newest(q: Queue): Queue {
    if |q| <= MAX_SKIPPED_KEYS then q else q[|q| - MAX_SKIPPED_KEYS..]
  }

  /** The entries above the cap, oldest first. */
  function Overflow(q: Queue): Queue {
    q[..|q| - |Newest(q)|]
  }

  function Bank(q: Queue, e: Entry): Queue {
    Newest(Put(q, e))
  }

  function BankAll(q: Queue, es: seq<Entry>): Queue {
    if es == [] then q else Bank(BankAll(q, es[..|es| - 1]), es[|es| - 1])
  }

  /** No entry of the second list is named in the first, nor twice in itself. */
  ghost predicate Fresh(q: Queue, es: seq<Entry>) {
    && DistinctIds(es)
    && Ids(q) !! Ids(es)
  }

  lemma BankAfterNewest(q: Queue, e: Entry)
    requires e.id !in Ids(q)
    ensures Bank(Newest(q), e) == Newest(q + [e])
  {
    NewestSplits(q);
    PutFresh(Newest(q), e);
    NewestOfNewest(q, e);
  }

  lemma NewestOfNewest(q: Queue, e: Entry)
    ensures Newest(Newest(q) + [e]) == Newest(q + [e])
  {
  }

  /** Banking fresh keys one at a time, evicting each time, keeps the newest of all of them. */
  lemma {:induction false} BankAllFresh(q: Queue, es: seq<Entry>)
    requires Fresh(q, es)
    requires es == [] ==> |q| <= MAX_SKIPPED_KEYS
    ensures BankAll(q, es) == Newest(q + es)
  {
    if es == [] {
      assert q + es == q;
    } else {
      var k := |es| - 1;
      var init, last := es[..k], es[k];
      assert es == init + [last];
      assert last.id in Ids(es);
      IdsConcat(init, [last]);
      IdsConcat(q, init);
      assert last.id !in Ids(init);
      if init == [] {
        PutFresh(q, last);
      } else {
        BankAllFresh(q, init);
        BankAfterNewest(q + init, last);
        assert (q + init) + [last] == q + es;
      }
    }
  }

  /** The newest entries and the overflow together are the whole queue, in order. */
  lemma NewestSplits(q: Queue)
    ensures Overflow(q) + Newest(q) == q
    ensures |Newest(q)| == if |q| <= 2000 then |q| else 2000
    ensures Ids(q) == Ids(Overflow(q)) + Ids(Newest(q))
    ensures DistinctIds(q) ==> Ids(Overflow(q)) !! Ids(Newest(q)) && DistinctIds(Newest(q))
  {
    var o, n := Overflow(q), Newest(q);
    assert o + n == q;
    IdsConcat(o, n);
    if DistinctIds(q) {
      SplitDistinct(o, n);
    }
  }

  lemma SplitDistinct(a: Queue, b: Queue)
    requires DistinctIds(a + b)
    ensures Ids(a) !! Ids(b) && DistinctIds(b)
  {
    var q := a + b;
    assert forall i :: 0 <= i < |a| ==> q[i] == a[i];
    assert forall j :: 0 <= j < |b| ==> q[|a| + j] == b[j];
  }
}
