/**
 The skipped-key store as the program keeps it, a map and a list of insertion order,
 seen as the queue of `KeyQueue`. Keys that the list does not mention come from sessions
 saved before the list existed; they stand, sorted, before all others.
 */
module SkippedStore {
  import opened Sorting
  import opened Crypto
  import opened KeyQueue

  ghost predicate Distinct<T>(s: seq<T>) {
    forall i, j :: 0 <= i < j < |s| ==> s[i] != s[j]
  }

  ghost function Members<T>(s: seq<T>): set<T> {
    set x | x in s
  }

  function Retain(s: seq<KeyId>, id: KeyId): seq<KeyId> {
    if s == [] then []
    else if s[0] == id then Retain(s[1..], id)
    else [s[0]] + Retain(s[1..], id)
  }

  ghost function Listing(ids: set<KeyId>): (r: seq<KeyId>)
    ensures multiset(r) == multiset(ids)
  {
    if ids == {} then []
    else
      var x :| x in ids;
      assert multiset(ids) == multiset(ids - {x}) + multiset{x};
      [x] + Listing(ids - {x})
  }

  /** The ids in the order of their textual form. */
  ghost function SortedIds(ids: set<KeyId>): seq<KeyId> {
    SortCorrect(Render, Listing(ids));
    var s :| SortedBy(Render, s) && multiset(s) == multiset(ids);
    s
  }

  lemma RenderSeparates()
    ensures Separates(Render)
  {
    forall a, b | Render(a) == Render(b) ensures a == b {
      RenderInjective(a, b);
    }
  }

  lemma SortedIdsUnique(ids: set<KeyId>, s: seq<KeyId>)
    requires SortedBy(Render, s) && multiset(s) == multiset(ids)
    ensures s == SortedIds(ids)
  {
    RenderSeparates();
    SortCorrect(Render, Listing(ids));
    SortedFormUnique(Render, s, SortedIds(ids));
  }

  lemma SortedIdsFacts(ids: set<KeyId>)
    ensures SortedBy(Render, SortedIds(ids)) && multiset(SortedIds(ids)) == multiset(ids)
    ensures Distinct(SortedIds(ids)) && Members(SortedIds(ids)) == ids && |SortedIds(ids)| == |ids|
  {
    var s := SortedIds(ids);
    SortCorrect(Render, Listing(ids));
    assert |multiset(s)| == |s| && |multiset(ids)| == |ids|;
    forall x ensures x in s <==> x in ids {
      assert x in s <==> x in multiset(s);
      assert x in ids <==> x in multiset(ids);
    }
    SetListDistinct(ids, s);
  }

  lemma TwiceCounted(s: seq<KeyId>, i: nat, j: nat)
    requires i < j < |s|
    ensures s[i] == s[j] ==> multiset(s)[s[i]] >= 2
  {
    assert s == s[..j] + [s[j]] + s[j + 1..];
    assert s[..j][i] in multiset(s[..j]);
  }

  lemma SetListDistinct(ids: set<KeyId>, s: seq<KeyId>)
    requires multiset(s) == multiset(ids)
    ensures Distinct(s)
  {
    forall i, j | 0 <= i < j < |s| ensures s[i] != s[j] {
      TwiceCounted(s, i, j);
      assert multiset(ids)[s[i]] <= 1;
    }
  }

  lemma {:induction false} RetainMembers(s: seq<KeyId>, id: KeyId)
    ensures forall x :: x in Retain(s, id) <==> x in s && x != id
  {
    if s != [] {
      RetainMembers(s[1..], id);
      assert s == [s[0]] + s[1..];
    }
  }

  lemma {:induction false} RetainFacts(s: seq<KeyId>, id: KeyId)
    ensures Members(Retain(s, id)) == Members(s) - {id}
    ensures Distinct(s) ==> Distinct(Retain(s, id))
    ensures SortedBy(Render, s) ==> SortedBy(Render, Retain(s, id))
  {
    RetainMembers(s, id);
    if s != [] {
      RetainFacts(s[1..], id);
      RetainMembers(s[1..], id);
      var r := Retain(s[1..], id);
      assert forall j :: 0 <= j < |r| ==> r[j] in s[1..];
    }
  }

  lemma {:induction false} RetainMultiset(s: seq<KeyId>, id: KeyId)
    ensures multiset(Retain(s, id)) == multiset(s)[id := 0]
  {
    if s != [] {
      RetainMultiset(s[1..], id);
      assert s == [s[0]] + s[1..];
    }
  }

  lemma {:induction false} RetainConcat(a: seq<KeyId>, b: seq<KeyId>, id: KeyId)
    ensures Retain(a + b, id) == Retain(a, id) + Retain(b, id)
  {
    if a == [] {
      assert a + b == b;
    } else {
      assert (a + b)[1..] == a[1..] + b;
      RetainConcat(a[1..], b, id);
    }
  }

  lemma SortedIdsMinus(ids: set<KeyId>, id: KeyId)
    ensures SortedIds(ids - {id}) == Retain(SortedIds(ids), id)
  {
    SortedIdsFacts(ids);
    RetainFacts(SortedIds(ids), id);
    RetainMultiset(SortedIds(ids), id);
    assert multiset(ids - {id}) == multiset(ids)[id := 0];
    SortedIdsUnique(ids - {id}, Retain(SortedIds(ids), id));
  }

  // ---------- the queue that a map and a list stand for ----------

  /** The list names banked keys only, and none twice. */
  ghost predicate StoreValid(m: map<KeyId, MessageKey>, order: seq<KeyId>) {
    Distinct(order) && Members(order) <= m.Keys
  }

  ghost function FullOrder(keys: set<KeyId>, order: seq<KeyId>): seq<KeyId> {
    SortedIds(keys - Members(order)) + order
  }

  ghost predicate AllIn(ids: seq<KeyId>, m: map<KeyId, MessageKey>) {
    forall i :: 0 <= i < |ids| ==> ids[i] in m
  }

  ghost function Entries(m: map<KeyId, MessageKey>, ids: seq<KeyId>): Queue
    requires AllIn(ids, m)
  {
    seq(|ids|, i requires 0 <= i < |ids| => Entry(ids[i], m[ids[i]]))
  }

  lemma MembersIn(ids: seq<KeyId>, m: map<KeyId, MessageKey>)
    requires Members(ids) <= m.Keys
    ensures AllIn(ids, m)
  {
    forall i | 0 <= i < |ids| ensures ids[i] in m {
      assert ids[i] in Members(ids);
    }
  }

  lemma MembersConcat<T>(a: seq<T>, b: seq<T>)
    ensures Members(a + b) == Members(a) + Members(b)
  {
  }

  lemma FullOrderFacts(keys: set<KeyId>, order: seq<KeyId>)
    requires Distinct(order) && Members(order) <= keys
    ensures Distinct(FullOrder(keys, order)) && Members(FullOrder(keys, order)) == keys
    ensures |FullOrder(keys, order)| == |keys|
  {
    hide SortedIds;
    var rest := keys - Members(order);
    SortedIdsFacts(rest);
    var all := FullOrder(keys, order);
    forall i, j | 0 <= i < j < |all| ensures all[i] != all[j] {
      if i < |rest| <= j {
        assert SortedIds(rest)[i] in Members(SortedIds(rest));
        assert order[j - |rest|] in Members(order);
      }
    }
    MembersConcat(SortedIds(rest), order);
    DistinctSize(all);
  }

  lemma {:induction false} DistinctSize<T>(s: seq<T>)
    requires Distinct(s)
    ensures |Members(s)| == |s|
  {
    if s != [] {
      DistinctSize(s[1..]);
      assert s == [s[0]] + s[1..];
      assert Members(s) == {s[0]} + Members(s[1..]);
    }
  }

  ghost function QueueOf(m: map<KeyId, MessageKey>, order: seq<KeyId>): Queue
    requires StoreValid(m, order)
  {
    FullOrderFacts(m.Keys, order);
    MembersIn(FullOrder(m.Keys, order), m);
    Entries(m, FullOrder(m.Keys, order))
  }

  lemma EntriesFacts(m: map<KeyId, MessageKey>, ids: seq<KeyId>)
    requires AllIn(ids, m) && Distinct(ids)
    ensures DistinctIds(Entries(m, ids)) && Ids(Entries(m, ids)) == Members(ids)
  {
    var q := Entries(m, ids);
    forall id | id in Members(ids) ensures id in Ids(q) {
      var i :| 0 <= i < |ids| && ids[i] == id;
      assert q[i].id == id;
    }
  }

  /** The queue names the map's keys, once each. */
  lemma QueueFacts(m: map<KeyId, MessageKey>, order: seq<KeyId>)
    requires StoreValid(m, order)
    ensures var q := QueueOf(m, order); |q| == |m| && DistinctIds(q) && Ids(q) == m.Keys
  {
    FullOrderFacts(m.Keys, order);
    MembersIn(FullOrder(m.Keys, order), m);
    EntriesFacts(m, FullOrder(m.Keys, order));
  }

  lemma LookupAgrees(m: map<KeyId, MessageKey>, order: seq<KeyId>, id: KeyId)
    requires StoreValid(m, order)
    ensures id in m <==> Find(QueueOf(m, order), id).Some?
    ensures id in m ==> Find(QueueOf(m, order), id).value == m[id]
  {
    QueueFacts(m, order);
    FindSound(QueueOf(m, order), id);
    if id in m {
      var e := Entry(id, Find(QueueOf(m, order), id).value);
      var i :| 0 <= i < |QueueOf(m, order)| && QueueOf(m, order)[i] == e;
    }
  }

  /** A new key goes to the end. */
  lemma InsertNew(m: map<KeyId, MessageKey>, order: seq<KeyId>, id: KeyId, key: MessageKey)
    requires StoreValid(m, order) && id !in m
    ensures StoreValid(m[id := key], order + [id])
    ensures Members(order) == m.Keys ==> Members(order + [id]) == m[id := key].Keys
    ensures QueueOf(m[id := key], order + [id]) == Put(QueueOf(m, order), Entry(id, key))
  {
    AppendedOrder(m, order, id, key);
    QueueFacts(m, order);
    PutFresh(QueueOf(m, order), Entry(id, key));
    FullOrderFacts(m.Keys, order);
    MembersIn(FullOrder(m.Keys, order), m);
    EntriesExtended(m, FullOrder(m.Keys, order), id, key);
  }

  lemma AppendedOrder(m: map<KeyId, MessageKey>, order: seq<KeyId>, id: KeyId, key: MessageKey)
    requires StoreValid(m, order) && id !in m
    ensures StoreValid(m[id := key], order + [id])
    ensures Members(order) == m.Keys ==> Members(order + [id]) == m[id := key].Keys
    ensures FullOrder(m[id := key].Keys, order + [id]) == FullOrder(m.Keys, order) + [id]
  {
    var order2 := order + [id];
    MembersIn(order, m);
    assert Members(order2) == Members(order) + {id};
    assert m[id := key].Keys - Members(order2) == m.Keys - Members(order);
  }

  lemma EntriesExtended(m: map<KeyId, MessageKey>, ids: seq<KeyId>, id: KeyId, key: MessageKey)
    requires AllIn(ids, m) && id !in m
    ensures AllIn(ids + [id], m[id := key])
    ensures Entries(m[id := key], ids + [id]) == Entries(m, ids) + [Entry(id, key)]
  {
  }

  /** An overwritten key keeps its place. */
  lemma InsertOld(m: map<KeyId, MessageKey>, order: seq<KeyId>, id: KeyId, key: MessageKey)
    requires StoreValid(m, order) && id in m
    ensures StoreValid(m[id := key], order) && m[id := key].Keys == m.Keys
    ensures QueueOf(m[id := key], order) == Put(QueueOf(m, order), Entry(id, key))
  {
    assert m[id := key].Keys == m.Keys;
    FullOrderFacts(m.Keys, order);
    MembersIn(FullOrder(m.Keys, order), m);
    EntriesOverwritten(m, FullOrder(m.Keys, order), id, key);
  }

  lemma EntriesOverwritten(m: map<KeyId, MessageKey>, ids: seq<KeyId>, id: KeyId, key: MessageKey)
    requires AllIn(ids, m) && Distinct(ids) && id in Members(ids)
    ensures AllIn(ids, m[id := key])
    ensures Entries(m[id := key], ids) == Put(Entries(m, ids), Entry(id, key))
  {
    var i :| 0 <= i < |ids| && ids[i] == id;
    EntriesFacts(m, ids);
    PutAt(Entries(m, ids), Entry(id, key), i);
    assert Entries(m[id := key], ids) == Entries(m, ids)[i := Entry(id, key)];
  }

  lemma {:induction false} PutAt(q: Queue, e: Entry, i: nat)
    requires DistinctIds(q) && i < |q| && q[i].id == e.id
    ensures Put(q, e) == q[i := e]
  {
    if i > 0 {
      PutAt(q[1..], e, i - 1);
      assert q[i := e] == [q[0]] + q[1..][i - 1 := e];
    }
  }

  lemma {:induction false} EntriesWithout(m: map<KeyId, MessageKey>, ids: seq<KeyId>, id: KeyId)
    requires AllIn(ids, m)
    ensures AllIn(Retain(ids, id), m - {id})
    ensures Entries(m - {id}, Retain(ids, id)) == Without(Entries(m, ids), id)
  {
    RetainMembers(ids, id);
    if ids != [] {
      assert Entries(m, ids)[1..] == Entries(m, ids[1..]);
      EntriesWithout(m, ids[1..], id);
    }
  }

  /** Consuming a key removes it from map and list. */
  lemma RemoveKey(m: map<KeyId, MessageKey>, order: seq<KeyId>, id: KeyId)
    requires StoreValid(m, order)
    ensures StoreValid(m - {id}, Retain(order, id))
    ensures Members(order) == m.Keys ==> Members(Retain(order, id)) == (m - {id}).Keys
    ensures QueueOf(m - {id}, Retain(order, id)) == Without(QueueOf(m, order), id)
  {
    var rest := m.Keys - Members(order);
    RetainFacts(order, id);
    FullOrderFacts(m.Keys, order);
    MembersIn(FullOrder(m.Keys, order), m);
    assert (m - {id}).Keys - Members(Retain(order, id)) == rest - {id};
    SortedIdsMinus(rest, id);
    RetainConcat(SortedIds(rest), order, id);
    EntriesWithout(m, FullOrder(m.Keys, order), id);
  }

  /** Writing the sorted rest in front of the list does not change the queue. */
  lemma Adopted(m: map<KeyId, MessageKey>, order: seq<KeyId>)
    requires StoreValid(m, order)
    ensures var order2 := FullOrder(m.Keys, order);
            && StoreValid(m, order2) && Members(order2) == m.Keys
            && QueueOf(m, order2) == QueueOf(m, order)
  {
    FullOrderFacts(m.Keys, order);
    NothingLeft(m.Keys, FullOrder(m.Keys, order));
  }

  lemma NothingLeft(keys: set<KeyId>, order: seq<KeyId>)
    requires Members(order) == keys
    ensures FullOrder(keys, order) == order
  {
    SortedIdsFacts({});
    assert keys - Members(order) == {};
  }

  /** With a complete list the queue is in the list's order. */
  lemma CompleteOrder(m: map<KeyId, MessageKey>, order: seq<KeyId>)
    requires StoreValid(m, order) && Members(order) == m.Keys
    ensures var q := QueueOf(m, order);
            |q| == |order| && forall i :: 0 <= i < |order| ==> q[i].id == order[i] && order[i] in m && q[i].key == m[order[i]]
  {
    hide FullOrder;
    NothingLeft(m.Keys, order);
    MembersIn(order, m);
  }

  /** Comparing lengths is a sound and complete test for a list that misses nothing. */
  lemma LengthTest(m: map<KeyId, MessageKey>, order: seq<KeyId>)
    requires StoreValid(m, order)
    ensures |order| == |m| <==> Members(order) == m.Keys
  {
    DistinctSize(order);
    SubsetSameSize(Members(order), m.Keys);
  }

  lemma SubsetSameSize(a: set<KeyId>, b: set<KeyId>)
    requires a <= b
    ensures |a| == |b| <==> a == b
  {
    assert b == a + (b - a);
    assert |b| == |a| + |b - a|;
    if |a| == |b| {
      assert b - a == {};
    }
  }

  /** Evicting the front of a complete list drops the front of the queue. */
  lemma PopOldest(m: map<KeyId, MessageKey>, order: seq<KeyId>)
    requires StoreValid(m, order) && Members(order) == m.Keys && order != []
    ensures StoreValid(m - {order[0]}, order[1..]) && Members(order[1..]) == (m - {order[0]}).Keys
    ensures QueueOf(m - {order[0]}, order[1..]) == QueueOf(m, order)[1..]
    ensures |m - {order[0]}| == |m| - 1
  {
    var m2, order2 := m - {order[0]}, order[1..];
    TailMembers(order);
    NothingLeft(m.Keys, order);
    NothingLeft(m2.Keys, order2);
    QueueFacts(m, order);
    QueueFacts(m2, order2);
    MembersIn(order, m);
    MembersIn(order2, m2);
    EntriesTail(m, order);
  }

  lemma TailMembers(order: seq<KeyId>)
    requires Distinct(order) && order != []
    ensures Distinct(order[1..]) && Members(order[1..]) == Members(order) - {order[0]}
  {
    assert order == [order[0]] + order[1..];
  }

  lemma EntriesTail(m: map<KeyId, MessageKey>, ids: seq<KeyId>)
    requires ids != [] && AllIn(ids, m) && AllIn(ids[1..], m - {ids[0]})
    ensures Entries(m - {ids[0]}, ids[1..]) == Entries(m, ids)[1..]
  {
  }
}
