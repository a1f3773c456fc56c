/**
 Signed prekeys over whole runs of rotation calls, whatever the clock reads: which keys
 were ever current, which are still retained, and why the others are gone.
 */
module PrekeyHistory {
  import opened Wrappers
  import opened Bytes
  import opened Crypto
  import opened Identity

  datatype Call = Call(now: int, next: KeyPair)

  /**
   An identity with its past: every signed prekey that was ever current, in order, the
   index of the call that made each one current, and the clock readings of all calls.
   */
  datatype Record = Record(keys: Keys, issued: seq<SignedPreKey>, born: seq<nat>, clock: seq<int>)

  function Begin(k: Keys): Record {
    Record(k, [k.signedPrekey], [0], [])
  }

  function AfterCall(sc: Scheme, r: Record, c: Call): Record {
    var keys := Rotate(sc, r.keys, c.now, c.next);
    if Due(r.keys, c.now)
    then Record(keys, r.issued + [keys.signedPrekey], r.born + [|r.clock|], r.clock + [c.now])
    else r.(keys := keys, clock := r.clock + [c.now])
  }

  function AfterCalls(sc: Scheme, r: Record, calls: seq<Call>): Record
    decreases |calls|
  {
    if calls == [] then r else AfterCalls(sc, AfterCall(sc, r, calls[0]), calls[1..])
  }

  /** Generated key pairs match, and ids stay below the point of saturation. */
  ghost predicate Usable(calls: seq<Call>, r: Record) {
    && (forall i :: 0 <= i < |calls| ==> Matching(calls[i].next))
    && |r.issued| + |calls| <= U32_MAX
  }

  /** A new identity: its first prekey has id 1 and nothing is retired. */
  ghost predicate NewIdentity(sc: Scheme, k: Keys) {
    && Matching(k.ikSign) && Matching(k.ikDh) && Matching(k.signedPrekey.keypair)
    && k.retired == []
    && k.signedPrekey.id == 1
    && k.signedPrekey.signature == sc.sign(k.ikSign, k.signedPrekey.keypair.pub)
  }

  const MAX_RETAINED: nat := 15

  /** The index of the oldest prekey still held. */
  function Oldest(r: Record): int {
    |r.issued| - 1 - |r.keys.retired|
  }

  /** When prekey `j` stopped being current. */
  function RetiredAt(r: Record, j: nat): int
    requires j + 1 < |r.issued|
  {
    r.issued[j + 1].createdAt
  }

  ghost predicate Issues(sc: Scheme, r: Record) {
    && 1 <= |r.issued| <= U32_MAX
    && r.issued[|r.issued| - 1] == r.keys.signedPrekey
    && (forall j :: 0 <= j < |r.issued| ==>
          && r.issued[j].id == j + 1
          && Matching(r.issued[j].keypair)
          && r.issued[j].signature == sc.sign(r.keys.ikSign, r.issued[j].keypair.pub))
    && (forall i, j :: 0 <= i < j < |r.issued| ==>
          r.issued[j].createdAt - r.issued[i].createdAt >= (j - i) * 172800)
  }

  /** The retired keys are the latest ones retired, in order, each with its retirement time. */
  ghost predicate Suffix(r: Record) {
    && 0 <= Oldest(r)
    && forall i :: 0 <= i < |r.keys.retired| ==>
         r.keys.retired[i] == RetiredSignedPreKey(r.issued[Oldest(r) + i], r.issued[Oldest(r) + i + 1].createdAt)
  }

  ghost predicate Births(r: Record) {
    && |r.born| == |r.issued|
    && forall j :: 1 <= j < |r.born| ==> r.born[j] < |r.clock| && r.clock[r.born[j]] == r.issued[j].createdAt
  }

  /** Among the first `upTo` calls, one since its retirement found the retention of prekey `j` run out. */
  ghost predicate Expired(r: Record, j: nat, upTo: nat)
    requires j + 1 < |r.issued| && |r.born| == |r.issued| && upTo <= |r.clock|
  {
    exists k :: r.born[j + 1] <= k < upTo && r.clock[k] - RetiredAt(r, j) >= 2592000
  }

  /** A retired key was dropped exactly if its retention was found run out. */
  ghost predicate DroppedIffExpired(r: Record, upTo: nat)
    requires |r.born| == |r.issued| && upTo <= |r.clock|
  {
    forall j: nat :: j < |r.issued| - 1 ==> (j < Oldest(r) <==> Expired(r, j, upTo))
  }

  ghost predicate HistoryInv(sc: Scheme, r: Record) {
    && Issues(sc, r) && Suffix(r) && Births(r)
    && |r.keys.retired| <= MAX_RETAINED
    && DroppedIffExpired(r, |r.clock|)
  }

  // ---------- one call ----------

  /** With retirement times in ascending order, expiry drops a prefix. */
  lemma {:induction false} RetainedIsSuffix(retired: seq<RetiredSignedPreKey>, now: int) returns (cut: nat)
    requires forall i, j :: 0 <= i < j < |retired| ==> retired[i].retiredAt <= retired[j].retiredAt
    ensures cut <= |retired| && Retained(retired, now) == retired[cut..]
    ensures forall i :: 0 <= i < |retired| ==> (Live(retired[i], now) <==> i >= cut)
  {
    if retired == [] {
      cut := 0;
    } else {
      var c := RetainedIsSuffix(retired[1..], now);
      if Live(retired[0], now) {
        cut := 0;
        assert forall i :: 0 < i < |retired| ==> Live(retired[i], now);
        assert forall i :: 0 <= i < |retired| - 1 ==> Live(retired[1..][i], now);
        assert [retired[0]] + retired[1..] == retired;
      } else {
        cut := c + 1;
        assert forall i :: 1 <= i < |retired| ==> retired[1..][i - 1] == retired[i];
      }
    }
  }

  lemma {:induction false} MaxIdIsCurrent(id: U32, retired: seq<RetiredSignedPreKey>)
    requires forall i :: 0 <= i < |retired| ==> retired[i].prekey.id <= id
    ensures MaxId(id, retired) == id
    decreases |retired|
  {
    if retired != [] {
      MaxIdIsCurrent(id, retired[1..]);
    }
  }

  /** The record after the first half of a call: the due rotation, with nothing expired yet. */
  function Pushed(sc: Scheme, r: Record, c: Call): Record {
    if Due(r.keys, c.now)
    then var keys := Replaced(sc, r.keys, c.now, c.next);
         Record(keys, r.issued + [keys.signedPrekey], r.born + [|r.clock|], r.clock + [c.now])
    else r.(clock := r.clock + [c.now])
  }

  /** The second half: expiry. */
  function Expire(r: Record, now: int): Record {
    r.(keys := r.keys.(retired := Retained(r.keys.retired, now)))
  }

  lemma CallInHalves(sc: Scheme, r: Record, c: Call)
    ensures AfterCall(sc, r, c) == Expire(Pushed(sc, r, c), c.now)
  {
  }

  /** A rotation issues the next consecutive id. */
  lemma PushedIssues(sc: Scheme, r: Record, c: Call)
    requires Issues(sc, r) && Suffix(r) && Matching(c.next) && |r.issued| < U32_MAX
    ensures Issues(sc, Pushed(sc, r, c))
  {
    if Due(r.keys, c.now) {
      MaxIdIsCurrent(r.keys.signedPrekey.id, r.keys.retired);
      NextIssued(sc, r, c);
    }
  }

  lemma NextIssued(sc: Scheme, r: Record, c: Call)
    requires Issues(sc, r) && Matching(c.next) && |r.issued| < U32_MAX && Due(r.keys, c.now)
    requires MaxId(r.keys.signedPrekey.id, r.keys.retired) == |r.issued|
    ensures Issues(sc, Pushed(sc, r, c))
  {
    var r2, n := Pushed(sc, r, c), |r.issued|;
    assert r2.issued[n] == CreatePrekey(sc, r.keys.ikSign, n + 1, c.next, c.now);
    forall i, j | 0 <= i < j < |r2.issued|
      ensures r2.issued[j].createdAt - r2.issued[i].createdAt >= (j - i) * SPK_ROTATION_SECS
    {
      if j == n && i < n - 1 {
        assert r.issued[n - 1].createdAt - r.issued[i].createdAt >= (n - 1 - i) * SPK_ROTATION_SECS;
      }
    }
  }

  lemma PushedSuffix(sc: Scheme, r: Record, c: Call)
    requires Issues(sc, r) && Suffix(r)
    ensures Suffix(Pushed(sc, r, c)) && Oldest(Pushed(sc, r, c)) == Oldest(r)
  {
    if Due(r.keys, c.now) {
      var n, keys := |r.issued|, Replaced(sc, r.keys, c.now, c.next);
      assert r.issued[n - 1] == r.keys.signedPrekey;
      hide Issues, Suffix, MaxId;
      OneMoreRetired(r, keys.signedPrekey, c.now, Pushed(sc, r, c));
    }
  }

  lemma OneMoreRetired(r: Record, current: SignedPreKey, now: int, r2: Record)
    requires Suffix(r) && |r.issued| > 0 && r.issued[|r.issued| - 1] == r.keys.signedPrekey
    requires current.createdAt == now && r2.issued == r.issued + [current]
    requires r2.keys.retired == r.keys.retired + [RetiredSignedPreKey(r.keys.signedPrekey, now)]
    ensures Suffix(r2) && Oldest(r2) == Oldest(r)
  {
    var lo, l := Oldest(r), |r.keys.retired|;
    assert lo + l == |r.issued| - 1;
    forall i | 0 <= i < l
      ensures r2.keys.retired[i] == RetiredSignedPreKey(r2.issued[lo + i], r2.issued[lo + i + 1].createdAt)
    {
      assert r2.keys.retired[i] == r.keys.retired[i];
    }
  }

  lemma PushedDropped(sc: Scheme, r: Record, c: Call)
    requires Issues(sc, r) && Births(r) && Suffix(r) && DroppedIffExpired(r, |r.clock|)
    ensures Births(Pushed(sc, r, c)) && DroppedIffExpired(Pushed(sc, r, c), |r.clock|)
  {
    var r2 := Pushed(sc, r, c);
    forall j: nat | j < |r2.issued| - 1
      ensures j < Oldest(r2) <==> Expired(r2, j, |r.clock|)
    {
      if j < |r.issued| - 1 {
        assert r2.born[j + 1] == r.born[j + 1] && RetiredAt(r2, j) == RetiredAt(r, j);
        if Expired(r, j, |r.clock|) {
          var k :| r.born[j + 1] <= k < |r.clock| && r.clock[k] - RetiredAt(r, j) >= SPK_RETENTION_SECS;
          assert r2.clock[k] == r.clock[k];
        }
        if Expired(r2, j, |r.clock|) {
          var k :| r2.born[j + 1] <= k < |r.clock| && r2.clock[k] - RetiredAt(r2, j) >= SPK_RETENTION_SECS;
          assert r2.clock[k] == r.clock[k];
        }
      }
    }
  }

  lemma RetirementsSpaced(sc: Scheme, r: Record)
    requires Issues(sc, r) && Suffix(r)
    ensures forall i, j :: 0 <= i < j < |r.keys.retired| ==>
              r.keys.retired[j].retiredAt - r.keys.retired[i].retiredAt >= (j - i) * SPK_ROTATION_SECS
  {
    var lo := Oldest(r);
    forall i, j | 0 <= i < j < |r.keys.retired|
      ensures r.keys.retired[j].retiredAt - r.keys.retired[i].retiredAt >= (j - i) * SPK_ROTATION_SECS
    {
      assert r.issued[lo + j + 1].createdAt - r.issued[lo + i + 1].createdAt >= (j - i) * SPK_ROTATION_SECS;
    }
  }

  lemma SameIssues(sc: Scheme, r: Record, r2: Record)
    requires Issues(sc, r) && r2.issued == r.issued
    requires r2.keys.signedPrekey == r.keys.signedPrekey && r2.keys.ikSign == r.keys.ikSign
    requires Births(r) && r2.born == r.born && r2.clock == r.clock
    ensures Issues(sc, r2) && Births(r2)
  {
  }

  lemma ExpireShape(sc: Scheme, r: Record, r2: Record, cut: nat)
    requires Issues(sc, r) && Suffix(r) && Births(r)
    requires cut <= |r.keys.retired| && r2 == r.(keys := r.keys.(retired := r.keys.retired[cut..]))
    ensures Issues(sc, r2) && Suffix(r2) && Births(r2) && Oldest(r2) == Oldest(r) + cut
  {
    SameIssues(sc, r, r2);
    hide Issues, Births;
    SuffixShortened(r, r2, cut);
  }

  lemma SuffixShortened(r: Record, r2: Record, cut: nat)
    requires Suffix(r) && r2.issued == r.issued
    requires cut <= |r.keys.retired| && r2.keys.retired == r.keys.retired[cut..]
    ensures Suffix(r2) && Oldest(r2) == Oldest(r) + cut
  {
    var lo, lo2, kept := Oldest(r), Oldest(r2), r2.keys.retired;
    forall i | 0 <= i < |kept|
      ensures kept[i] == RetiredSignedPreKey(r2.issued[lo2 + i], r2.issued[lo2 + i + 1].createdAt)
    {
      var j := cut + i;
      assert lo + j == lo2 + i;
      assert kept[i] == r.keys.retired[j];
    }
  }

  /** Expiry keeps the record's shape and drops exactly the keys found run out. */
  lemma ExpireStep(sc: Scheme, r: Record, now: int)
    requires Issues(sc, r) && Suffix(r) && Births(r)
    requires |r.clock| > 0 && r.clock[|r.clock| - 1] == now && DroppedIffExpired(r, |r.clock| - 1)
    ensures var r2 := Expire(r, now);
            && Issues(sc, r2) && Suffix(r2) && Births(r2) && DroppedIffExpired(r2, |r2.clock|)
            && |r2.keys.retired| <= |r.keys.retired|
            && (r2.keys.retired != [] ==> Live(r2.keys.retired[0], now))
  {
    hide Issues;
    RetirementsSpaced(sc, r);
    var cut := RetainedIsSuffix(r.keys.retired, now);
    var r2 := Expire(r, now);
    ExpireShape(sc, r, r2, cut);
    forall j: nat | j < |r2.issued| - 1
      ensures j < Oldest(r2) <==> Expired(r2, j, |r2.clock|)
    {
      ExpireOne(sc, r, r2, now, cut, j);
    }
  }

  lemma ExpireOne(sc: Scheme, r: Record, r2: Record, now: int, cut: nat, j: nat)
    requires Issues(sc, r) && Suffix(r) && Births(r) && j < |r.issued| - 1
    requires |r.clock| > 0 && r.clock[|r.clock| - 1] == now
    requires j < Oldest(r) <==> Expired(r, j, |r.clock| - 1)
    requires r2 == Expire(r, now) && Oldest(r2) == Oldest(r) + cut
    requires forall i :: 0 <= i < |r.keys.retired| ==> (Live(r.keys.retired[i], now) <==> i >= cut)
    ensures j < Oldest(r2) <==> Expired(r2, j, |r2.clock|)
  {
    hide Issues;
    var last := |r.clock| - 1;
    if j < Oldest(r) {
      var k :| r.born[j + 1] <= k < last && r.clock[k] - RetiredAt(r, j) >= SPK_RETENTION_SECS;
      assert r2.clock[k] - RetiredAt(r2, j) >= SPK_RETENTION_SECS;
    } else {
      var key := r.keys.retired[j - Oldest(r)];
      assert key.retiredAt == RetiredAt(r, j);
      assert Live(key, now) <==> j >= Oldest(r2);
      if j < Oldest(r2) {
        assert r2.clock[last] - RetiredAt(r2, j) >= SPK_RETENTION_SECS;
      } else {
        forall k | r2.born[j + 1] <= k < |r2.clock| ensures r2.clock[k] - RetiredAt(r2, j) < SPK_RETENTION_SECS {
          if k < last {
            assert !Expired(r, j, last);
          }
        }
      }
    }
  }

  /** Retirements are 2 days apart and retention is 30 days: at most 15 keys are held. */
  lemma AtMostFifteen(sc: Scheme, r: Record, now: int)
    requires Issues(sc, r) && Suffix(r) && r.keys.signedPrekey.createdAt == now
    requires r.keys.retired != [] ==> Live(r.keys.retired[0], now)
    ensures |r.keys.retired| <= MAX_RETAINED
  {
    var n, lo := |r.issued| - 1, Oldest(r);
    if |r.keys.retired| > 1 {
      assert r.issued[n].createdAt - r.issued[lo + 1].createdAt >= (n - (lo + 1)) * SPK_ROTATION_SECS;
    }
  }

  lemma CallKeepsHistory(sc: Scheme, r: Record, c: Call)
    requires HistoryInv(sc, r) && Matching(c.next) && |r.issued| < U32_MAX
    ensures HistoryInv(sc, AfterCall(sc, r, c))
  {
    var r1 := Pushed(sc, r, c);
    CallInHalves(sc, r, c);
    PushedIssues(sc, r, c);
    PushedSuffix(sc, r, c);
    PushedDropped(sc, r, c);
    ExpireStep(sc, r1, c.now);
    if Due(r.keys, c.now) {
      AtMostFifteen(sc, Expire(r1, c.now), c.now);
    }
  }

  /** The history invariant after every sequence of calls, with any clock readings. */
  lemma {:induction false} CallsKeepHistory(sc: Scheme, r: Record, calls: seq<Call>)
    requires HistoryInv(sc, r) && Usable(calls, r)
    ensures HistoryInv(sc, AfterCalls(sc, r, calls))
    decreases |calls|
  {
    if calls != [] {
      CallKeepsHistory(sc, r, calls[0]);
      assert forall i :: 0 <= i < |calls| - 1 ==> calls[1..][i] == calls[i + 1];
      CallsKeepHistory(sc, AfterCall(sc, r, calls[0]), calls[1..]);
    }
  }

  lemma BeginHasHistory(sc: Scheme, k: Keys)
    requires NewIdentity(sc, k)
    ensures HistoryInv(sc, Begin(k))
  {
  }

  /** Identities that rotation calls lead to from a new identity. */
  ghost predicate Lived(sc: Scheme, r: Record) {
    exists k, calls :: NewIdentity(sc, k) && Usable(calls, Begin(k)) && r == AfterCalls(sc, Begin(k), calls)
  }

  lemma LivedHistory(sc: Scheme, r: Record)
    requires Lived(sc, r)
    ensures HistoryInv(sc, r)
  {
    var k, calls :| NewIdentity(sc, k) && Usable(calls, Begin(k)) && r == AfterCalls(sc, Begin(k), calls);
    BeginHasHistory(sc, k);
    CallsKeepHistory(sc, Begin(k), calls);
  }

  // ---------- what holds of every identity ----------

  /**
   At most 15 retired keys are held; their ids are consecutive and end just below the
   current one; their retirement times are at least 2 days apart.
   */
  lemma RetiredKeysOrderly(sc: Scheme, r: Record)
    requires Lived(sc, r)
    ensures |r.keys.retired| <= 15
    ensures forall i :: 0 <= i < |r.keys.retired| ==>
              r.keys.retired[i].prekey.id == r.keys.signedPrekey.id - |r.keys.retired| + i
    ensures forall i, j :: 0 <= i < j < |r.keys.retired| ==>
              r.keys.retired[j].retiredAt - r.keys.retired[i].retiredAt >= (j - i) * 172800
  {
    LivedHistory(sc, r);
    RetirementsSpaced(sc, r);
  }

  lemma {:induction false} FindRetiredAt(retired: seq<RetiredSignedPreKey>, first: nat, id: U32)
    requires forall i :: 0 <= i < |retired| ==> retired[i].prekey.id == first + i
    ensures FindRetired(retired, id) ==
              if first <= id < first + |retired| then Some(retired[id - first].prekey) else None
    decreases |retired|
  {
    if retired != [] {
      assert forall i :: 0 <= i < |retired| - 1 ==> retired[1..][i] == retired[i + 1];
      FindRetiredAt(retired[1..], first + 1, id);
    }
  }

  /**
   Whatever prekey was ever published, looking up its id later gives that very prekey or
   nothing, and gives nothing exactly if some rotation call since its retirement came at
   or after its retirement plus 30 days.
   */
  lemma PublishedPrekeyResolves(sc: Scheme, r: Record, j: nat)
    requires Lived(sc, r) && j < |r.issued|
    ensures r.issued[j].id == j + 1 <= U32_MAX && |r.born| == |r.issued|
    ensures var found := SignedPrekeyById(r.keys, j + 1);
            && (found == Some(r.issued[j]) || found == None)
            && (found == None <==> j < |r.issued| - 1 && Expired(r, j, |r.clock|))
  {
    LivedHistory(sc, r);
    IssuedResolves(sc, r, j);
  }

  lemma RetiredIds(sc: Scheme, r: Record)
    requires Issues(sc, r) && Suffix(r)
    ensures forall i :: 0 <= i < |r.keys.retired| ==> r.keys.retired[i].prekey.id == Oldest(r) + 1 + i
  {
  }

  lemma IssuedResolves(sc: Scheme, r: Record, j: nat)
    requires HistoryInv(sc, r) && j < |r.issued|
    ensures r.issued[j].id == j + 1 <= U32_MAX
    ensures var found := SignedPrekeyById(r.keys, j + 1);
            && (found == Some(r.issued[j]) || found == None)
            && (found == None <==> j < |r.issued| - 1 && Expired(r, j, |r.clock|))
  {
    hide Births, Expired, FindRetired;
    RetiredIds(sc, r);
    if j < |r.issued| - 1 {
      FindRetiredAt(r.keys.retired, Oldest(r) + 1, j + 1);
    }
  }

  /** Later calls add to what was issued and touch none of the other keys. */
  lemma {:induction false} CallsExtend(sc: Scheme, r: Record, calls: seq<Call>)
    ensures var r2 := AfterCalls(sc, r, calls);
            && r.issued <= r2.issued
            && r2.keys.ikSign == r.keys.ikSign && r2.keys.ikDh == r.keys.ikDh && r2.keys.nostr == r.keys.nostr
    decreases |calls|
  {
    if calls != [] {
      CallsExtend(sc, AfterCall(sc, r, calls[0]), calls[1..]);
    }
  }

  /** A call issues a new prekey exactly if it finds the current one 2 days old, and then that becomes the current one. */
  lemma IssuedIffOld(sc: Scheme, r: Record, c: Call)
    ensures var r2 := AfterCall(sc, r, c);
            && r2.clock == r.clock + [c.now]
            && (if c.now - r.keys.signedPrekey.createdAt >= 172800 then r2.issued == r.issued + [r2.keys.signedPrekey]
                else r2.issued == r.issued && r2.keys.signedPrekey == r.keys.signedPrekey)
  {
  }

  ghost predicate Young(r: Record) {
    r.clock != [] ==> r.clock[|r.clock| - 1] - r.keys.signedPrekey.createdAt < 172800
  }

  lemma {:induction false} CallsLeaveYoung(sc: Scheme, r: Record, calls: seq<Call>)
    requires Young(r)
    ensures Young(AfterCalls(sc, r, calls))
    decreases |calls|
  {
    if calls != [] {
      RotationOutcome(sc, r.keys, calls[0].now, calls[0].next);
      IssuedIffOld(sc, r, calls[0]);
      hide Rotate;
      CallsLeaveYoung(sc, AfterCall(sc, r, calls[0]), calls[1..]);
    }
  }

  /** In every identity with a past, the current prekey was younger than 2 days at the last call. */
  lemma CurrentIsYoung(sc: Scheme, r: Record)
    requires Lived(sc, r) && r.clock != []
    ensures r.clock[|r.clock| - 1] - r.keys.signedPrekey.createdAt < 172800
  {
    var k, calls :| NewIdentity(sc, k) && Usable(calls, Begin(k)) && r == AfterCalls(sc, Begin(k), calls);
    CallsLeaveYoung(sc, Begin(k), calls);
  }

  /** An identity as created starts such a history, and its 50 one-time prekeys are numbered from 1. */
  lemma CreatedIsNew(
    sc: Scheme, ikSign: KeyPair, ikDh: KeyPair, nostr: KeyPair, spk: KeyPair, opks: seq<KeyPair>, now: int)
    requires |opks| == 50 && Matching(ikSign) && Matching(ikDh) && Matching(spk)
    ensures var k := CreateIdentity(sc, ikSign, ikDh, nostr, spk, opks, now);
            && NewIdentity(sc, k) && Lived(sc, Begin(k))
            && k.ikSign == ikSign && k.ikDh == ikDh && k.nostr == nostr
            && k.signedPrekey.keypair == spk && k.signedPrekey.createdAt == now
            && |k.oneTimePrekeys| == 50
            && forall i :: 0 <= i < 50 ==> k.oneTimePrekeys[i] == OneTimePreKey(i + 1, opks[i])
  {
    var k := CreateIdentity(sc, ikSign, ikDh, nostr, spk, opks, now);
    assert Begin(k) == AfterCalls(sc, Begin(k), []) && Usable([], Begin(k));
  }
}
