/**
 Group rosters and the bytes that the admin of a group signs. Two rosters have the same
 signed bytes exactly if they agree on all that is covered, up to the order of members.
 */
module RosterBytes {
  import opened Wrappers
  import opened Bytes
  import opened Sorting
  import opened Json
  import opened JsonReader

  datatype FileRef = FileRef(
    url: Bytes, key: Bytes, sha256: Bytes, mime: Bytes, name: Bytes, size: U64, thumb: Option<Bytes>)

  datatype MemberBundle = MemberBundle(
    handle: Bytes, ikSignPub: Bytes, ikDhPub: Bytes, nostrPub: Bytes,
    spkId: U32, spkPub: Bytes, spkSig: Bytes, idSig: Bytes)

  datatype GroupRoster = GroupRoster(
    groupId: Bytes, name: Bytes, photo: Option<FileRef>, adminPub: Bytes,
    members: seq<MemberBundle>, epoch: U64, signature: Bytes)

  /** The text "trino/roster/v2" and a zero byte. */
  const ROSTER_SIG_DOMAIN: Bytes :=
    [116, 114, 105, 110, 111, 47, 114, 111, 115, 116, 101, 114, 47, 118, 50, 0]

  function PhotoJson(photo: Option<FileRef>): Json {
    match photo
    case None => Null
    case Some(p) => Arr([Str(p.url), Str(p.key), Str(p.sha256), Str(p.mime), Str(p.name), Num(p.size)])
  }

  function MemberJson(m: MemberBundle): Json {
    Arr([Str(m.ikSignPub), Str(m.ikDhPub), Str(m.nostrPub), Num(m.spkId),
         Str(m.spkPub), Str(m.spkSig), Str(m.idSig), Str(m.handle)])
  }

  function MembersJson(members: seq<MemberBundle>): (r: seq<Json>)
    ensures |r| == |members|
    ensures forall i :: 0 <= i < |r| ==> r[i] == MemberJson(members[i])
  {
    seq(|members|, i requires 0 <= i < |members| => MemberJson(members[i]))
  }

  function SortedMembers(members: seq<MemberBundle>): seq<Json> {
    Sort(Print, MembersJson(members))
  }

  function RosterSigningBytes(
    groupId: Bytes, name: Bytes, photo: Option<FileRef>, adminPub: Bytes, members: seq<MemberBundle>, epoch: U64): Bytes
  {
    ROSTER_SIG_DOMAIN
    + Print(Arr([Str(groupId), Str(name), PhotoJson(photo), Str(adminPub), Arr(SortedMembers(members)), Num(epoch)]))
  }

  function SignedBytes(r: GroupRoster): Bytes {
    RosterSigningBytes(r.groupId, r.name, r.photo, r.adminPub, r.members, r.epoch)
  }

  // ---------- members as a multiset ----------

  lemma MemberJsonInjective(m: MemberBundle, n: MemberBundle)
    requires MemberJson(m) == MemberJson(n)
    ensures m == n
  {
    var a, b := MemberJson(m).items, MemberJson(n).items;
    assert a[0] == b[0] && a[1] == b[1] && a[2] == b[2] && a[3] == b[3];
    assert a[4] == b[4] && a[5] == b[5] && a[6] == b[6] && a[7] == b[7];
  }

  /** An element occurs as often as its image. */
  lemma {:induction false} SameCount(members: seq<MemberBundle>, m: MemberBundle)
    ensures multiset(MembersJson(members))[MemberJson(m)] == multiset(members)[m]
  {
    hide MemberJson;
    if members != [] {
      var rest := members[1..];
      assert members == [members[0]] + rest;
      ImagesCons(members);
      SameCount(rest, m);
      hide MembersJson;
      if MemberJson(members[0]) == MemberJson(m) {
        MemberJsonInjective(members[0], m);
      }
    }
  }

  lemma ImagesCons(members: seq<MemberBundle>)
    requires members != []
    ensures MembersJson(members) == [MemberJson(members[0])] + MembersJson(members[1..])
  {
    hide MemberJson;
  }

  lemma ImagesIncluded(a: seq<MemberBundle>, b: seq<MemberBundle>)
    requires multiset(a) == multiset(b)
    ensures multiset(MembersJson(a)) <= multiset(MembersJson(b))
  {
    forall y | y in multiset(MembersJson(a))
      ensures multiset(MembersJson(a))[y] <= multiset(MembersJson(b))[y]
    {
      var i :| 0 <= i < |a| && MembersJson(a)[i] == y;
      SameCount(a, a[i]);
      SameCount(b, a[i]);
    }
  }

  lemma SameImagesIff(a: seq<MemberBundle>, b: seq<MemberBundle>)
    ensures multiset(MembersJson(a)) == multiset(MembersJson(b)) <==> multiset(a) == multiset(b)
  {
    if multiset(a) == multiset(b) {
      ImagesIncluded(a, b);
      ImagesIncluded(b, a);
    } else if multiset(MembersJson(a)) == multiset(MembersJson(b)) {
      forall m: MemberBundle ensures multiset(a)[m] == multiset(b)[m] {
        SameCount(a, m);
        SameCount(b, m);
      }
      assert false;
    }
  }

  lemma PrintSeparates()
    ensures Separates(Print)
  {
    forall v, w | Print(v) == Print(w) ensures v == w {
      PrintInjective(v, w);
    }
  }

  lemma SortedMembersIff(a: seq<MemberBundle>, b: seq<MemberBundle>)
    ensures SortedMembers(a) == SortedMembers(b) <==> multiset(a) == multiset(b)
  {
    hide MembersJson;
    SortCorrect(Print, MembersJson(a));
    SortCorrect(Print, MembersJson(b));
    SameImagesIff(a, b);
    PrintSeparates();
    if multiset(a) == multiset(b) {
      SortedFormUnique(Print, SortedMembers(a), SortedMembers(b));
    }
  }

  // ---------- what is signed ----------

  function WithoutThumb(photo: Option<FileRef>): Option<FileRef> {
    match photo
    case None => None
    case Some(p) => Some(p.(thumb := None))
  }

  lemma PhotoJsonIff(p: Option<FileRef>, q: Option<FileRef>)
    ensures PhotoJson(p) == PhotoJson(q) <==> WithoutThumb(p) == WithoutThumb(q)
  {
    if p.Some? && q.Some? {
      var a, b := PhotoJson(p).items, PhotoJson(q).items;
      if a == b {
        assert a[0] == b[0] && a[1] == b[1] && a[2] == b[2] && a[3] == b[3] && a[4] == b[4] && a[5] == b[5];
      }
    }
  }

  /** All that the signature of the admin covers: everything but the thumbnail and the order of members. */
  predicate SameContents(r: GroupRoster, s: GroupRoster) {
    && r.groupId == s.groupId
    && r.name == s.name
    && WithoutThumb(r.photo) == WithoutThumb(s.photo)
    && r.adminPub == s.adminPub
    && multiset(r.members) == multiset(s.members)
    && r.epoch == s.epoch
  }

  lemma SignedBytesIff(r: GroupRoster, s: GroupRoster)
    ensures SignedBytes(r) == SignedBytes(s) <==> SameContents(r, s)
  {
    hide PhotoJson, WithoutThumb, SortedMembers, Print;
    PhotoJsonIff(r.photo, s.photo);
    SortedMembersIff(r.members, s.members);
    var a := [Str(r.groupId), Str(r.name), PhotoJson(r.photo), Str(r.adminPub), Arr(SortedMembers(r.members)), Num(r.epoch)];
    var b := [Str(s.groupId), Str(s.name), PhotoJson(s.photo), Str(s.adminPub), Arr(SortedMembers(s.members)), Num(s.epoch)];
    if SignedBytes(r) == SignedBytes(s) {
      var k := |ROSTER_SIG_DOMAIN|;
      assert SignedBytes(r)[k..] == Print(Arr(a)) && SignedBytes(s)[k..] == Print(Arr(b));
      PrintInjective(Arr(a), Arr(b));
      assert a[0] == b[0] && a[1] == b[1] && a[2] == b[2] && a[3] == b[3] && a[4] == b[4] && a[5] == b[5];
    }
  }

  // ---------- the format ----------

  /**
   Read back, the signed bytes are the domain text and one array: group id, name, photo or null,
   admin key, members and epoch. The members stand in ascending order of their printed form.
   */
  lemma SignedBytesFormat(r: GroupRoster)
    ensures |SignedBytes(r)| >= 16
    ensures SignedBytes(r)[..16] == [116, 114, 105, 110, 111, 47, 114, 111, 115, 116, 101, 114, 47, 118, 50, 0]
    ensures match ReadValue(SignedBytes(r)[16..])
            case Some((Arr(fields), rest)) =>
              && rest == [] && |fields| == 6
              && fields[0] == Str(r.groupId) && fields[1] == Str(r.name)
              && fields[2] == (match r.photo
                               case None => Null
                               case Some(p) => Arr([Str(p.url), Str(p.key), Str(p.sha256), Str(p.mime), Str(p.name), Num(p.size)]))
              && fields[3] == Str(r.adminPub) && fields[5] == Num(r.epoch)
              && fields[4].Arr? && SortedBy(Print, fields[4].items)
              && multiset(fields[4].items) == multiset(MembersJson(r.members))
            case _ => false
    ensures forall i :: 0 <= i < |r.members| ==>
              var m := r.members[i];
              MembersJson(r.members)[i] == Arr([Str(m.ikSignPub), Str(m.ikDhPub), Str(m.nostrPub), Num(m.spkId),
                                                Str(m.spkPub), Str(m.spkSig), Str(m.idSig), Str(m.handle)])
  {
    hide SortedMembers, Print, ReadValue, SortedBy;
    var fields := [Str(r.groupId), Str(r.name), PhotoJson(r.photo), Str(r.adminPub), Arr(SortedMembers(r.members)), Num(r.epoch)];
    assert SignedBytes(r)[16..] == Print(Arr(fields)) + [];
    PrintReads(Arr(fields), []);
    SortedMembersFacts(r.members);
  }

  lemma SortedMembersFacts(members: seq<MemberBundle>)
    ensures SortedBy(Print, SortedMembers(members))
    ensures multiset(SortedMembers(members)) == multiset(MembersJson(members))
  {
    SortCorrect(Print, MembersJson(members));
  }
}
