/**
 Validation of group rosters, and the builders with which the admin of a group makes them.
 */
module Roster {
  import opened Wrappers
  import opened Bytes
  import opened Crypto
  import opened Identity
  import opened RosterBytes

  const MAX_GROUP_MEMBERS: nat := 128

  datatype RosterError =
    | Empty
    | TooManyMembers(count: nat)
    | AdminNotMember
    | DuplicateMember
    | InvalidMemberBinding(index: nat)
    | InvalidSignature

  datatype GroupError = NotAdmin | RemoveAdmin | Full | InvalidRoster(error: RosterError)

  // ---------- members ----------

  predicate IsCanonicalHex(s: Bytes, len: nat) {
    |s| == 2 * len && forall i :: 0 <= i < |s| ==> IsLowerHex(s[i])
  }

  function FromPublicBundle(handle: Bytes, b: PublicBundle): MemberBundle {
    MemberBundle(handle, b.ikSignPub, b.ikDhPub, b.nostrPub, b.spkId, b.spkPub, b.spkSig, b.idSig)
  }

  function ToPublicBundle(m: MemberBundle): PublicBundle {
    PublicBundle(m.ikSignPub, m.ikDhPub, m.nostrPub, m.spkId, m.spkPub, m.spkSig, m.idSig)
  }

  predicate MemberIsBound(sc: Scheme, m: MemberBundle) {
    && IsCanonicalHex(m.ikSignPub, 32) && IsCanonicalHex(m.ikDhPub, 32) && IsCanonicalHex(m.nostrPub, 32)
    && IsCanonicalHex(m.spkPub, 32) && IsCanonicalHex(m.spkSig, 64) && IsCanonicalHex(m.idSig, 64)
    && VerifyBundleBinding(sc, ToPublicBundle(m))
  }

  predicate Lists(members: seq<MemberBundle>, ikSignPub: Bytes) {
    exists i :: 0 <= i < |members| && members[i].ikSignPub == ikSignPub
  }

  predicate IsMember(r: GroupRoster, ikSignPub: Bytes) {
    Lists(r.members, ikSignPub)
  }

  /** The keys by which clients look a member up. */
  function KeyOf(m: MemberBundle, k: nat): Bytes
    requires k < 3
  {
    [m.ikSignPub, m.ikDhPub, m.nostrPub][k]
  }

  /** No key occurs twice, in the same member or in another, in the same role or in another. */
  predicate DistinctKeys(members: seq<MemberBundle>) {
    forall i, k, j, l :: 0 <= i < |members| && 0 <= j < |members| && 0 <= k < 3 && 0 <= l < 3 ==>
      KeyOf(members[i], k) == KeyOf(members[j], l) ==> i == j && k == l
  }

  function FirstUnbound(sc: Scheme, members: seq<MemberBundle>): (i: nat)
    ensures i <= |members|
    ensures i < |members| ==> !MemberIsBound(sc, members[i])
    ensures forall j :: 0 <= j < i ==> MemberIsBound(sc, members[j])
  {
    if members == [] || !MemberIsBound(sc, members[0]) then 0 else 1 + FirstUnbound(sc, members[1..])
  }

  // ---------- validation ----------

  predicate SignatureValid(sc: Scheme, r: GroupRoster) {
    var adminPub, sig := DecodeExactly(r.adminPub, 32), DecodeExactly(r.signature, 64);
    adminPub.Ok? && sig.Ok? && sc.verify(adminPub.value, SignedBytes(r), sig.value)
  }

  /** What a valid roster is, whatever is looked at first. */
  predicate WellFormed(sc: Scheme, r: GroupRoster) {
    && 1 <= |r.members| <= 128
    && IsMember(r, r.adminPub)
    && DistinctKeys(r.members)
    && (forall i :: 0 <= i < |r.members| ==> MemberIsBound(sc, r.members[i]))
    && SignatureValid(sc, r)
  }

  /** The first thing found wrong with a roster. */
  function Validate(sc: Scheme, r: GroupRoster): Result<(), RosterError> {
    var count := |r.members|;
    if count == 0 then Err(Empty)
    else if count > MAX_GROUP_MEMBERS then Err(TooManyMembers(count))
    else if !IsMember(r, r.adminPub) then Err(AdminNotMember)
    else if !DistinctKeys(r.members) then Err(DuplicateMember)
    else if FirstUnbound(sc, r.members) < count then Err(InvalidMemberBinding(FirstUnbound(sc, r.members)))
    else if !SignatureValid(sc, r) then Err(InvalidSignature)
    else Ok(())
  }

  lemma ValidateIff(sc: Scheme, r: GroupRoster)
    ensures Validate(sc, r).Ok? <==> WellFormed(sc, r)
  {
    hide DistinctKeys, MemberIsBound, SignatureValid;
  }

  /** A roster carries the admin's signature: 32 and 64 bytes in hexadecimal that verify over the signed bytes. */
  lemma SignatureValidIff(sc: Scheme, r: GroupRoster)
    ensures SignatureValid(sc, r) <==>
            match (HexDecode(r.adminPub), HexDecode(r.signature))
            case (Some(adminPub), Some(sig)) =>
              |adminPub| == 32 && |sig| == 64
              && sc.verify(adminPub, RosterSigningBytes(r.groupId, r.name, r.photo, r.adminPub, r.members, r.epoch), sig)
            case _ => false
  {
  }

  predicate LowerHexOf(s: Bytes, digits: nat) {
    |s| == digits && forall i :: 0 <= i < |s| ==> 48 <= s[i] <= 57 || 97 <= s[i] <= 102
  }

  /**
   A member is bound exactly if all keys and signatures are lowercase hexadecimal of the right
   length, the identity key signed the prekey, and it signed the two transport keys.
   */
  lemma MemberIsBoundIff(sc: Scheme, m: MemberBundle)
    ensures MemberIsBound(sc, m) <==>
            && LowerHexOf(m.ikSignPub, 64) && LowerHexOf(m.ikDhPub, 64) && LowerHexOf(m.nostrPub, 64)
            && LowerHexOf(m.spkPub, 64) && LowerHexOf(m.spkSig, 128) && LowerHexOf(m.idSig, 128)
            && match (HexDecode(m.ikSignPub), HexDecode(m.spkPub), HexDecode(m.spkSig),
                      HexDecode(m.ikDhPub), HexDecode(m.nostrPub), HexDecode(m.idSig))
               case (Some(ik), Some(spk), Some(spkSig), Some(dh), Some(nostr), Some(idSig)) =>
                 |ik| == 32 && |spk| == 32 && |spkSig| == 64 && |dh| == 32 && |nostr| == 32 && |idSig| == 64
                 && sc.verify(ik, spk, spkSig) && sc.verify(ik, dh + nostr, idSig)
               case _ => false
  {
    VerifyBundleIff(sc, ToPublicBundle(m));
    VerifyBundleBindingIff(sc, ToPublicBundle(m));
    hide VerifyBundle, VerifyBundleBinding;
  }

  /** A bundle made into a member and back is the same. */
  lemma BundleRoundTrip(handle: Bytes, b: PublicBundle)
    ensures FromPublicBundle(handle, b).handle == handle && ToPublicBundle(FromPublicBundle(handle, b)) == b
  {
  }

  /** Size and admin are in order. */
  predicate Peopled(r: GroupRoster) {
    1 <= |r.members| <= 128 && exists i :: 0 <= i < |r.members| && r.members[i].ikSignPub == r.adminPub
  }

  /** Two places among all members' three keys hold the same key. */
  ghost predicate SharesKey(members: seq<MemberBundle>) {
    exists i, k, j, l :: 0 <= i < |members| && 0 <= j < |members| && 0 <= k < 3 && 0 <= l < 3 && (i != j || k != l)
                         && KeyOf(members[i], k) == KeyOf(members[j], l)
  }

  /** Each fault is reported exactly if it is there and none of those looked for before it is. */
  lemma ValidateOutcome(sc: Scheme, r: GroupRoster)
    ensures Validate(sc, r) == Err(Empty) <==> r.members == []
    ensures forall n :: Validate(sc, r) == Err(TooManyMembers(n)) <==> n == |r.members| > 128
    ensures Validate(sc, r) == Err(AdminNotMember) <==> 1 <= |r.members| <= 128 && !Peopled(r)
    ensures Validate(sc, r) == Err(DuplicateMember) <==> Peopled(r) && SharesKey(r.members)
    ensures forall i: nat :: Validate(sc, r) == Err(InvalidMemberBinding(i)) <==>
              && Peopled(r) && !SharesKey(r.members)
              && 0 <= i < |r.members| && !MemberIsBound(sc, r.members[i])
              && forall j :: 0 <= j < i ==> MemberIsBound(sc, r.members[j])
    ensures Validate(sc, r) == Err(InvalidSignature) <==>
              && Peopled(r) && !SharesKey(r.members)
              && (forall i :: 0 <= i < |r.members| ==> MemberIsBound(sc, r.members[i]))
              && !SignatureValid(sc, r)
  {
    hide MemberIsBound, SignatureValid;
    NoSharedKey(r.members);
    hide DistinctKeys, SharesKey;
  }

  lemma NoSharedKey(members: seq<MemberBundle>)
    ensures SharesKey(members) <==> !DistinctKeys(members)
  {
    hide KeyOf;
  }

  /** Position (i, k) is among the first n members, or the first l keys of the one after them. */
  predicate Earlier(i: nat, k: nat, n: nat, l: nat) {
    i < n || (i == n && k < l)
  }

  /** The keys up to a position are those seen, and no two of them are the same. */
  ghost predicate Seen(members: seq<MemberBundle>, seen: set<Bytes>, n: nat, l: nat) {
    && (forall x <- seen :: SeenAt(members, x, n, l))
    && (forall i, k :: 0 <= i < |members| && 0 <= k < 3 && Earlier(i, k, n, l) ==> KeyOf(members[i], k) in seen)
    && (forall i, k, j, m :: 0 <= i < |members| && 0 <= j < |members| && 0 <= k < 3 && 0 <= m < 3
                             && Earlier(i, k, n, l) && Earlier(j, m, n, l) ==>
          KeyOf(members[i], k) == KeyOf(members[j], m) ==> i == j && k == m)
  }

  ghost predicate SeenAt(members: seq<MemberBundle>, x: Bytes, n: nat, l: nat) {
    exists i, k :: 0 <= i < |members| && 0 <= k < 3 && Earlier(i, k, n, l) && KeyOf(members[i], k) == x
  }

  lemma SeenOneMore(members: seq<MemberBundle>, seen: set<Bytes>, n: nat, l: nat)
    requires n < |members| && l < 3 && Seen(members, seen, n, l)
    ensures KeyOf(members[n], l) in seen ==> !DistinctKeys(members)
    ensures KeyOf(members[n], l) !in seen ==> Seen(members, seen + {KeyOf(members[n], l)}, n, l + 1)
  {
    hide KeyOf;
    var x := KeyOf(members[n], l);
    if x in seen {
      assert SeenAt(members, x, n, l);
    } else {
      forall y | y in seen + {x} ensures SeenAt(members, y, n, l + 1) {
        if y != x {
          var i, k :| 0 <= i < |members| && 0 <= k < 3 && Earlier(i, k, n, l) && KeyOf(members[i], k) == y;
          assert Earlier(i, k, n, l + 1);
        } else {
          assert Earlier(n, l, n, l + 1);
        }
      }
    }
  }

  lemma SeenNextMember(members: seq<MemberBundle>, seen: set<Bytes>, n: nat)
    requires n < |members| && Seen(members, seen, n, 3)
    ensures Seen(members, seen, n + 1, 0)
  {
    hide KeyOf;
    forall x | x in seen ensures SeenAt(members, x, n + 1, 0) {
      var i, k :| 0 <= i < |members| && 0 <= k < 3 && Earlier(i, k, n, 3) && KeyOf(members[i], k) == x;
      assert Earlier(i, k, n + 1, 0);
    }
  }

  /** One pass over the keys with a set finds out whether they are all different. */
  method ValidateRoster(sc: Scheme, r: GroupRoster) returns (v: Result<(), RosterError>)
    ensures v == Validate(sc, r)
    ensures v.Ok? <==> WellFormed(sc, r)
  {
    hide DistinctKeys, Seen, MemberIsBound, SignatureValid, KeyOf;
    var count := |r.members|;
    if count == 0 {
      return Err(Empty);
    }
    if count > MAX_GROUP_MEMBERS {
      return Err(TooManyMembers(count));
    }
    if !IsMember(r, r.adminPub) {
      return Err(AdminNotMember);
    }
    var seen: set<Bytes> := {};
    SeenNothing(r.members);
    for n := 0 to count
      invariant Seen(r.members, seen, n, 0)
    {
      for l := 0 to 3
        invariant Seen(r.members, seen, n, l)
      {
        var key := KeyOf(r.members[n], l);
        SeenOneMore(r.members, seen, n, l);
        if key in seen {
          return Err(DuplicateMember);
        }
        seen := seen + {key};
      }
      SeenNextMember(r.members, seen, n);
    }
    SeenAll(r.members, seen);
    ValidateIff(sc, r);
    for i := 0 to count
      invariant forall j :: 0 <= j < i ==> MemberIsBound(sc, r.members[j])
    {
      if !MemberIsBound(sc, r.members[i]) {
        return Err(InvalidMemberBinding(i));
      }
    }
    if SignatureValid(sc, r) {
      v := Ok(());
    } else {
      v := Err(InvalidSignature);
    }
  }

  lemma SeenNothing(members: seq<MemberBundle>)
    ensures Seen(members, {}, 0, 0)
  {
    hide KeyOf;
  }

  lemma SeenAll(members: seq<MemberBundle>, seen: set<Bytes>)
    requires Seen(members, seen, |members|, 0)
    ensures DistinctKeys(members)
  {
    hide KeyOf;
  }

  // ---------- builders ----------

  /** The next epoch, as an optimised build computes it. */
  function NextEpoch(epoch: U64): U64 {
    if epoch == U64_MAX then 0 else epoch + 1
  }

  /** A roster with the signature its holder of the identity key gives it. */
  function Signed(sc: Scheme, r: GroupRoster, admin: Keys): GroupRoster {
    r.(signature := Hex(sc.sign(admin.ikSign, SignedBytes(r))))
  }

  function SignUnsigned(
    sc: Scheme, groupId: Bytes, name: Bytes, photo: Option<FileRef>, adminPub: Bytes,
    members: seq<MemberBundle>, epoch: U64, admin: Keys): Result<GroupRoster, GroupError>
  {
    if |members| > MAX_GROUP_MEMBERS then Err(Full)
    else
      var roster := Signed(sc, GroupRoster(groupId, name, photo, adminPub, members, epoch, []), admin);
      match Validate(sc, roster)
      case Err(e) => Err(InvalidRoster(e))
      case Ok(_) => Ok(roster)
  }

  function CreateGroup(sc: Scheme, admin: Keys, adminBundle: MemberBundle, name: Bytes, seed: Key32): Result<GroupRoster, GroupError> {
    SignUnsigned(sc, Hex(seed), name, None, adminBundle.ikSignPub, [adminBundle], 0, admin)
  }

  predicate IsAdmin(r: GroupRoster, admin: Keys) {
    Hex(admin.ikSign.pub) == r.adminPub
  }

  function AddMember(sc: Scheme, r: GroupRoster, admin: Keys, member: MemberBundle): Result<GroupRoster, GroupError> {
    if !IsAdmin(r, admin) then Err(NotAdmin)
    else if IsMember(r, member.ikSignPub) then Ok(r)
    else if |r.members| >= MAX_GROUP_MEMBERS then Err(Full)
    else SignUnsigned(sc, r.groupId, r.name, r.photo, r.adminPub, r.members + [member], NextEpoch(r.epoch), admin)
  }

  /** The members with another identity key than this one. */
  function Others(members: seq<MemberBundle>, ikSignPub: Bytes): seq<MemberBundle> {
    if members == [] then []
    else if members[0].ikSignPub != ikSignPub then [members[0]] + Others(members[1..], ikSignPub)
    else Others(members[1..], ikSignPub)
  }

  function RemoveMember(sc: Scheme, r: GroupRoster, admin: Keys, ikSignPub: Bytes): Result<GroupRoster, GroupError> {
    if !IsAdmin(r, admin) then Err(NotAdmin)
    else if ikSignPub == r.adminPub then Err(RemoveAdmin)
    else SignUnsigned(sc, r.groupId, r.name, r.photo, r.adminPub, Others(r.members, ikSignPub), NextEpoch(r.epoch), admin)
  }

  function SetGroupName(sc: Scheme, r: GroupRoster, admin: Keys, name: Bytes): Result<GroupRoster, GroupError> {
    if !IsAdmin(r, admin) then Err(NotAdmin)
    else SignUnsigned(sc, r.groupId, name, r.photo, r.adminPub, r.members, NextEpoch(r.epoch), admin)
  }

  function SetGroupPhoto(sc: Scheme, r: GroupRoster, admin: Keys, photo: Option<FileRef>): Result<GroupRoster, GroupError> {
    if !IsAdmin(r, admin) then Err(NotAdmin)
    else SignUnsigned(sc, r.groupId, r.name, photo, r.adminPub, r.members, NextEpoch(r.epoch), admin)
  }

  // ---------- what the builders achieve ----------

  /** The outcome of signing a roster as it stands, whoever signs: a full one is refused, an invalid one with its first fault. */
  ghost predicate Attempted(sc: Scheme, r: GroupRoster, admin: Keys, out: Result<GroupRoster, GroupError>) {
    var signed := r.(signature := Hex(sc.sign(admin.ikSign, SignedBytes(r))));
    if |r.members| > 128 then out == Err(Full)
    else if WellFormed(sc, signed) then out == Ok(signed)
    else out.Err? && out.error.InvalidRoster? && Validate(sc, signed) == Err(out.error.error)
  }

  lemma SignAttempted(sc: Scheme, r: GroupRoster, admin: Keys)
    ensures Attempted(sc, r, admin, SignUnsigned(sc, r.groupId, r.name, r.photo, r.adminPub, r.members, r.epoch, admin))
  {
    var bare := GroupRoster(r.groupId, r.name, r.photo, r.adminPub, r.members, r.epoch, []);
    assert SignedBytes(bare) == SignedBytes(r);
    assert Signed(sc, bare, admin) == r.(signature := Hex(sc.sign(admin.ikSign, SignedBytes(r))));
    hide Validate, WellFormed, RosterSigningBytes;
    ValidateIff(sc, Signed(sc, bare, admin));
  }

  /** The epoch after this one, in 64 bits. */
  function EpochAfter(r: GroupRoster): U64 {
    (r.epoch + 1) % 0x1_0000_0000_0000_0000
  }

  /**
   The outcome of every builder for every roster, valid or not, and every identity: one whose
   key is not the admin's is turned away first; otherwise the changed roster is signed as the
   next epoch.
   */
  lemma BuilderOutcome(
    sc: Scheme, r: GroupRoster, who: Keys, m: MemberBundle, ik: Bytes, name: Bytes, photo: Option<FileRef>)
    ensures var (add, remove) := (AddMember(sc, r, who, m), RemoveMember(sc, r, who, ik));
            var (rename, repaint) := (SetGroupName(sc, r, who, name), SetGroupPhoto(sc, r, who, photo));
            if Hex(who.ikSign.pub) != r.adminPub
            then add == Err(NotAdmin) && remove == Err(NotAdmin) && rename == Err(NotAdmin) && repaint == Err(NotAdmin)
            else
              && (if exists i :: 0 <= i < |r.members| && r.members[i].ikSignPub == m.ikSignPub then add == Ok(r)
                  else if |r.members| >= 128 then add == Err(Full)
                  else Attempted(sc, r.(members := r.members + [m], epoch := EpochAfter(r)), who, add))
              && (if ik == r.adminPub then remove == Err(RemoveAdmin)
                  else Attempted(sc, r.(members := Others(r.members, ik), epoch := EpochAfter(r)), who, remove))
              && Attempted(sc, r.(name := name, epoch := EpochAfter(r)), who, rename)
              && Attempted(sc, r.(photo := photo, epoch := EpochAfter(r)), who, repaint)
  {
    hide Attempted, SignUnsigned, Others;
    SignAttempted(sc, r.(members := r.members + [m], epoch := EpochAfter(r)), who);
    SignAttempted(sc, r.(members := Others(r.members, ik), epoch := EpochAfter(r)), who);
    SignAttempted(sc, r.(name := name, epoch := EpochAfter(r)), who);
    SignAttempted(sc, r.(photo := photo, epoch := EpochAfter(r)), who);
  }

  /** A group is created by signing, as epoch 0, the roster of the one member whose identity key is the admin's. */
  lemma CreateAttempted(sc: Scheme, who: Keys, bundle: MemberBundle, name: Bytes, seed: Key32)
    ensures Attempted(sc, GroupRoster(Hex(seed), name, None, bundle.ikSignPub, [bundle], 0, []), who,
                      CreateGroup(sc, who, bundle, name, seed))
  {
    SignAttempted(sc, GroupRoster(Hex(seed), name, None, bundle.ikSignPub, [bundle], 0, []), who);
  }

  /** Removal looks at each member by itself and keeps the order of the others. */
  lemma {:induction false} OthersPart(a: seq<MemberBundle>, b: seq<MemberBundle>, ik: Bytes)
    ensures Others(a + b, ik) == Others(a, ik) + Others(b, ik)
  {
    if a == [] {
      assert a + b == b;
    } else {
      assert (a + b)[1..] == a[1..] + b;
      OthersPart(a[1..], b, ik);
    }
  }

  /** The signature an admin gives a roster that names them verifies. */
  lemma OwnSignatureValid(sc: Scheme, r: GroupRoster, admin: Keys)
    requires Correct(sc) && Matching(admin.ikSign) && IsAdmin(r, admin)
    ensures SignatureValid(sc, Signed(sc, r, admin))
  {
    hide RosterSigningBytes;
    var sig := sc.sign(admin.ikSign, SignedBytes(r));
    DecodeHex(admin.ikSign.pub);
    DecodeHex(sig);
    assert SignedBytes(Signed(sc, r, admin)) == SignedBytes(r);
  }

  /** Signing succeeds exactly if nothing else is wrong with the roster. */
  lemma SigningOutcome(sc: Scheme, r: GroupRoster, admin: Keys)
    requires Correct(sc) && Matching(admin.ikSign) && IsAdmin(r, admin)
    ensures var out := SignUnsigned(sc, r.groupId, r.name, r.photo, r.adminPub, r.members, r.epoch, admin);
            var members := r.members;
            out == (if |members| > 128 then Err(Full)
                    else if members == [] then Err(InvalidRoster(Empty))
                    else if !Lists(members, r.adminPub) then Err(InvalidRoster(AdminNotMember))
                    else if !DistinctKeys(members) then Err(InvalidRoster(DuplicateMember))
                    else if FirstUnbound(sc, members) < |members|
                    then Err(InvalidRoster(InvalidMemberBinding(FirstUnbound(sc, members))))
                    else Ok(Signed(sc, r, admin)))
  {
    hide DistinctKeys, Lists, SignatureValid, MemberIsBound, RosterSigningBytes, IsAdmin;
    var bare := GroupRoster(r.groupId, r.name, r.photo, r.adminPub, r.members, r.epoch, []);
    assert IsAdmin(bare, admin) by {
      AdminByPub(r, bare, admin);
    }
    assert SignedBytes(bare) == SignedBytes(r);
    OwnSignatureValid(sc, bare, admin);
  }

  lemma AdminByPub(r: GroupRoster, s: GroupRoster, admin: Keys)
    requires r.adminPub == s.adminPub
    ensures IsAdmin(r, admin) == IsAdmin(s, admin)
  {
  }

  /** The keys of a newcomer differ from each other and from all keys in use. */
  predicate FreshKeys(members: seq<MemberBundle>, m: MemberBundle) {
    && (forall k, l :: 0 <= k < 3 && 0 <= l < 3 && KeyOf(m, k) == KeyOf(m, l) ==> k == l)
    && forall i, k, l :: 0 <= i < |members| && 0 <= k < 3 && 0 <= l < 3 ==> KeyOf(members[i], k) != KeyOf(m, l)
  }

  lemma DistinctAppend(members: seq<MemberBundle>, m: MemberBundle)
    requires DistinctKeys(members)
    ensures DistinctKeys(members + [m]) <==> FreshKeys(members, m)
  {
    hide KeyOf;
    var all, n := members + [m], |members|;
    assert forall i :: 0 <= i < n ==> all[i] == members[i];
    if DistinctKeys(all) {
      forall k, l | 0 <= k < 3 && 0 <= l < 3 && KeyOf(m, k) == KeyOf(m, l) ensures k == l {
        assert KeyOf(all[n], k) == KeyOf(all[n], l);
      }
      forall i, k, l | 0 <= i < n && 0 <= k < 3 && 0 <= l < 3 ensures KeyOf(members[i], k) != KeyOf(m, l) {
        assert all[i] == members[i] && all[n] == m;
      }
    }
  }

  lemma UnboundAppend(sc: Scheme, members: seq<MemberBundle>, m: MemberBundle)
    requires forall i :: 0 <= i < |members| ==> MemberIsBound(sc, members[i])
    ensures FirstUnbound(sc, members + [m]) == if MemberIsBound(sc, m) then |members| + 1 else |members|
  {
    hide MemberIsBound;
    var all := members + [m];
    assert all[|members|] == m;
    assert forall i :: 0 <= i < |members| ==> all[i] == members[i];
  }

  /**
   Adding to a valid roster leaves a listed identity alone, and otherwise succeeds exactly
   if there is room and the newcomer's keys are new and bound.
   */
  lemma AddOutcome(sc: Scheme, r: GroupRoster, admin: Keys, m: MemberBundle)
    requires Correct(sc) && Matching(admin.ikSign) && IsAdmin(r, admin) && WellFormed(sc, r)
    ensures AddMember(sc, r, admin, m) ==
            if IsMember(r, m.ikSignPub) then Ok(r)
            else if |r.members| == 128 then Err(Full)
            else if !FreshKeys(r.members, m) then Err(InvalidRoster(DuplicateMember))
            else if !MemberIsBound(sc, m) then Err(InvalidRoster(InvalidMemberBinding(|r.members|)))
            else Ok(Signed(sc, r.(members := r.members + [m], epoch := NextEpoch(r.epoch)), admin))
  {
    hide DistinctKeys, FreshKeys, MemberIsBound, SignatureValid, SignUnsigned, Signed;
    var members := r.members + [m];
    var next := r.(members := members, epoch := NextEpoch(r.epoch));
    DistinctAppend(r.members, m);
    UnboundAppend(sc, r.members, m);
    var i :| 0 <= i < |r.members| && r.members[i].ikSignPub == r.adminPub;
    assert members[i] == r.members[i];
    SigningOutcome(sc, next, admin);
  }

  lemma {:induction false} OthersExact(members: seq<MemberBundle>, ik: Bytes)
    ensures forall m :: m in Others(members, ik) <==> m in members && m.ikSignPub != ik
    ensures |Others(members, ik)| <= |members|
  {
    if members != [] {
      OthersExact(members[1..], ik);
      assert members == [members[0]] + members[1..];
    }
  }

  lemma {:induction false} OthersDistinct(members: seq<MemberBundle>, ik: Bytes)
    requires DistinctKeys(members)
    ensures DistinctKeys(Others(members, ik))
  {
    if members != [] {
      DistinctTail(members);
      OthersDistinct(members[1..], ik);
      if members[0].ikSignPub != ik {
        OthersExact(members[1..], ik);
        DistinctPrepend(members, Others(members[1..], ik));
      }
    }
  }

  lemma DistinctTail(members: seq<MemberBundle>)
    requires members != [] && DistinctKeys(members)
    ensures DistinctKeys(members[1..])
  {
    hide KeyOf;
    forall i, k, j, l | 0 <= i < |members| - 1 && 0 <= j < |members| - 1 && 0 <= k < 3 && 0 <= l < 3
                        && KeyOf(members[1..][i], k) == KeyOf(members[1..][j], l)
      ensures i == j && k == l
    {
      assert KeyOf(members[i + 1], k) == KeyOf(members[j + 1], l);
    }
  }

  lemma DistinctPrepend(members: seq<MemberBundle>, rest: seq<MemberBundle>)
    requires members != [] && DistinctKeys(members) && DistinctKeys(rest)
    requires forall m :: m in rest ==> m in members[1..]
    ensures DistinctKeys([members[0]] + rest)
  {
    hide KeyOf;
    var all := [members[0]] + rest;
    forall j, k, l | 0 < j < |all| && 0 <= k < 3 && 0 <= l < 3 ensures KeyOf(all[0], k) != KeyOf(all[j], l) {
      assert all[j] == rest[j - 1] && rest[j - 1] in rest;
      var i :| 0 <= i < |members| - 1 && members[1..][i] == all[j];
      assert members[i + 1] == all[j];
    }
    forall i, k, j, l | 0 <= i < |all| && 0 <= j < |all| && 0 <= k < 3 && 0 <= l < 3
                        && KeyOf(all[i], k) == KeyOf(all[j], l)
      ensures i == j && k == l
    {
      if i > 0 && j > 0 {
        assert all[i] == rest[i - 1] && all[j] == rest[j - 1];
      } else if i == 0 && j == 0 {
        assert KeyOf(members[0], k) == KeyOf(members[0], l);
      }
    }
  }

  /** Removing anyone but the admin from a valid roster succeeds, and takes out that identity only. */
  lemma RemoveOutcome(sc: Scheme, r: GroupRoster, admin: Keys, ik: Bytes)
    requires Correct(sc) && Matching(admin.ikSign) && IsAdmin(r, admin) && WellFormed(sc, r)
    ensures RemoveMember(sc, r, admin, ik) ==
            if ik == r.adminPub then Err(RemoveAdmin)
            else Ok(Signed(sc, r.(members := Others(r.members, ik), epoch := NextEpoch(r.epoch)), admin))
    ensures forall m :: m in Others(r.members, ik) <==> m in r.members && m.ikSignPub != ik
  {
    hide DistinctKeys, MemberIsBound, SignatureValid, SignUnsigned, Signed, Others;
    var members := Others(r.members, ik);
    OthersExact(r.members, ik);
    if ik != r.adminPub {
      OthersDistinct(r.members, ik);
      var i :| 0 <= i < |r.members| && r.members[i].ikSignPub == r.adminPub;
      assert r.members[i] in members;
      assert forall j :: 0 <= j < |members| ==> members[j] in r.members;
      SigningOutcome(sc, r.(members := members, epoch := NextEpoch(r.epoch)), admin);
    }
  }

  /** The name and the photo of a valid roster can always be changed. */
  lemma SetOutcome(sc: Scheme, r: GroupRoster, admin: Keys, name: Bytes, photo: Option<FileRef>)
    requires Correct(sc) && Matching(admin.ikSign) && IsAdmin(r, admin) && WellFormed(sc, r)
    ensures SetGroupName(sc, r, admin, name) == Ok(Signed(sc, r.(name := name, epoch := NextEpoch(r.epoch)), admin))
    ensures SetGroupPhoto(sc, r, admin, photo) == Ok(Signed(sc, r.(photo := photo, epoch := NextEpoch(r.epoch)), admin))
  {
    hide DistinctKeys, MemberIsBound, SignatureValid, SignUnsigned, Signed;
    SigningOutcome(sc, r.(name := name, epoch := NextEpoch(r.epoch)), admin);
    SigningOutcome(sc, r.(photo := photo, epoch := NextEpoch(r.epoch)), admin);
  }

  /** An identity can start a group with its own bundle exactly if its three public keys differ. */
  lemma CreateOutcome(sc: Scheme, admin: Keys, handle: Bytes, name: Bytes, seed: Key32)
    requires Correct(sc) && Matching(admin.ikSign)
    requires admin.signedPrekey.signature == sc.sign(admin.ikSign, admin.signedPrekey.keypair.pub)
    ensures var bundle := FromPublicBundle(handle, PublicBundleFor(sc, admin));
            CreateGroup(sc, admin, bundle, name, seed) ==
            if admin.ikSign.pub != admin.ikDh.pub && admin.ikSign.pub != admin.nostr.pub && admin.ikDh.pub != admin.nostr.pub
            then Ok(Signed(sc, GroupRoster(Hex(seed), name, None, Hex(admin.ikSign.pub), [bundle], 0, []), admin))
            else Err(InvalidRoster(DuplicateMember))
  {
    var bundle := FromPublicBundle(handle, PublicBundleFor(sc, admin));
    OwnBundleBound(sc, admin, handle);
    OwnKeysDistinct(sc, admin, handle);
    hide DistinctKeys, MemberIsBound, SignatureValid, SignUnsigned, Signed;
    assert [bundle][0] == bundle;
    SigningOutcome(sc, GroupRoster(Hex(seed), name, None, Hex(admin.ikSign.pub), [bundle], 0, []), admin);
  }

  lemma OwnBundleBound(sc: Scheme, k: Keys, handle: Bytes)
    requires Correct(sc) && Matching(k.ikSign)
    requires k.signedPrekey.signature == sc.sign(k.ikSign, k.signedPrekey.keypair.pub)
    ensures MemberIsBound(sc, FromPublicBundle(handle, PublicBundleFor(sc, k)))
  {
    OwnBundleVerifies(sc, k);
    hide VerifyBundleBinding;
  }

  lemma OwnKeysDistinct(sc: Scheme, k: Keys, handle: Bytes)
    ensures DistinctKeys([FromPublicBundle(handle, PublicBundleFor(sc, k))])
            <==> k.ikSign.pub != k.ikDh.pub && k.ikSign.pub != k.nostr.pub && k.ikDh.pub != k.nostr.pub
  {
    var bundle := FromPublicBundle(handle, PublicBundleFor(sc, k));
    if DistinctKeys([bundle]) {
      assert KeyOf([bundle][0], 0) != KeyOf([bundle][0], 1);
      assert KeyOf([bundle][0], 0) != KeyOf([bundle][0], 2);
      assert KeyOf([bundle][0], 1) != KeyOf([bundle][0], 2);
    } else {
      HexSame(k.ikSign.pub, k.ikDh.pub);
      HexSame(k.ikSign.pub, k.nostr.pub);
      HexSame(k.ikDh.pub, k.nostr.pub);
    }
  }

  lemma HexSame(a: Bytes, b: Bytes)
    ensures Hex(a) == Hex(b) <==> a == b
  {
    if Hex(a) == Hex(b) {
      HexInjective(a, b);
    }
  }

  // ---------- what a signature leaves open ----------

  lemma TwoPlaces<T>(s: seq<T>, i: nat, j: nat)
    requires i < j < |s| && s[i] == s[j]
    ensures multiset(s)[s[i]] >= 2
  {
    assert s == s[..j] + s[j..];
    assert s[..j][i] == s[i] && s[j..][0] == s[i];
  }

  lemma OccursTwice<T>(s: seq<T>, x: T) returns (i: nat, j: nat)
    requires multiset(s)[x] >= 2
    ensures i < j < |s| && s[i] == x && s[j] == x
  {
    var k :| 0 <= k < |s| && s[k] == x;
    var rest := s[..k] + s[k + 1..];
    assert s == s[..k] + [x] + s[k + 1..];
    assert x in multiset(rest);
    var n :| 0 <= n < |rest| && rest[n] == x;
    if n < k {
      return n, k;
    }
    return k, n + 1;
  }

  lemma RepeatedMember(members: seq<MemberBundle>, i: nat, j: nat)
    requires i < j < |members| && members[i] == members[j]
    ensures !DistinctKeys(members)
  {
    hide KeyOf;
    assert KeyOf(members[i], 0) == KeyOf(members[j], 0);
  }

  lemma NoRepeats(members: seq<MemberBundle>, m: MemberBundle)
    requires DistinctKeys(members)
    ensures multiset(members)[m] <= 1
  {
    hide KeyOf;
    if multiset(members)[m] >= 2 {
      var i, j := OccursTwice(members, m);
      RepeatedMember(members, i, j);
    }
  }

  lemma PermutedDistinct(a: seq<MemberBundle>, b: seq<MemberBundle>)
    requires multiset(a) == multiset(b) && DistinctKeys(a)
    ensures DistinctKeys(b)
  {
    hide KeyOf;
    forall i, k, j, l | 0 <= i < |b| && 0 <= j < |b| && 0 <= k < 3 && 0 <= l < 3 && KeyOf(b[i], k) == KeyOf(b[j], l)
      ensures i == j && k == l
    {
      assert b[i] in multiset(a) && b[j] in multiset(a);
      var i2 :| 0 <= i2 < |a| && a[i2] == b[i];
      var j2 :| 0 <= j2 < |a| && a[j2] == b[j];
      assert KeyOf(a[i2], k) == KeyOf(a[j2], l);
      NoRepeats(a, b[i]);
      if i < j {
        TwoPlaces(b, i, j);
      } else if j < i {
        TwoPlaces(b, j, i);
      }
    }
  }

  lemma PermutedMembers(sc: Scheme, a: seq<MemberBundle>, b: seq<MemberBundle>, ik: Bytes)
    requires multiset(a) == multiset(b)
    ensures Lists(a, ik) ==> Lists(b, ik)
    ensures (forall i :: 0 <= i < |a| ==> MemberIsBound(sc, a[i])) ==> forall i :: 0 <= i < |b| ==> MemberIsBound(sc, b[i])
  {
    hide MemberIsBound;
    if Lists(a, ik) {
      var i :| 0 <= i < |a| && a[i].ikSignPub == ik;
      assert a[i] in multiset(b);
      var j :| 0 <= j < |b| && b[j] == a[i];
    }
    forall i | 0 <= i < |b| ensures exists j :: 0 <= j < |a| && a[j] == b[i] {
      assert b[i] in multiset(a);
    }
  }

  /** Reordering the members or exchanging the thumbnail never changes whether a roster is valid. */
  lemma SameContentsSameValidity(sc: Scheme, r: GroupRoster, s: GroupRoster)
    requires SameContents(r, s) && r.signature == s.signature
    ensures WellFormed(sc, r) <==> WellFormed(sc, s)
  {
    SignedBytesIff(r, s);
    hide SignedBytes, MemberIsBound, DistinctKeys, Lists;
    OneWay(sc, r, s);
    OneWay(sc, s, r);
  }

  lemma OneWay(sc: Scheme, r: GroupRoster, s: GroupRoster)
    requires SignedBytes(r) == SignedBytes(s) && SameContents(r, s) && r.signature == s.signature
    ensures WellFormed(sc, r) ==> WellFormed(sc, s)
  {
    hide SignedBytes, MemberIsBound, DistinctKeys, Lists;
    if WellFormed(sc, r) {
      assert |r.members| == |multiset(r.members)| == |multiset(s.members)| == |s.members|;
      PermutedDistinct(r.members, s.members);
      PermutedMembers(sc, r.members, s.members, r.adminPub);
    }
  }
}
