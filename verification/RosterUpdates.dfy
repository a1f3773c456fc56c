/**
 Rosters on the receiving side: which are accepted, and what a member who takes them in
 any order ends up with.
 */
module RosterUpdates {
  import opened Wrappers
  import opened Bytes
  import opened Crypto
  import opened Identity
  import opened RosterBytes
  import opened Roster

  datatype RosterRejection =
    | SenderNotAdmin
    | NotAMember
    | GroupMismatch
    | AdminChanged
    | Stale
    | Invalid(error: RosterError)

  datatype RosterDecision = Accept | PendingInvite | Reject(why: RosterRejection)

  function CheckUpdateRules(current: GroupRoster, incoming: GroupRoster): Result<(), RosterRejection> {
    if incoming.groupId != current.groupId then Err(GroupMismatch)
    else if incoming.adminPub != current.adminPub then Err(AdminChanged)
    else if incoming.epoch <= current.epoch then Err(Stale)
    else Ok(())
  }

  function EvaluateIncomingRoster(
    sc: Scheme, current: Option<GroupRoster>, incoming: GroupRoster, sender: Bytes, me: Bytes): RosterDecision
  {
    if sender != incoming.adminPub then Reject(SenderNotAdmin)
    else
      match Validate(sc, incoming)
      case Err(e) => Reject(Invalid(e))
      case Ok(_) =>
        if !IsMember(incoming, me) then Reject(NotAMember)
        else
          match current
          case None => PendingInvite
          case Some(held) =>
            match CheckUpdateRules(held, incoming)
            case Ok(_) => Accept
            case Err(why) => Reject(why)
  }

  /**
   The decision for every roster held or not, every roster that arrives, every sender and every
   receiver: each rejection exactly if its reason is there and none of those before it, an
   invitation exactly for a valid roster from its own admin that lists us in a group not held,
   and acceptance exactly for such a one of the group and admin held with a higher epoch.
   */
  lemma EvaluationOutcome(sc: Scheme, current: Option<GroupRoster>, incoming: GroupRoster, sender: Bytes, me: Bytes)
    ensures var decision := EvaluateIncomingRoster(sc, current, incoming, sender, me);
            var fromAdmin, valid := sender == incoming.adminPub, WellFormed(sc, incoming);
            var listed := exists i :: 0 <= i < |incoming.members| && incoming.members[i].ikSignPub == me;
            && (decision == Reject(SenderNotAdmin) <==> !fromAdmin)
            && (forall e :: decision == Reject(Invalid(e)) <==> fromAdmin && Validate(sc, incoming) == Err(e))
            && (decision.Reject? && decision.why.Invalid? <==> fromAdmin && !valid)
            && (decision == Reject(NotAMember) <==> fromAdmin && valid && !listed)
            && (decision == PendingInvite <==> fromAdmin && valid && listed && current.None?)
            && match current
               case None => decision != Accept
               case Some(held) =>
                 var (sameGroup, sameAdmin) := (incoming.groupId == held.groupId, incoming.adminPub == held.adminPub);
                 && (decision == Reject(GroupMismatch) <==> fromAdmin && valid && listed && !sameGroup)
                 && (decision == Reject(AdminChanged) <==> fromAdmin && valid && listed && sameGroup && !sameAdmin)
                 && (decision == Reject(Stale) <==>
                       fromAdmin && valid && listed && sameGroup && sameAdmin && incoming.epoch <= held.epoch)
                 && (decision == Accept <==>
                       fromAdmin && valid && listed && sameGroup && sameAdmin && incoming.epoch > held.epoch)
  {
    ValidateIff(sc, incoming);
    hide Validate, WellFormed;
  }

  // ---------- rosters made with the builders ----------

  datatype Change =
    | Adding(member: MemberBundle)
    | Removing(ikSignPub: Bytes)
    | Renaming(name: Bytes)
    | Repainting(photo: Option<FileRef>)

  function Apply(sc: Scheme, r: GroupRoster, admin: Keys, c: Change): Result<GroupRoster, GroupError> {
    match c
    case Adding(m) => AddMember(sc, r, admin, m)
    case Removing(ik) => RemoveMember(sc, r, admin, ik)
    case Renaming(name) => SetGroupName(sc, r, admin, name)
    case Repainting(photo) => SetGroupPhoto(sc, r, admin, photo)
  }

  /** What the admin holds after a change: a failed one leaves the roster as it was. */
  function Holding(sc: Scheme, r: GroupRoster, admin: Keys, c: Change): GroupRoster {
    match Apply(sc, r, admin, c)
    case Ok(next) => next
    case Err(_) => r
  }

  /** All rosters the admin holds along a list of changes, the first and the last included. */
  function Versions(sc: Scheme, r: GroupRoster, admin: Keys, changes: seq<Change>): (vs: seq<GroupRoster>)
    ensures |vs| == |changes| + 1 && vs[0] == r
    decreases |changes|
  {
    if changes == [] then [r] else [r] + Versions(sc, Holding(sc, r, admin, changes[0]), admin, changes[1..])
  }

  lemma SigningValidates(
    sc: Scheme, groupId: Bytes, name: Bytes, photo: Option<FileRef>, adminPub: Bytes,
    members: seq<MemberBundle>, epoch: U64, admin: Keys)
    ensures var out := SignUnsigned(sc, groupId, name, photo, adminPub, members, epoch, admin);
            out.Ok? ==> WellFormed(sc, out.value) && out.value.groupId == groupId
                        && out.value.adminPub == adminPub && out.value.epoch == epoch
  {
    hide WellFormed, Validate;
    ValidateIff(sc, Signed(sc, GroupRoster(groupId, name, photo, adminPub, members, epoch, []), admin));
  }

  /** A builder given a valid roster makes a valid roster of the same group, one epoch on or the very same. */
  lemma ChangeKeepsValid(sc: Scheme, r: GroupRoster, admin: Keys, c: Change)
    requires WellFormed(sc, r) && IsAdmin(r, admin)
    ensures var next := Holding(sc, r, admin, c);
            && WellFormed(sc, next) && IsAdmin(next, admin)
            && next.groupId == r.groupId && next.adminPub == r.adminPub
            && (next == r || next.epoch == (r.epoch + 1) % 0x1_0000_0000_0000_0000)
  {
    hide WellFormed, SignUnsigned;
    match c
    case Adding(m) =>
      SigningValidates(sc, r.groupId, r.name, r.photo, r.adminPub, r.members + [m], NextEpoch(r.epoch), admin);
    case Removing(ik) =>
      SigningValidates(sc, r.groupId, r.name, r.photo, r.adminPub, Others(r.members, ik), NextEpoch(r.epoch), admin);
    case Renaming(name) =>
      SigningValidates(sc, r.groupId, name, r.photo, r.adminPub, r.members, NextEpoch(r.epoch), admin);
    case Repainting(photo) =>
      SigningValidates(sc, r.groupId, r.name, photo, r.adminPub, r.members, NextEpoch(r.epoch), admin);
  }

  /**
   A new version is refused by a holder of the one before it if it does not list them, and
   refused as stale if its epoch wrapped to zero; otherwise it is accepted.
   */
  lemma ChangeDecision(sc: Scheme, r: GroupRoster, admin: Keys, c: Change, me: Bytes)
    requires WellFormed(sc, r) && IsAdmin(r, admin) && Holding(sc, r, admin, c) != r
    ensures var next := Holding(sc, r, admin, c);
            EvaluateIncomingRoster(sc, Some(r), next, r.adminPub, me)
            == (if !IsMember(next, me) then Reject(NotAMember)
                else if r.epoch == U64_MAX then Reject(Stale)
                else Accept)
  {
    hide WellFormed, Holding, IsMember, Validate;
    ChangeKeepsValid(sc, r, admin, c);
    ValidateIff(sc, Holding(sc, r, admin, c));
  }

  /** Along a list of changes. */
  ghost predicate Chronicle(sc: Scheme, vs: seq<GroupRoster>, admin: Keys) {
    && (forall i :: 0 <= i < |vs| ==> WellFormed(sc, vs[i]) && IsAdmin(vs[i], admin))
    && (forall i, j :: 0 <= i < j < |vs| ==>
          vs[i].groupId == vs[j].groupId && vs[i].adminPub == vs[j].adminPub
          && (vs[i] == vs[j] || vs[i].epoch < vs[j].epoch))
  }

  /**
   Every roster made with the builders is valid, names the same group and admin, and is told
   from all others of its group by its epoch, which only grows.
   */
  lemma {:induction false} VersionsAreChronicle(sc: Scheme, r: GroupRoster, admin: Keys, changes: seq<Change>)
    requires WellFormed(sc, r) && IsAdmin(r, admin) && r.epoch + |changes| <= U64_MAX
    ensures Chronicle(sc, Versions(sc, r, admin, changes), admin)
    decreases |changes|
  {
    hide WellFormed, IsAdmin, Holding;
    if changes != [] {
      var next := Holding(sc, r, admin, changes[0]);
      ChangeKeepsValid(sc, r, admin, changes[0]);
      VersionsAreChronicle(sc, next, admin, changes[1..]);
      var rest := Versions(sc, next, admin, changes[1..]);
      assert Versions(sc, r, admin, changes) == [r] + rest;
      forall j | 0 <= j < |rest|
        ensures r.groupId == rest[j].groupId && r.adminPub == rest[j].adminPub
        ensures r == rest[j] || r.epoch < rest[j].epoch
      {
        assert rest[0] == next;
      }
    }
  }

  lemma CreateIsValid(sc: Scheme, admin: Keys, bundle: MemberBundle, name: Bytes, seed: Key32)
    requires CreateGroup(sc, admin, bundle, name, seed).Ok? && Hex(admin.ikSign.pub) == bundle.ikSignPub
    ensures var r := CreateGroup(sc, admin, bundle, name, seed).value;
            WellFormed(sc, r) && IsAdmin(r, admin) && r.epoch == 0 && r.groupId == Hex(seed)
  {
    hide WellFormed, SignUnsigned;
    SigningValidates(sc, Hex(seed), name, None, bundle.ikSignPub, [bundle], 0, admin);
  }

  /**
   From the creation of a group on, a member holding any version decides about any other
   version by membership and epoch alone, even if versions in between never arrived.
   */
  lemma BuiltRosters(sc: Scheme, admin: Keys, bundle: MemberBundle, name: Bytes, seed: Key32, changes: seq<Change>, i: nat, j: nat, me: Bytes)
    requires CreateGroup(sc, admin, bundle, name, seed).Ok? && Hex(admin.ikSign.pub) == bundle.ikSignPub
    requires |changes| <= U64_MAX && i <= |changes| && j <= |changes|
    ensures var vs := Versions(sc, CreateGroup(sc, admin, bundle, name, seed).value, admin, changes);
            && Chronicle(sc, vs, admin)
            && EvaluateIncomingRoster(sc, Some(vs[i]), vs[j], bundle.ikSignPub, me)
               == (if !IsMember(vs[j], me) then Reject(NotAMember)
                   else if vs[j].epoch <= vs[i].epoch then Reject(Stale)
                   else Accept)
            && EvaluateIncomingRoster(sc, None, vs[j], bundle.ikSignPub, me)
               == (if IsMember(vs[j], me) then PendingInvite else Reject(NotAMember))
  {
    CreateIsValid(sc, admin, bundle, name, seed);
    var r := CreateGroup(sc, admin, bundle, name, seed).value;
    VersionsAreChronicle(sc, r, admin, changes);
    hide WellFormed, CreateGroup, IsMember, Versions;
    ChronicleDecides(sc, Versions(sc, r, admin, changes), admin, i, j, me);
  }

  lemma ChronicleDecides(sc: Scheme, vs: seq<GroupRoster>, admin: Keys, i: nat, j: nat, me: Bytes)
    requires Chronicle(sc, vs, admin) && i < |vs| && j < |vs|
    ensures EvaluateIncomingRoster(sc, Some(vs[i]), vs[j], Hex(admin.ikSign.pub), me)
            == (if !IsMember(vs[j], me) then Reject(NotAMember)
                else if vs[j].epoch <= vs[i].epoch then Reject(Stale)
                else Accept)
    ensures EvaluateIncomingRoster(sc, None, vs[j], Hex(admin.ikSign.pub), me)
            == (if IsMember(vs[j], me) then PendingInvite else Reject(NotAMember))
  {
    hide WellFormed, IsMember, Validate;
    ValidateIff(sc, vs[j]);
    assert vs[i].groupId == vs[j].groupId && vs[i].adminPub == vs[j].adminPub;
  }

  // ---------- a member's view ----------

  /** A roster that arrived over the session with `sender`. */
  datatype Arrival = Arrival(sender: Bytes, roster: GroupRoster)

  function Receive(sc: Scheme, me: Bytes, held: GroupRoster, a: Arrival): GroupRoster {
    if EvaluateIncomingRoster(sc, Some(held), a.roster, a.sender, me) == Accept then a.roster else held
  }

  function ReceiveAll(sc: Scheme, me: Bytes, held: GroupRoster, arrivals: seq<Arrival>): GroupRoster
    decreases |arrivals|
  {
    if arrivals == [] then held else ReceiveAll(sc, me, Receive(sc, me, held, arrivals[0]), arrivals[1..])
  }

  /** An arrival that may be applied to this group, if its epoch is new. */
  predicate Eligible(sc: Scheme, me: Bytes, group: GroupRoster, a: Arrival) {
    && a.sender == a.roster.adminPub
    && WellFormed(sc, a.roster)
    && IsMember(a.roster, me)
    && a.roster.groupId == group.groupId
    && a.roster.adminPub == group.adminPub
  }

  lemma ReceiveByEpoch(sc: Scheme, me: Bytes, held: GroupRoster, a: Arrival)
    ensures Receive(sc, me, held, a) ==
            if Eligible(sc, me, held, a) && a.roster.epoch > held.epoch then a.roster else held
  {
    hide WellFormed, IsMember, Validate;
    ValidateIff(sc, a.roster);
  }

  /** The held roster is the first of the newest among the eligible arrivals and the one held before. */
  ghost predicate FirstOfNewest(sc: Scheme, me: Bytes, held: GroupRoster, arrivals: seq<Arrival>, out: GroupRoster) {
    && held.epoch <= out.epoch
    && (forall i :: 0 <= i < |arrivals| && Eligible(sc, me, held, arrivals[i]) ==> arrivals[i].roster.epoch <= out.epoch)
    && (out == held
        || exists i :: 0 <= i < |arrivals| && IsFirstNewest(sc, me, held, arrivals, out, i))
  }

  ghost predicate IsFirstNewest(sc: Scheme, me: Bytes, held: GroupRoster, arrivals: seq<Arrival>, out: GroupRoster, i: nat)
    requires i < |arrivals|
  {
    && Eligible(sc, me, held, arrivals[i]) && arrivals[i].roster == out && held.epoch < out.epoch
    && forall j :: 0 <= j < i && Eligible(sc, me, held, arrivals[j]) ==> arrivals[j].roster.epoch < out.epoch
  }

  lemma {:induction false} HeldIsFirstOfNewest(sc: Scheme, me: Bytes, held: GroupRoster, arrivals: seq<Arrival>)
    ensures FirstOfNewest(sc, me, held, arrivals, ReceiveAll(sc, me, held, arrivals))
    decreases |arrivals|
  {
    hide Eligible, EvaluateIncomingRoster, Receive;
    if arrivals != [] {
      var a, rest := arrivals[0], arrivals[1..];
      var next := Receive(sc, me, held, a);
      var out := ReceiveAll(sc, me, next, rest);
      ReceiveByEpoch(sc, me, held, a);
      HeldIsFirstOfNewest(sc, me, next, rest);
      assert forall b :: Eligible(sc, me, next, b) <==> Eligible(sc, me, held, b) by {
        SameGroup(sc, me, held, a);
      }
      forall i | 0 <= i < |arrivals| && Eligible(sc, me, held, arrivals[i])
        ensures arrivals[i].roster.epoch <= out.epoch
      {
        if i > 0 {
          assert rest[i - 1] == arrivals[i];
        }
      }
      if out != held {
        if out == next {
          assert IsFirstNewest(sc, me, held, arrivals, out, 0);
        } else {
          var i :| 0 <= i < |rest| && IsFirstNewest(sc, me, next, rest, out, i);
          assert forall j :: 0 < j < i + 1 ==> arrivals[j] == rest[j - 1];
          assert IsFirstNewest(sc, me, held, arrivals, out, i + 1);
        }
      }
    }
  }

  lemma SameGroup(sc: Scheme, me: Bytes, held: GroupRoster, a: Arrival)
    ensures forall b :: Eligible(sc, me, Receive(sc, me, held, a), b) <==> Eligible(sc, me, held, b)
  {
    ReceiveByEpoch(sc, me, held, a);
    hide WellFormed, IsMember, Receive, EvaluateIncomingRoster;
  }

  // ---------- order ----------

  /** No two eligible arrivals compete for the highest epoch. */
  ghost predicate UniqueTop(sc: Scheme, me: Bytes, held: GroupRoster, arrivals: seq<Arrival>) {
    forall a, b ::
      a in arrivals && b in arrivals && Top(sc, me, held, arrivals, a) && Top(sc, me, held, arrivals, b) ==>
      a.roster == b.roster
  }

  ghost predicate Top(sc: Scheme, me: Bytes, held: GroupRoster, arrivals: seq<Arrival>, a: Arrival) {
    && Eligible(sc, me, held, a) && a.roster.epoch > held.epoch
    && forall b :: b in arrivals && Eligible(sc, me, held, b) ==> b.roster.epoch <= a.roster.epoch
  }

  ghost predicate SameForAllOrders(sc: Scheme, me: Bytes, held: GroupRoster, arrivals: seq<Arrival>) {
    forall other: seq<Arrival> :: multiset(other) == multiset(arrivals) ==>
      ReceiveAll(sc, me, held, other) == ReceiveAll(sc, me, held, arrivals)
  }

  /** What is held in the end is the top of the arrivals, if there is one. */
  lemma EndsAtTop(sc: Scheme, me: Bytes, held: GroupRoster, arrivals: seq<Arrival>)
    ensures var out := ReceiveAll(sc, me, held, arrivals);
            if out == held
            then forall a :: a in arrivals ==> !Top(sc, me, held, arrivals, a)
            else exists a :: a in arrivals && a.roster == out && Top(sc, me, held, arrivals, a)
  {
    HeldIsFirstOfNewest(sc, me, held, arrivals);
    var out := ReceiveAll(sc, me, held, arrivals);
    hide Eligible, ReceiveAll;
    forall b | b in arrivals && Eligible(sc, me, held, b) ensures b.roster.epoch <= out.epoch {
      var j :| 0 <= j < |arrivals| && arrivals[j] == b;
    }
    if out != held {
      var i :| 0 <= i < |arrivals| && IsFirstNewest(sc, me, held, arrivals, out, i);
      assert Top(sc, me, held, arrivals, arrivals[i]);
    }
  }

  /** Two collections of arrivals with the same elements, repeats aside, lead to the same roster if the top is unique. */
  lemma SameElementsSameEnd(sc: Scheme, me: Bytes, held: GroupRoster, arrivals: seq<Arrival>, other: seq<Arrival>)
    requires UniqueTop(sc, me, held, arrivals)
    requires forall a :: a in arrivals <==> a in other
    ensures ReceiveAll(sc, me, held, other) == ReceiveAll(sc, me, held, arrivals)
  {
    EndsAtTop(sc, me, held, arrivals);
    EndsAtTop(sc, me, held, other);
    hide Eligible, ReceiveAll;
    forall a ensures Top(sc, me, held, arrivals, a) <==> Top(sc, me, held, other, a) {
    }
  }

  /** Each of the rosters with the highest epoch is where some order ends. */
  lemma FrontWins(sc: Scheme, me: Bytes, held: GroupRoster, arrivals: seq<Arrival>, a: Arrival) returns (other: seq<Arrival>)
    requires a in arrivals && Top(sc, me, held, arrivals, a)
    ensures multiset(other) == multiset(arrivals)
    ensures ReceiveAll(sc, me, held, other) == a.roster
  {
    hide WellFormed, IsMember, ReceiveAll;
    var i :| 0 <= i < |arrivals| && arrivals[i] == a;
    var rest := arrivals[..i] + arrivals[i + 1..];
    other := [a] + rest;
    assert arrivals == arrivals[..i] + [a] + arrivals[i + 1..];
    HeldIsFirstOfNewest(sc, me, held, other);
    var out := ReceiveAll(sc, me, held, other);
    hide Eligible;
    assert other[0] == a;
    if out != held {
      var k :| 0 <= k < |other| && IsFirstNewest(sc, me, held, other, out, k);
      assert other[k] in multiset(other);
      assert other[k] in arrivals;
    }
  }

  /** The order of arrival is immaterial exactly if no two eligible rosters share the highest epoch. */
  lemma OrderIrrelevantIff(sc: Scheme, me: Bytes, held: GroupRoster, arrivals: seq<Arrival>)
    ensures SameForAllOrders(sc, me, held, arrivals) <==> UniqueTop(sc, me, held, arrivals)
  {
    hide Eligible, ReceiveAll, Top;
    if UniqueTop(sc, me, held, arrivals) {
      forall other: seq<Arrival> | multiset(other) == multiset(arrivals)
        ensures ReceiveAll(sc, me, held, other) == ReceiveAll(sc, me, held, arrivals)
      {
        forall a ensures a in arrivals <==> a in other {
          assert a in multiset(other) <==> a in multiset(arrivals);
        }
        SameElementsSameEnd(sc, me, held, arrivals, other);
      }
    } else {
      var a, b :| a in arrivals && b in arrivals && Top(sc, me, held, arrivals, a) && Top(sc, me, held, arrivals, b)
                  && a.roster != b.roster;
      var one := FrontWins(sc, me, held, arrivals, a);
      var two := FrontWins(sc, me, held, arrivals, b);
      assert ReceiveAll(sc, me, held, one) != ReceiveAll(sc, me, held, two);
    }
  }

  /**
   The condition can fail: an admin may sign two versions that follow the same one. Both are
   eligible, and which of them a member ends with is decided by the order of arrival.
   */
  lemma TwoVersionsOfOneEpoch(sc: Scheme, r: GroupRoster, admin: Keys, name1: Bytes, name2: Bytes, me: Bytes)
    requires Correct(sc) && Matching(admin.ikSign) && IsAdmin(r, admin) && WellFormed(sc, r)
    requires IsMember(r, me) && name1 != name2 && r.epoch < U64_MAX
    ensures SetGroupName(sc, r, admin, name1).Ok? && SetGroupName(sc, r, admin, name2).Ok?
    ensures var a := Arrival(r.adminPub, SetGroupName(sc, r, admin, name1).value);
            var b := Arrival(r.adminPub, SetGroupName(sc, r, admin, name2).value);
            && Eligible(sc, me, r, a) && Eligible(sc, me, r, b)
            && ReceiveAll(sc, me, r, [a, b]) == a.roster
            && ReceiveAll(sc, me, r, [b, a]) == b.roster
            && !SameForAllOrders(sc, me, r, [a, b])
  {
    var v1, v2 := SetGroupName(sc, r, admin, name1), SetGroupName(sc, r, admin, name2);
    hide DistinctKeys, MemberIsBound, SignatureValid, SignUnsigned;
    SetOutcome(sc, r, admin, name1, r.photo);
    SetOutcome(sc, r, admin, name2, r.photo);
    ChangeKeepsValid(sc, r, admin, Renaming(name1));
    ChangeKeepsValid(sc, r, admin, Renaming(name2));
    var a, b := Arrival(r.adminPub, v1.value), Arrival(r.adminPub, v2.value);
    assert IsMember(v1.value, me) && IsMember(v2.value, me);
    hide WellFormed, IsMember, SetGroupName, EvaluateIncomingRoster, Receive;
    FirstStays(sc, me, r, a, b);
    FirstStays(sc, me, r, b, a);
    var ab: seq<Arrival>, ba: seq<Arrival> := [a, b], [b, a];
    assert multiset(ba) == multiset(ab);
  }

  lemma FirstStays(sc: Scheme, me: Bytes, held: GroupRoster, a: Arrival, b: Arrival)
    requires Eligible(sc, me, held, a) && held.epoch < a.roster.epoch && b.roster.epoch == a.roster.epoch
    ensures ReceiveAll(sc, me, held, [a, b]) == a.roster
  {
    hide WellFormed, IsMember, Receive;
    ReceiveByEpoch(sc, me, held, a);
    ReceiveByEpoch(sc, me, a.roster, b);
    var two: seq<Arrival>, one: seq<Arrival> := [a, b], [b];
    assert two[1..] == one;
    assert ReceiveAll(sc, me, held, two) == ReceiveAll(sc, me, a.roster, one);
    assert ReceiveAll(sc, me, a.roster, one) == ReceiveAll(sc, me, a.roster, one[1..]);
  }

  /**
   A member who holds version i and receives any of the admin's versions, in any order, with
   repeats and mixed with rosters that are not eligible, ends at the newest of those that
   list them.
   */
  lemma MembersConverge(sc: Scheme, admin: Keys, vs: seq<GroupRoster>, i: nat, arrivals: seq<Arrival>, last: nat, me: Bytes)
    requires Chronicle(sc, vs, admin) && i <= last < |vs| && IsMember(vs[last], me)
    requires forall a :: a in arrivals && Eligible(sc, me, vs[i], a) ==> a.roster in vs[..last + 1]
    requires last == i || Arrival(Hex(admin.ikSign.pub), vs[last]) in arrivals
    ensures ReceiveAll(sc, me, vs[i], arrivals) == vs[last]
  {
    hide Eligible, ReceiveAll, WellFormed, IsMember, Hex;
    HeldIsFirstOfNewest(sc, me, vs[i], arrivals);
    var out := ReceiveAll(sc, me, vs[i], arrivals);
    if last != i {
      VersionEligible(sc, admin, vs, i, last, me);
      var k :| 0 <= k < |arrivals| && arrivals[k] == Arrival(Hex(admin.ikSign.pub), vs[last]);
      assert vs[last].epoch <= out.epoch;
    }
    if out != vs[i] {
      var k :| 0 <= k < |arrivals| && IsFirstNewest(sc, me, vs[i], arrivals, out, k);
      assert arrivals[k] in arrivals;
    }
    var n :| 0 <= n <= last && vs[n] == out;
  }

  lemma VersionEligible(sc: Scheme, admin: Keys, vs: seq<GroupRoster>, i: nat, j: nat, me: Bytes)
    requires Chronicle(sc, vs, admin) && i < j < |vs| && IsMember(vs[j], me)
    ensures Eligible(sc, me, vs[i], Arrival(Hex(admin.ikSign.pub), vs[j]))
  {
    hide WellFormed, IsMember;
  }
}
