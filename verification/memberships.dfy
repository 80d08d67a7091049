/**
 * The membership registry of a group: lookup, find-or-create, capacity-checked
 * joining, admin promotion, the contact person and the invitation allowance.
 */
module Memberships {
  import opened Outcomes
  import opened GroupData

  predicate Matches(m: Membership, gid: GroupId, uid: UserId)
  {
    m.groupId == gid && m.userId == uid
  }

  /** No two memberships link the same user to the same group. */
  predicate UniqueMemberships(s: Store)
  {
    forall i, j :: 0 <= i < j < |s.memberships| ==>
      !Matches(s.memberships[j], s.memberships[i].groupId, s.memberships[i].userId)
  }

  function FindFrom(ms: seq<Membership>, gid: GroupId, uid: UserId, lo: nat): (r: Option<MembershipId>)
    requires lo <= |ms|
    ensures r.Some? ==> lo <= r.value < |ms| && Matches(ms[r.value], gid, uid)
    ensures r.Some? ==> forall j :: lo <= j < r.value ==> !Matches(ms[j], gid, uid)
    ensures r.None? <==> forall j :: lo <= j < |ms| ==> !Matches(ms[j], gid, uid)
    decreases |ms| - lo
  {
    if lo == |ms| then None
    else if Matches(ms[lo], gid, uid) then Some(lo)
    else FindFrom(ms, gid, uid, lo + 1)
  }

  /** `membership(user)`: the user's membership of the group with the lowest
      id, archived or not, or None. */
  function FindMembership(s: Store, gid: GroupId, uid: UserId): (r: Option<MembershipId>)
    ensures r.Some? ==> r.value < |s.memberships| && Matches(s.memberships[r.value], gid, uid)
    ensures r.Some? ==> forall j :: 0 <= j < r.value ==> !Matches(s.memberships[j], gid, uid)
    ensures r.None? <==> forall j :: 0 <= j < |s.memberships| ==> !Matches(s.memberships[j], gid, uid)
  {
    FindFrom(s.memberships, gid, uid, 0)
  }

  /** With unique memberships, the one found is the only one. */
  lemma FoundIsOnly(s: Store, gid: GroupId, uid: UserId)
    requires UniqueMemberships(s)
    requires FindMembership(s, gid, uid).Some?
    ensures forall j :: 0 <= j < |s.memberships| && Matches(s.memberships[j], gid, uid) ==>
      j == FindMembership(s, gid, uid).value
  {
  }

  /** A membership id in the store after a registry operation. */
  datatype Joined = Joined(store: Store, membership: MembershipId)

  /** `find_or_create_membership`: return the existing membership, or append a
      new non-admin, unarchived one recording the inviter. */
  function FindOrCreateMembership(s: Store, gid: GroupId, uid: UserId, inviter: Option<UserId>): (r: Joined)
    ensures r.membership < |r.store.memberships|
    ensures Matches(r.store.memberships[r.membership], gid, uid)
    ensures FindMembership(r.store, gid, uid) == Some(r.membership)
    ensures r.store.groups == s.groups && r.store.discussions == s.discussions
    ensures r.store.invitations == s.invitations
    ensures |s.memberships| <= |r.store.memberships|
    ensures r.store.memberships[..|s.memberships|] == s.memberships
    ensures FindMembership(s, gid, uid).Some? ==> r.store == s
    ensures FindMembership(s, gid, uid).None? ==>
      && |r.store.memberships| == |s.memberships| + 1
      && r.store.memberships[r.membership] == Membership(gid, uid, inviter, false, None)
    ensures UniqueMemberships(s) ==> UniqueMemberships(r.store)
  {
    match FindMembership(s, gid, uid)
    case Some(k) => Joined(s, k)
    case None =>
      var t := s.(memberships := s.memberships + [Membership(gid, uid, inviter, false, None)]);
      assert forall j :: 0 <= j < |s.memberships| ==> t.memberships[j] == s.memberships[j];
      Joined(t, |s.memberships|)
  }

  /** Calling find-or-create again, with any inviter, returns the same
      membership and changes nothing. */
  lemma FindOrCreateIdempotent(s: Store, gid: GroupId, uid: UserId, inviter: Option<UserId>, inviter2: Option<UserId>)
    ensures var first := FindOrCreateMembership(s, gid, uid, inviter);
      FindOrCreateMembership(first.store, gid, uid, inviter2) == first
  {
  }

  /** The capacity guard of `add_member!`: only a top-level group whose
      counter already exceeds its size (nil reading as zero) is full. */
  predicate OverCapacity(g: Group)
  {
    IsTopLevel(g) && ToI(g.membershipsCount) > ToI(g.maxSize)
  }

  /** `add_member!`: raise `MaximumMembershipsExceeded` before touching the
      store when the group is over capacity, else find or create. */
  function AddMember(s: Store, gid: GroupId, uid: UserId, inviter: Option<UserId>): (r: Effect<MembershipId>)
    requires gid < |s.groups|
    ensures r.result.Failure? <==> OverCapacity(s.groups[gid])
    ensures r.result.Failure? ==> r.result.error == MaximumMembershipsExceeded && r.store == s
    ensures r.result.Success? ==> Joined(r.store, r.result.value) == FindOrCreateMembership(s, gid, uid, inviter)
    ensures r.store.groups == s.groups && r.store.discussions == s.discussions
    ensures r.store.invitations == s.invitations
    ensures |s.memberships| <= |r.store.memberships|
    ensures r.store.memberships[..|s.memberships|] == s.memberships
    ensures r.result.Success? ==>
      r.result.value < |r.store.memberships| && Matches(r.store.memberships[r.result.value], gid, uid)
    ensures UniqueMemberships(s) ==> UniqueMemberships(r.store)
  {
    var g := s.groups[gid];
    if IsTopLevel(g) && ToI(g.membershipsCount) > ToI(g.maxSize) then
      Effect(s, Failure(MaximumMembershipsExceeded))
    else
      var j := FindOrCreateMembership(s, gid, uid, inviter);
      Effect(j.store, Success(j.membership))
  }

  /** A subgroup never refuses a member; a top-level group refuses one
      exactly when its counter is strictly above its size, so a group at
      exactly its size still admits one more. */
  lemma AddMemberCapacity(s: Store, gid: GroupId, uid: UserId, inviter: Option<UserId>)
    requires gid < |s.groups|
    ensures IsSubgroup(s.groups[gid]) ==> AddMember(s, gid, uid, inviter).result.Success?
    ensures IsTopLevel(s.groups[gid]) && ToI(s.groups[gid].membershipsCount) == ToI(s.groups[gid].maxSize) ==>
      AddMember(s, gid, uid, inviter).result.Success?
    ensures IsTopLevel(s.groups[gid]) && s.groups[gid].membershipsCount.None? && s.groups[gid].maxSize.None? ==>
      AddMember(s, gid, uid, inviter).result.Success?
  {
  }

  /** Adding the same user twice returns the same membership, and the second
      call leaves the store as the first one left it. */
  lemma AddMemberIdempotent(s: Store, gid: GroupId, uid: UserId, inviter: Option<UserId>)
    requires gid < |s.groups|
    requires AddMember(s, gid, uid, inviter).result.Success?
    ensures var first := AddMember(s, gid, uid, inviter);
      AddMember(first.store, gid, uid, inviter) == first
  {
    var first := AddMember(s, gid, uid, inviter);
    assert first.store.groups == s.groups;
  }

  /** Every row of `after` beyond the first `|before|` is a fresh, non-admin,
      unarchived membership of one of `users` in group `gid`, recording
      `inviter`: what `Membership.create!` in find-or-create makes. */
  predicate CreatedFor(before: seq<Membership>, after: seq<Membership>, gid: GroupId, users: seq<UserId>, inviter: Option<UserId>)
  {
    forall i :: |before| <= i < |after| ==>
      after[i].userId in users && after[i] == Membership(gid, after[i].userId, inviter, false, None)
  }

  /** One successful `add_member!` creates at most one row, and only for its user. */
  lemma AddMemberCreates(s: Store, gid: GroupId, uid: UserId, inviter: Option<UserId>)
    requires gid < |s.groups|
    requires AddMember(s, gid, uid, inviter).result.Success?
    ensures var t := AddMember(s, gid, uid, inviter).store;
      |t.memberships| <= |s.memberships| + 1 && CreatedFor(s.memberships, t.memberships, gid, [uid], inviter)
  {
  }

  /** Rows created by two consecutive steps are rows created for the whole list. */
  lemma CreatedChain(a: seq<Membership>, b: seq<Membership>, c: seq<Membership>,
                     gid: GroupId, users: seq<UserId>, inviter: Option<UserId>)
    requires users != []
    requires |a| <= |b| <= |a| + 1 && |b| <= |c| <= |b| + |users| - 1 && c[..|b|] == b
    requires CreatedFor(a, b, gid, [users[0]], inviter)
    requires CreatedFor(b, c, gid, users[1..], inviter)
    ensures |c| <= |a| + |users|
    ensures CreatedFor(a, c, gid, users, inviter)
  {
    forall i | |a| <= i < |c|
      ensures c[i].userId in users && c[i] == Membership(gid, c[i].userId, inviter, false, None)
    {
      if i < |b| {
        assert c[i] == c[..|b|][i] == b[i];
        assert b[i].userId in [users[0]];
      } else {
        assert c[i].userId in users[1..];
      }
    }
  }

  /** `add_members!`: add each user in order. The counter is not refreshed
      between users; the first failure is raised and earlier additions stay. */
  function AddMembers(s: Store, gid: GroupId, users: seq<UserId>, inviter: Option<UserId>): (r: Effect<seq<MembershipId>>)
    requires gid < |s.groups|
    ensures r.store.groups == s.groups && r.store.discussions == s.discussions
    ensures r.store.invitations == s.invitations
    ensures |s.memberships| <= |r.store.memberships|
    ensures r.store.memberships[..|s.memberships|] == s.memberships
    ensures r.result.Failure? <==> |users| > 0 && OverCapacity(s.groups[gid])
    ensures r.result.Failure? ==> r.result.error == MaximumMembershipsExceeded
    ensures r.result.Success? ==>
      && |r.result.value| == |users|
      && forall i :: 0 <= i < |users| ==>
           r.result.value[i] < |r.store.memberships| && Matches(r.store.memberships[r.result.value[i]], gid, users[i])
    ensures UniqueMemberships(s) ==> UniqueMemberships(r.store)
    ensures |r.store.memberships| <= |s.memberships| + |users|
    ensures CreatedFor(s.memberships, r.store.memberships, gid, users, inviter)
    decreases |users|
  {
    if users == [] then Effect(s, Success([]))
    else
      var first := AddMember(s, gid, users[0], inviter);
      match first.result
      case Failure(e) => Effect(first.store, Failure(e))
      case Success(id) =>
        var rest := AddMembers(first.store, gid, users[1..], inviter);
        match rest.result
        case Failure(e) => Effect(rest.store, Failure(e))
        case Success(ids) =>
          PrefixKept(s.memberships, first.store.memberships, rest.store.memberships, id);
          AddMemberCreates(s, gid, users[0], inviter);
          CreatedChain(s.memberships, first.store.memberships, rest.store.memberships, gid, users, inviter);
          Effect(rest.store, Success([id] + ids))
  }

  lemma PrefixKept(a: seq<Membership>, b: seq<Membership>, c: seq<Membership>, k: nat)
    requires |a| <= |b| <= |c| && b[..|a|] == a && c[..|b|] == b && k < |b|
    ensures c[..|a|] == a && c[k] == b[k]
  {
    assert c[..|b|][k] == c[k];
  }

  /** With the counter fixed for the whole call, `add_members!` is
      all-or-nothing: it either fails before creating anything or returns one
      membership per user. */
  lemma AddMembersAllOrNothing(s: Store, gid: GroupId, users: seq<UserId>, inviter: Option<UserId>)
    requires gid < |s.groups|
    ensures var r := AddMembers(s, gid, users, inviter);
      r.result.Failure? ==> r.store == s
  {
  }

  /** `make_admin!` on membership `k`: set its admin flag. */
  function Promote(s: Store, k: MembershipId): (r: Store)
    requires k < |s.memberships|
    ensures |r.memberships| == |s.memberships| && r.memberships[k].admin
    ensures r.memberships[k].(admin := s.memberships[k].admin) == s.memberships[k]
    ensures forall i :: 0 <= i < |s.memberships| && i != k ==> r.memberships[i] == s.memberships[i]
    ensures r.groups == s.groups && r.discussions == s.discussions && r.invitations == s.invitations
    ensures s.memberships[k].admin ==> r == s
  {
    var ms := s.memberships;
    assert ms[k].admin ==> ms[k := ms[k].(admin := true)] == ms;
    s.(memberships := ms[k := ms[k].(admin := true)])
  }

  /** Promotion changes no membership's group or user, so every lookup and
      the uniqueness of memberships are as before. */
  lemma PromoteKeepsLookup(s: Store, k: MembershipId, gid: GroupId, uid: UserId)
    requires k < |s.memberships|
    ensures FindMembership(Promote(s, k), gid, uid) == FindMembership(s, gid, uid)
    ensures UniqueMemberships(s) ==> UniqueMemberships(Promote(s, k))
  {
    var t := Promote(s, k);
    assert forall i :: 0 <= i < |s.memberships| ==>
      (Matches(t.memberships[i], gid, uid) <==> Matches(s.memberships[i], gid, uid));
  }

  /** `add_admin!`: find or create the membership, then promote it. */
  function AddAdmin(s: Store, gid: GroupId, uid: UserId, inviter: Option<UserId>): (r: Joined)
    ensures r.membership < |r.store.memberships|
    ensures Matches(r.store.memberships[r.membership], gid, uid) && r.store.memberships[r.membership].admin
    ensures FindMembership(r.store, gid, uid) == Some(r.membership)
    ensures r.store.groups == s.groups && r.store.discussions == s.discussions
    ensures r.store.invitations == s.invitations
    ensures |s.memberships| <= |r.store.memberships| <= |s.memberships| + 1
    ensures forall i :: 0 <= i < |s.memberships| && i != r.membership ==>
      r.store.memberships[i] == s.memberships[i]
    ensures r.membership < |s.memberships| ==>
      r.store.memberships[r.membership] == s.memberships[r.membership].(admin := true)
    ensures FindMembership(s, gid, uid).None? ==>
      r.membership == |s.memberships| && r.store.memberships[r.membership] == Membership(gid, uid, inviter, true, None)
    ensures UniqueMemberships(s) ==> UniqueMemberships(r.store)
  {
    var j := FindOrCreateMembership(s, gid, uid, inviter);
    var ms := j.store.memberships;
    assert forall i :: 0 <= i < |s.memberships| ==> ms[i] == s.memberships[i] by {
      assert ms[..|s.memberships|] == s.memberships;
    }
    PromoteKeepsLookup(j.store, j.membership, gid, uid);
    Joined(Promote(j.store, j.membership), j.membership)
  }

  /** Promoting twice is the same as promoting once. */
  lemma AddAdminIdempotent(s: Store, gid: GroupId, uid: UserId, inviter: Option<UserId>)
    ensures var first := AddAdmin(s, gid, uid, inviter);
      AddAdmin(first.store, gid, uid, inviter) == first
  {
    var first := AddAdmin(s, gid, uid, inviter);
    var again := FindOrCreateMembership(first.store, gid, uid, inviter);
    assert again == Joined(first.store, first.membership);
    assert Promote(again.store, again.membership) == first.store;
  }

  predicate IsAdminOf(m: Membership, gid: GroupId)
  {
    m.groupId == gid && m.admin
  }

  /** The users holding an admin membership of the group. */
  function AdminUserIds(s: Store, gid: GroupId): (r: set<UserId>)
  {
    set i | 0 <= i < |s.memberships| && IsAdminOf(s.memberships[i], gid) :: s.memberships[i].userId
  }

  /** `contact_person`: the admin with the lowest user id, or None. */
  method ContactPerson(s: Store, gid: GroupId) returns (r: Option<UserId>)
    ensures r.None? <==> AdminUserIds(s, gid) == {}
    ensures r.Some? ==> r.value in AdminUserIds(s, gid)
    ensures r.Some? ==> forall u :: u in AdminUserIds(s, gid) ==> r.value <= u
  {
    r := None;
    var i := 0;
    while i < |s.memberships|
      invariant 0 <= i <= |s.memberships|
      invariant r.None? <==> forall j :: 0 <= j < i ==> !IsAdminOf(s.memberships[j], gid)
      invariant r.Some? ==> exists j :: 0 <= j < i && IsAdminOf(s.memberships[j], gid) && s.memberships[j].userId == r.value
      invariant r.Some? ==> forall j :: 0 <= j < i && IsAdminOf(s.memberships[j], gid) ==> r.value <= s.memberships[j].userId
    {
      var m := s.memberships[i];
      if IsAdminOf(m, gid) && (r.None? || m.userId < r.value) {
        r := Some(m.userId);
      }
      i := i + 1;
    }
    if r.None? {
      assert AdminUserIds(s, gid) == {};
    } else {
      var w :| 0 <= w < |s.memberships| && IsAdminOf(s.memberships[w], gid) && s.memberships[w].userId == r.value;
      assert s.memberships[w].userId in AdminUserIds(s, gid);
      forall u | u in AdminUserIds(s, gid) ensures r.value <= u {
        var j :| 0 <= j < |s.memberships| && IsAdminOf(s.memberships[j], gid) && s.memberships[j].userId == u;
      }
    }
  }

  /** After `add_admin!` the group has a contact person, and it is that user
      or an admin with a lower id. */
  lemma AddAdminGivesContact(s: Store, gid: GroupId, uid: UserId, inviter: Option<UserId>)
    ensures var t := AddAdmin(s, gid, uid, inviter).store;
      uid in AdminUserIds(t, gid) && AdminUserIds(t, gid) != {}
  {
    var j := AddAdmin(s, gid, uid, inviter);
    assert IsAdminOf(j.store.memberships[j.membership], gid);
  }

  predicate IsPending(inv: Invitation, gid: GroupId)
  {
    inv.groupId == gid && inv.acceptedAt.None? && inv.cancelledAt.None?
  }

  /** `pending_invitations.count`: the number of the group's invitations
      neither accepted nor cancelled. It is zero exactly when none is pending
      and reaches `|invs|` exactly when all are. */
  function PendingInvitations(invs: seq<Invitation>, gid: GroupId): (r: nat)
    ensures r <= |invs|
    ensures r == 0 <==> forall i :: 0 <= i < |invs| ==> !IsPending(invs[i], gid)
    ensures r == |invs| <==> forall i :: 0 <= i < |invs| ==> IsPending(invs[i], gid)
  {
    if invs == [] then 0
    else (if IsPending(invs[0], gid) then 1 else 0) + PendingInvitations(invs[1..], gid)
  }

  /** Counting pending invitations distributes over concatenation. */
  lemma {:induction false} PendingInvitationsAppend(a: seq<Invitation>, b: seq<Invitation>, gid: GroupId)
    ensures PendingInvitations(a + b, gid) == PendingInvitations(a, gid) + PendingInvitations(b, gid)
  {
    if a != [] {
      assert (a + b)[1..] == a[1..] + b;
      PendingInvitationsAppend(a[1..], b, gid);
    } else {
      assert a + b == b;
    }
  }

  /** `invitations_remaining`: size minus members minus pending invitations,
      unclamped, so it is negative once the group is over-committed; a nil
      size or counter raises. */
  function InvitationsRemaining(s: Store, gid: GroupId): (r: Result<int, Error>)
    requires gid < |s.groups|
    ensures r.Failure? <==> s.groups[gid].maxSize.None? || s.groups[gid].membershipsCount.None?
    ensures r.Failure? ==> r.error == NilArithmetic
    ensures r.Success? ==>
      r.value + s.groups[gid].membershipsCount.value + PendingInvitations(s.invitations, gid)
        == s.groups[gid].maxSize.value
    ensures r.Success? ==>
      (r.value < 0 <==> s.groups[gid].membershipsCount.value + PendingInvitations(s.invitations, gid)
                          > s.groups[gid].maxSize.value)
  {
    var g := s.groups[gid];
    if g.maxSize.None? || g.membershipsCount.None? then Failure(NilArithmetic)
    else Success(g.maxSize.value - g.membershipsCount.value - PendingInvitations(s.invitations, gid))
  }

  /** A new pending invitation to the group takes exactly one place; any
      other new invitation leaves the allowance alone. */
  lemma InvitationTakesOnePlace(s: Store, gid: GroupId, inv: Invitation)
    requires gid < |s.groups|
    requires InvitationsRemaining(s, gid).Success?
    ensures var t := s.(invitations := s.invitations + [inv]);
      InvitationsRemaining(t, gid).Success?
      && InvitationsRemaining(t, gid).value
         == InvitationsRemaining(s, gid).value - (if IsPending(inv, gid) then 1 else 0)
  {
    PendingInvitationsAppend(s.invitations, [inv], gid);
    assert PendingInvitations([inv], gid) == (if IsPending(inv, gid) then 1 else 0) by {
      assert [inv][1..] == [];
    }
  }
}
