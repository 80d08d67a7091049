/**
 * Whether a group pays (`is_paying?`) depends only on its payment plan and
 * its subscription, columns that no rule of the group core writes: the core's
 * state changes never turn a paying group into a non-paying one or back.
 */
module Billing {
  import opened Outcomes
  import opened GroupData
  import opened Validation
  import opened Hierarchy
  import opened Archive
  import opened Memberships

  /** Each group of `t` pays exactly when the same group of `s` does. */
  predicate SamePaying(s: Store, t: Store)
  {
    |t.groups| == |s.groups| &&
    forall y :: 0 <= y < |s.groups| ==> (IsPaying(t.groups[y]) <==> IsPaying(s.groups[y]))
  }

  /** Loading a group, which fills in its enum defaults, and stamping it
      do not change whether it pays. */
  lemma LoadKeepsPaying(g: Group, stamp: Option<Time>)
    ensures IsPaying(SetDefaults(g)) <==> IsPaying(g)
    ensures IsPaying(SetDefaults(g).(archivedAt := stamp)) <==> IsPaying(g)
  {
  }

  /** `archive!` leaves every group paying or not as before. */
  lemma ArchiveKeepsPaying(s: Store, x: GroupId, now: Time)
    requires x < |s.groups|
    ensures SamePaying(s, Archive.Archive(s, x, now))
  {
    var r := Archive.Archive(s, x, now);
    forall y | 0 <= y < |s.groups|
      ensures IsPaying(r.groups[y]) <==> IsPaying(s.groups[y])
    {
      LoadKeepsPaying(s.groups[y], Some(now));
    }
  }

  /** Paying depends on the payment plan and the subscription alone. */
  lemma SameBillingSamePaying(a: Group, b: Group)
    requires a.paymentPlan == b.paymentPlan && a.subscription == b.subscription
    ensures IsPaying(a) <==> IsPaying(b)
  {
  }

  /** A rename leaves every group paying or not as before. */
  lemma RenameKeepsPaying(s: Store, gid: GroupId, newName: string)
    requires gid < |s.groups| && ParentResolves(s, s.groups[gid])
    requires Rename(s, gid, newName).Success?
    ensures SamePaying(s, Rename(s, gid, newName).value)
  {
    var r := Rename(s, gid, newName).value;
    forall y | 0 <= y < |s.groups|
      ensures IsPaying(r.groups[y]) <==> IsPaying(s.groups[y])
    {
      var loaded := SetDefaults(s.groups[y]);
      if y == gid {
        assert r.groups[y].(fullName := s.groups[y].fullName) == loaded.(name := newName);
        assert r.groups[y].paymentPlan == loaded.paymentPlan && r.groups[y].subscription == loaded.subscription;
      } else if newName != s.groups[gid].name && IsLiveChildOf(s.groups[y], gid) {
        assert r.groups[y] == loaded.(fullName := Some(newName + " - " + s.groups[y].name));
      } else {
        assert r.groups[y] == s.groups[y];
      }
      SameBillingSamePaying(r.groups[y], s.groups[y]);
    }
  }

  /** Joining and promotion do not touch any group's billing. */
  lemma RegistryKeepsPaying(s: Store, gid: GroupId, uid: UserId, inviter: Option<UserId>)
    requires gid < |s.groups|
    ensures SamePaying(s, AddMember(s, gid, uid, inviter).store)
    ensures SamePaying(s, AddAdmin(s, gid, uid, inviter).store)
  {
  }
}
