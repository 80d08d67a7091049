/**
 * The two-level group hierarchy: which groups are live subgroups of a group,
 * the derived full name, and the rename that refreshes it.
 */
module Hierarchy {
  import opened Outcomes
  import opened GroupData
  import opened Validation

  /** A member of the `subgroups` association: names the group as parent and
      is not archived. */
  predicate IsLiveChildOf(g: Group, gid: GroupId)
  {
    g.parentId == Some(gid) && g.archivedAt.None?
  }

  predicate Ascending(ids: seq<GroupId>)
  {
    forall i, j :: 0 <= i < j < |ids| ==> ids[i] < ids[j]
  }

  function SubgroupsFrom(s: Store, gid: GroupId, lo: nat): (r: seq<GroupId>)
    requires lo <= |s.groups|
    ensures forall y :: y in r <==> lo <= y < |s.groups| && IsLiveChildOf(s.groups[y], gid)
    ensures forall k :: 0 <= k < |r| ==> lo <= r[k]
    ensures Ascending(r)
    ensures r == [] <==> forall y :: lo <= y < |s.groups| ==> !IsLiveChildOf(s.groups[y], gid)
    decreases |s.groups| - lo
  {
    if lo == |s.groups| then []
    else if IsLiveChildOf(s.groups[lo], gid) then [lo] + SubgroupsFrom(s, gid, lo + 1)
    else SubgroupsFrom(s, gid, lo + 1)
  }

  /** `subgroups`: the unarchived groups whose parent is `gid`, each once, by id. */
  function Subgroups(s: Store, gid: GroupId): (r: seq<GroupId>)
    ensures forall y :: y in r <==> 0 <= y < |s.groups| && IsLiveChildOf(s.groups[y], gid)
    ensures Ascending(r)
    ensures r == [] <==> forall y :: 0 <= y < |s.groups| ==> !IsLiveChildOf(s.groups[y], gid)
  {
    SubgroupsFrom(s, gid, 0)
  }

  /** `calculate_full_name`: a top-level group's full name is its own name; a
      subgroup's is its parent's name, the separator " - ", then its own name. */
  function CalculateFullName(s: Store, g: Group): (r: string)
    requires ParentResolves(s, g)
    ensures IsTopLevel(g) ==> r == g.name
    ensures IsSubgroup(g) ==>
      var p := s.groups[g.parentId.value].name;
      r == p + " - " + g.name && |r| == |p| + 3 + |g.name|
  {
    if IsTopLevel(g) then g.name else s.groups[g.parentId.value].name + " - " + g.name
  }

  /** A full name always ends with the group's own name, and a subgroup's
      begins with its parent's name followed by the separator. */
  lemma FullNameAffixes(s: Store, g: Group)
    requires ParentResolves(s, g)
    ensures var f := CalculateFullName(s, g);
      |g.name| <= |f| && f[|f| - |g.name|..] == g.name
    ensures IsSubgroup(g) ==>
      var f := CalculateFullName(s, g);
      var p := s.groups[g.parentId.value].name;
      f[..|p|] == p && f[|p|..|p| + 3] == " - "
  {
    if IsSubgroup(g) {
      var p := s.groups[g.parentId.value].name;
      var prefix := p + " - ";
      assert CalculateFullName(s, g) == prefix + g.name;
      assert (prefix + g.name)[|prefix|..] == g.name;
      assert (prefix + g.name)[..|p|] == p;
    }
  }

  /** The cached full name of group `y` agrees with the calculated one. */
  predicate FullNameCurrent(s: Store, y: GroupId)
    requires y < |s.groups|
  {
    ParentResolves(s, s.groups[y]) && s.groups[y].fullName == Some(CalculateFullName(s, s.groups[y]))
  }

  /** The store after the renamed group `renamed` is saved with the rename
      callback: its full name is recalculated, and every live subgroup is
      loaded (so `set_defaults` runs on it), given the new full name and
      saved. */
  function Propagate(s: Store, gid: GroupId, renamed: Group): (r: Store)
    requires gid < |s.groups| && ParentResolves(s, renamed)
    ensures r.memberships == s.memberships && r.discussions == s.discussions
    ensures r.invitations == s.invitations && |r.groups| == |s.groups|
    ensures r.groups[gid] == renamed.(fullName := Some(CalculateFullName(s, renamed)))
    ensures forall c :: 0 <= c < |s.groups| && c != gid && IsLiveChildOf(s.groups[c], gid) ==>
      r.groups[c] == SetDefaults(s.groups[c]).(fullName := Some(renamed.name + " - " + s.groups[c].name))
    ensures forall c :: 0 <= c < |s.groups| && c != gid && !IsLiveChildOf(s.groups[c], gid) ==>
      r.groups[c] == s.groups[c]
  {
    var saved := renamed.(fullName := Some(CalculateFullName(s, renamed)));
    s.(groups := seq(|s.groups|, i requires 0 <= i < |s.groups| =>
      if i == gid then saved
      else if IsLiveChildOf(s.groups[i], gid) then
        SetDefaults(s.groups[i]).(fullName := Some(renamed.name + " - " + s.groups[i].name))
      else s.groups[i]))
  }

  /** Load group `gid` (running `set_defaults`), assign a new name and save.
      Validation runs first and a failure saves nothing. A successful save
      persists the loaded defaults; when the name really changed, the
      group's full name is recalculated and every live subgroup's full name
      is rebuilt from the new name (`update_full_name_if_name_changed`). */
  function Rename(s: Store, gid: GroupId, newName: string): (r: Result<Store, Error>)
    requires gid < |s.groups| && ParentResolves(s, s.groups[gid])
    ensures var renamed := SetDefaults(s.groups[gid]).(name := newName);
      r.Failure? <==> !Valid(s, renamed)
    ensures r.Failure? ==> r.error == Invalid(Errors(s, SetDefaults(s.groups[gid]).(name := newName)))
    ensures r.Success? && newName == s.groups[gid].name ==>
      r.value == s.(groups := s.groups[gid := SetDefaults(s.groups[gid])])
    ensures r.Success? ==>
      && r.value.memberships == s.memberships
      && r.value.discussions == s.discussions
      && r.value.invitations == s.invitations
      && |r.value.groups| == |s.groups|
      && r.value.groups[gid].name == newName
      && r.value.groups[gid].(fullName := s.groups[gid].fullName) == SetDefaults(s.groups[gid]).(name := newName)
    ensures r.Success? && newName != s.groups[gid].name ==> FullNameCurrent(r.value, gid)
    ensures r.Success? && newName != s.groups[gid].name ==>
      forall c :: 0 <= c < |s.groups| && IsLiveChildOf(s.groups[c], gid) ==>
        r.value.groups[c] == SetDefaults(s.groups[c]).(fullName := Some(newName + " - " + s.groups[c].name))
    ensures r.Success? ==>
      forall c :: 0 <= c < |s.groups| && c != gid && !IsLiveChildOf(s.groups[c], gid) ==>
        r.value.groups[c] == s.groups[c]
  {
    var g := SetDefaults(s.groups[gid]);
    var renamed := g.(name := newName);
    var errs := Errors(s, renamed);
    if errs != [] then
      Failure(Invalid(errs))
    else if newName == g.name then
      Success(s.(groups := s.groups[gid := g]))
    else
      RenamedParentIsElsewhere(s, gid, renamed);
      Success(Propagate(s, gid, renamed))
  }

  /** A valid group's parent is neither the group itself nor one of its
      subgroups, so the rename callback leaves the parent untouched. */
  lemma RenamedParentIsElsewhere(s: Store, gid: GroupId, renamed: Group)
    requires gid < |s.groups| && ParentResolves(s, renamed)
    requires renamed.parentId == s.groups[gid].parentId
    requires Valid(s, renamed)
    ensures renamed.parentId.Some? ==>
      var p := renamed.parentId.value;
      p != gid && !IsLiveChildOf(s.groups[p], gid)
      && Propagate(s, gid, renamed).groups[p] == s.groups[p]
      && FullNameCurrent(Propagate(s, gid, renamed), gid)
    ensures renamed.parentId.None? ==> FullNameCurrent(Propagate(s, gid, renamed), gid)
  {
    assert !Violated(s, renamed, CantSetSubgroupAsParent);
  }

  /** After a successful rename every live subgroup's cached full name agrees
      with the one calculated from the renamed parent. */
  lemma RenameRefreshesSubgroups(s: Store, gid: GroupId, newName: string)
    requires gid < |s.groups| && ParentResolves(s, s.groups[gid])
    requires Rename(s, gid, newName).Success? && newName != s.groups[gid].name
    ensures var t := Rename(s, gid, newName).value;
      forall c :: 0 <= c < |s.groups| && IsLiveChildOf(s.groups[c], gid) ==> FullNameCurrent(t, c)
  {
    var t := Rename(s, gid, newName).value;
    forall c | 0 <= c < |s.groups| && IsLiveChildOf(s.groups[c], gid)
      ensures FullNameCurrent(t, c)
    {
      assert c != gid by {
        assert Valid(s, SetDefaults(s.groups[gid]).(name := newName));
        assert !Violated(s, SetDefaults(s.groups[gid]).(name := newName), CantSetSubgroupAsParent);
      }
      assert t.groups[c] == SetDefaults(s.groups[c]).(fullName := Some(newName + " - " + s.groups[c].name));
      assert t.groups[gid].name == newName;
      ChildFullNameCurrent(t, c, gid);
    }
  }

  /** A subgroup whose cached full name is its parent's name, " - " and its
      own name has a current full name. */
  lemma ChildFullNameCurrent(t: Store, c: GroupId, p: GroupId)
    requires c < |t.groups| && p < |t.groups|
    requires t.groups[c].parentId == Some(p)
    requires t.groups[c].fullName == Some(t.groups[p].name + " - " + t.groups[c].name)
    ensures FullNameCurrent(t, c)
  {
  }

  /** A group with the given name and parent whose other columns all pass validation. */
  function ExampleGroup(name: string, parentId: Option<GroupId>): (g: Group)
  {
    Group(name, None, parentId, None, Some(20), Some("pwyc"), Some("public_or_private"), Some("approval"),
          false, false, false, Some(0), None, None)
  }

  function ExampleStore(): (s: Store)
  {
    Store([ExampleGroup("Engineering", None), ExampleGroup("Backend", Some(0))], [], [], [])
  }

  /** Renaming a stored "Engineering" row, once loaded, passes validation. */
  lemma ExampleRenameValid(s: Store)
    requires |s.groups| > 0 && SetDefaults(s.groups[0]) == ExampleGroup("Engineering", None)
    ensures Valid(s, SetDefaults(s.groups[0]).(name := "Eng"))
  {
    var renamed := SetDefaults(s.groups[0]).(name := "Eng");
    assert renamed == ExampleGroup("Eng", None);
    assert !Blank(renamed.name) by { assert renamed.name[0] == 'E'; }
    assert Includes(renamed.paymentPlan, PaymentPlans) by { assert PaymentPlans[0] == "pwyc"; }
    assert Includes(renamed.discussionPrivacyOptions, DiscussionPrivacyOptions) by {
      assert DiscussionPrivacyOptions[2] == "public_or_private";
    }
    assert Includes(renamed.membershipGrantedUpon, MembershipGrantedUponOptions) by {
      assert MembershipGrantedUponOptions[1] == "approval";
    }
    forall e ensures !Violated(s, renamed, e) {
    }
    NoViolationIsValid(s, renamed);
  }

  /** One instance of the rename contract, for a named subgroup. */
  lemma RenamedChildFullName(s: Store, gid: GroupId, newName: string, c: GroupId)
    requires gid < |s.groups| && ParentResolves(s, s.groups[gid])
    requires Valid(s, SetDefaults(s.groups[gid]).(name := newName)) && newName != s.groups[gid].name
    requires c < |s.groups| && IsLiveChildOf(s.groups[c], gid)
    requires IsTopLevel(s.groups[gid])
    ensures Rename(s, gid, newName).Success?
    ensures Rename(s, gid, newName).value.groups[gid].fullName == Some(newName)
    ensures Rename(s, gid, newName).value.groups[c].fullName == Some(newName + " - " + s.groups[c].name)
  {
  }

  /** Renaming "Engineering" to "Eng" gives its subgroup "Backend" the full
      name "Eng - Backend". */
  lemma RenameEngineeringExample(s: Store)
    requires s == ExampleStore()
    ensures Rename(s, 0, "Eng").Success?
    ensures Rename(s, 0, "Eng").value.groups[0].fullName == Some("Eng")
    ensures Rename(s, 0, "Eng").value.groups[1].fullName == Some("Eng" + " - " + "Backend")
  {
    ExampleRenameValid(s);
    assert IsLiveChildOf(s.groups[1], 0) && s.groups[1].name == "Backend";
    RenamedChildFullName(s, 0, "Eng", 1);
  }

  /** The example row as stored before its two enum columns were filled in. */
  function UndefaultedStore(): (s: Store)
  {
    Store([ExampleGroup("Engineering", None).(discussionPrivacyOptions := None, membershipGrantedUpon := None)], [], [], [])
  }

  /** A row whose enum columns are nil is defaulted when loaded, so renaming
      it succeeds and the save persists both defaults. */
  lemma RenameUndefaultedExample(s: Store)
    requires s == UndefaultedStore()
    ensures Rename(s, 0, "Eng").Success?
    ensures Rename(s, 0, "Eng").value.groups[0].discussionPrivacyOptions == Some("public_or_private")
    ensures Rename(s, 0, "Eng").value.groups[0].membershipGrantedUpon == Some("approval")
  {
    assert SetDefaults(s.groups[0]) == ExampleGroup("Engineering", None);
    ExampleRenameValid(s);
  }
}
