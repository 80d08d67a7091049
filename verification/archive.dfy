/**
 * The archive cascade: a group, its discussions and memberships are stamped,
 * then every subgroup that is still live is archived the same way.
 */
module Archive {
  import opened Outcomes
  import opened GroupData
  import opened Validation
  import opened Hierarchy

  /** Ids of the groups not yet archived. */
  function Unarchived(s: Store): (r: set<GroupId>)
  {
    set y: GroupId | y < |s.groups| && s.groups[y].archivedAt.None?
  }

  /** `t` differs from `s` only by archive stamps carrying the time `now`:
      no record is created or removed, and a stamped group is saved as it
      was loaded, so with `set_defaults` applied and nothing else edited. */
  predicate Stamps(s: Store, t: Store, now: Time)
  {
    && |t.groups| == |s.groups|
    && |t.memberships| == |s.memberships|
    && |t.discussions| == |s.discussions|
    && t.invitations == s.invitations
    && (forall y :: 0 <= y < |s.groups| ==>
          t.groups[y] == s.groups[y] || t.groups[y] == SetDefaults(s.groups[y]).(archivedAt := Some(now)))
    && (forall i :: 0 <= i < |s.memberships| ==>
          t.memberships[i] == s.memberships[i] || t.memberships[i] == s.memberships[i].(archivedAt := Some(now)))
    && (forall i :: 0 <= i < |s.discussions| ==>
          t.discussions[i] == s.discussions[i] || t.discussions[i] == s.discussions[i].(archived := true))
  }

  /** Group `x`, all of its memberships and all of its discussions are archived at `now`. */
  predicate Archived(s: Store, x: GroupId, now: Time)
  {
    && x < |s.groups|
    && s.groups[x].archivedAt == Some(now)
    && (forall i :: 0 <= i < |s.memberships| && s.memberships[i].groupId == x ==>
          s.memberships[i].archivedAt == Some(now))
    && (forall i :: 0 <= i < |s.discussions| && s.discussions[i].groupId == x ==>
          s.discussions[i].archived)
  }

  /** Only records of the groups in `touched` differ between `s` and `t`. */
  predicate FramedBy(s: Store, t: Store, touched: set<GroupId>)
  {
    && |t.groups| == |s.groups|
    && |t.memberships| == |s.memberships|
    && |t.discussions| == |s.discussions|
    && t.invitations == s.invitations
    && (forall y :: 0 <= y < |s.groups| && y !in touched ==> t.groups[y] == s.groups[y])
    && (forall i :: 0 <= i < |s.memberships| && s.memberships[i].groupId !in touched ==>
          t.memberships[i] == s.memberships[i])
    && (forall i :: 0 <= i < |s.discussions| && s.discussions[i].groupId !in touched ==>
          t.discussions[i] == s.discussions[i])
  }

  /** The group's own step: archive its discussions, save the loaded group
      with its archive stamp, stamp its memberships. */
  function StampGroup(s: Store, x: GroupId, now: Time): (r: Store)
    requires x < |s.groups|
    ensures Stamps(s, r, now)
    ensures Archived(r, x, now)
    ensures r.groups[x] == SetDefaults(s.groups[x]).(archivedAt := Some(now))
    ensures FramedBy(s, r, {x})
  {
    s.(groups := s.groups[x := SetDefaults(s.groups[x]).(archivedAt := Some(now))],
       memberships := seq(|s.memberships|, i requires 0 <= i < |s.memberships| =>
         if s.memberships[i].groupId == x then s.memberships[i].(archivedAt := Some(now))
         else s.memberships[i]),
       discussions := seq(|s.discussions|, i requires 0 <= i < |s.discussions| =>
         if s.discussions[i].groupId == x then s.discussions[i].(archived := true)
         else s.discussions[i]))
  }

  /** The termination measure: live groups, plus one if `x` is already archived. */
  function Measure(s: Store, x: GroupId): (r: nat)
    requires x < |s.groups|
  {
    |Unarchived(s)| + (if s.groups[x].archivedAt.Some? then 1 else 0)
  }

  /** `archive!`: stamp the group, then archive each subgroup that is live at
      that moment, in id order. */
  function Archive(s: Store, x: GroupId, now: Time): (r: Store)
    requires x < |s.groups|
    ensures Stamps(s, r, now)
    ensures Archived(r, x, now) && IsArchived(r.groups[x])
    ensures forall c :: 0 <= c < |s.groups| && IsLiveChildOf(s.groups[c], x) ==> Archived(r, c, now)
    decreases Measure(s, x), 1, 0
  {
    var s1 := StampGroup(s, x, now);
    StampGroupMeasure(s, x, now);
    SubgroupsAreUnarchived(s1, x);
    var r := ArchiveEach(s1, Subgroups(s1, x), now, Unarchived(s1));
    StampsTransitive(s, s1, r, now);
    StampsKeepArchived(s1, r, x, now);
    LiveChildrenListed(s, x, now);
    r
  }

  /** `archive!` saves the group and each subgroup that was live beforehand
      as loaded, that is with `set_defaults` applied, and with the archive
      stamp `now`; nothing else of those rows changes. */
  lemma ArchiveSavesLoadedGroups(s: Store, x: GroupId, now: Time)
    requires x < |s.groups|
    ensures var r := Archive(s, x, now);
      && r.groups[x] == SetDefaults(s.groups[x]).(archivedAt := Some(now))
      && forall c :: 0 <= c < |s.groups| && IsLiveChildOf(s.groups[c], x) ==>
           r.groups[c] == SetDefaults(s.groups[c]).(archivedAt := Some(now))
  {
    var s1 := StampGroup(s, x, now);
    var r := Archive(s, x, now);
    assert r == ArchiveEach(s1, Subgroups(s1, x), now, Unarchived(s1));
    RestampKeeps(s1, r, x, s.groups[x], now);
    FirstStamps(s, r, x, now);
  }

  /** Archive each listed group in turn; `base` bounds the live groups and
      contains every group still to be archived. */
  function ArchiveEach(s: Store, cs: seq<GroupId>, now: Time, ghost base: set<GroupId>): (r: Store)
    requires forall k :: 0 <= k < |cs| ==> cs[k] < |s.groups| && cs[k] in base
    requires Unarchived(s) <= base
    ensures Stamps(s, r, now)
    ensures forall k :: 0 <= k < |cs| ==> Archived(r, cs[k], now)
    decreases |base| + 1, 0, |cs|
  {
    if cs == [] then
      StampsReflexive(s, now);
      s
    else
      ChildMeasure(s, cs[0], base);
      var s2 := Archive(s, cs[0], now);
      StampsShrinkUnarchived(s, s2, now);
      var r := ArchiveEach(s2, cs[1..], now, base);
      EachStep(s, s2, r, cs, now);
      r
  }

  lemma EachStep(s: Store, s2: Store, r: Store, cs: seq<GroupId>, now: Time)
    requires cs != []
    requires Stamps(s, s2, now) && Stamps(s2, r, now) && Archived(s2, cs[0], now)
    requires forall k :: 0 <= k < |cs[1..]| ==> Archived(r, cs[1..][k], now)
    ensures Stamps(s, r, now)
    ensures forall k :: 0 <= k < |cs| ==> Archived(r, cs[k], now)
  {
    StampsTransitive(s, s2, r, now);
    StampsKeepArchived(s2, r, cs[0], now);
    forall k | 1 <= k < |cs| ensures Archived(r, cs[k], now) {
      assert cs[k] == cs[1..][k - 1];
    }
  }

  lemma StampsReflexive(s: Store, now: Time)
    ensures Stamps(s, s, now)
  {
  }

  lemma StampsTransitive(a: Store, b: Store, c: Store, now: Time)
    requires Stamps(a, b, now) && Stamps(b, c, now)
    ensures Stamps(a, c, now)
  {
  }

  lemma StampsKeepArchived(a: Store, b: Store, x: GroupId, now: Time)
    requires Stamps(a, b, now) && Archived(a, x, now)
    ensures Archived(b, x, now)
  {
  }

  /** A group already saved with its defaults and the stamp `now` is left
      exactly as it is by further stamping. */
  lemma RestampKeeps(a: Store, b: Store, y: GroupId, g: Group, now: Time)
    requires Stamps(a, b, now) && y < |a.groups|
    requires a.groups[y] == SetDefaults(g).(archivedAt := Some(now))
    ensures b.groups[y] == a.groups[y]
  {
    assert SetDefaults(a.groups[y]) == a.groups[y];
  }

  /** A live child that ends up archived at `now` was stamped from its
      loaded form. */
  lemma FirstStamps(s: Store, r: Store, x: GroupId, now: Time)
    requires Stamps(s, r, now)
    requires forall c :: 0 <= c < |s.groups| && IsLiveChildOf(s.groups[c], x) ==> Archived(r, c, now)
    ensures forall c :: 0 <= c < |s.groups| && IsLiveChildOf(s.groups[c], x) ==>
      r.groups[c] == SetDefaults(s.groups[c]).(archivedAt := Some(now))
  {
  }

  /** Stamping never brings a group back to life. */
  lemma StampsShrinkUnarchived(a: Store, b: Store, now: Time)
    requires Stamps(a, b, now)
    ensures Unarchived(b) <= Unarchived(a)
  {
  }

  lemma StampGroupMeasure(s: Store, x: GroupId, now: Time)
    requires x < |s.groups|
    ensures |Unarchived(StampGroup(s, x, now))| + 1 == Measure(s, x)
  {
    var s1 := StampGroup(s, x, now);
    assert Unarchived(s1) == Unarchived(s) - {x};
  }

  lemma SubgroupsAreUnarchived(s: Store, x: GroupId)
    ensures forall k :: 0 <= k < |Subgroups(s, x)| ==>
      Subgroups(s, x)[k] < |s.groups| && Subgroups(s, x)[k] in Unarchived(s)
  {
    var cs := Subgroups(s, x);
    forall k | 0 <= k < |cs| ensures cs[k] < |s.groups| && cs[k] in Unarchived(s) {
      assert cs[k] in cs;
    }
  }

  lemma SubsetCardinality(a: set<GroupId>, b: set<GroupId>)
    requires a <= b
    ensures |a| <= |b|
  {
    if a != {} {
      var y :| y in a;
      SubsetCardinality(a - {y}, b - {y});
    }
  }

  lemma ChildMeasure(s: Store, c: GroupId, base: set<GroupId>)
    requires c < |s.groups| && c in base && Unarchived(s) <= base
    ensures Measure(s, c) <= |base|
  {
    if s.groups[c].archivedAt.Some? {
      SubsetCardinality(Unarchived(s), base - {c});
    } else {
      SubsetCardinality(Unarchived(s), base);
    }
  }

  lemma LiveChildrenListed(s: Store, x: GroupId, now: Time)
    requires x < |s.groups|
    ensures var s1 := StampGroup(s, x, now);
      forall c :: 0 <= c < |s.groups| && c != x && IsLiveChildOf(s.groups[c], x) ==> c in Subgroups(s1, x)
  {
  }

  function CascadeSet(s: Store, x: GroupId): (r: set<GroupId>)
  {
    {x} + set y: GroupId | y < |s.groups| && IsLiveChildOf(s.groups[y], x)
  }

  lemma FramedByTransitive(a: Store, b: Store, c: Store, t1: set<GroupId>, t2: set<GroupId>)
    requires FramedBy(a, b, t1) && FramedBy(b, c, t2)
    ensures FramedBy(a, c, t1 + t2)
  {
  }

  lemma StampsKeepHierarchy(a: Store, b: Store, now: Time)
    requires Stamps(a, b, now) && Hierarchical(a)
    ensures Hierarchical(b)
    ensures forall y :: 0 <= y < |a.groups| ==> b.groups[y].parentId == a.groups[y].parentId
  {
    forall y | 0 <= y < |b.groups|
      ensures ParentResolves(b, b.groups[y]) && LimitInheritance(b, b.groups[y])
    {
      assert ParentResolves(a, a.groups[y]) && LimitInheritance(a, a.groups[y]);
    }
  }

  /** In a hierarchical store, archiving a subgroup is just its own step. */
  lemma ArchiveLeaf(s: Store, c: GroupId, now: Time)
    requires Hierarchical(s) && c < |s.groups| && IsSubgroup(s.groups[c])
    ensures Archive(s, c, now) == StampGroup(s, c, now)
  {
    var s1 := StampGroup(s, c, now);
    SubgroupsAreLeaves(s, c);
    assert Subgroups(s1, c) == [];
  }

  /** Archiving a list of subgroups of a hierarchical store touches only them. */
  lemma {:induction false} ArchiveEachLeaves(s: Store, cs: seq<GroupId>, now: Time, base: set<GroupId>)
    requires Hierarchical(s)
    requires forall k :: 0 <= k < |cs| ==> cs[k] < |s.groups| && cs[k] in base && IsSubgroup(s.groups[cs[k]])
    requires Unarchived(s) <= base
    ensures FramedBy(s, ArchiveEach(s, cs, now, base), set c | c in cs)
    decreases |cs|
  {
    if cs == [] {
      assert ArchiveEach(s, cs, now, base) == s;
    } else {
      var s2 := Archive(s, cs[0], now);
      LeafStep(s, cs, now, base);
      ArchiveEachLeaves(s2, cs[1..], now, base);
      FramedByJoin(s, s2, ArchiveEach(s2, cs[1..], now, base), cs);
    }
  }

  /** One step of the list: archiving its head is that subgroup's own step,
      and the rest of the list meets the same requirements afterwards. */
  lemma LeafStep(s: Store, cs: seq<GroupId>, now: Time, base: set<GroupId>)
    requires Hierarchical(s) && cs != []
    requires forall k :: 0 <= k < |cs| ==> cs[k] < |s.groups| && cs[k] in base && IsSubgroup(s.groups[cs[k]])
    requires Unarchived(s) <= base
    ensures var s2 := Archive(s, cs[0], now);
      && Hierarchical(s2)
      && FramedBy(s, s2, {cs[0]})
      && Unarchived(s2) <= base
      && (forall k :: 0 <= k < |cs[1..]| ==>
            cs[1..][k] < |s2.groups| && cs[1..][k] in base && IsSubgroup(s2.groups[cs[1..][k]]))
      && ArchiveEach(s, cs, now, base) == ArchiveEach(s2, cs[1..], now, base)
  {
    var s2 := Archive(s, cs[0], now);
    ArchiveLeaf(s, cs[0], now);
    StampsKeepHierarchy(s, s2, now);
    StampsShrinkUnarchived(s, s2, now);
    var tail := cs[1..];
    forall k | 0 <= k < |tail|
      ensures tail[k] < |s2.groups| && tail[k] in base && IsSubgroup(s2.groups[tail[k]])
    {
      assert tail[k] == cs[k + 1];
    }
  }

  lemma FramedByJoin(s: Store, s2: Store, r: Store, cs: seq<GroupId>)
    requires cs != []
    requires FramedBy(s, s2, {cs[0]}) && FramedBy(s2, r, set c | c in cs[1..])
    ensures FramedBy(s, r, set c | c in cs)
  {
    var touched := {cs[0]} + set c | c in cs[1..];
    FramedByTransitive(s, s2, r, {cs[0]}, set c | c in cs[1..]);
    assert cs == [cs[0]] + cs[1..];
    assert touched == set c | c in cs;
  }

  /** After `archive!` on a group of a hierarchical store: the group and each
      subgroup that was live beforehand are archived together with their
      memberships and discussions, and no record of any other group changes. */
  lemma ArchiveCascade(s: Store, x: GroupId, now: Time)
    requires Hierarchical(s) && x < |s.groups|
    ensures var r := Archive(s, x, now);
      && Archived(r, x, now)
      && (forall c :: 0 <= c < |s.groups| && IsLiveChildOf(s.groups[c], x) ==> Archived(r, c, now))
      && FramedBy(s, r, CascadeSet(s, x))
  {
    var s1 := StampGroup(s, x, now);
    var cs := Subgroups(s1, x);
    StampsKeepHierarchy(s, s1, now);
    if IsSubgroup(s.groups[x]) {
      SubgroupsAreLeaves(s1, x);
      assert cs == [];
      assert ArchiveEach(s1, cs, now, Unarchived(s1)) == s1;
    } else {
      forall k | 0 <= k < |cs|
        ensures cs[k] < |s1.groups| && cs[k] in Unarchived(s1) && IsSubgroup(s1.groups[cs[k]])
        ensures cs[k] in CascadeSet(s, x)
      {
        assert cs[k] in cs;
        assert cs[k] != x;
      }
      ArchiveEachLeaves(s1, cs, now, Unarchived(s1));
      var r := ArchiveEach(s1, cs, now, Unarchived(s1));
      FramedByTransitive(s, s1, r, {x}, set c | c in cs);
      assert {x} + (set c | c in cs) <= CascadeSet(s, x);
    }
  }
}
