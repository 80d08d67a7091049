/**
 * The visibility tri-state: two stored flags read as one of the terms
 * "public", "parent_members" or "members", and written back from a term.
 */
module Visibility {
  import opened Outcomes
  import opened GroupData

  /** The three terms the `visible_to` accessor understands. */
  predicate IsTerm(term: string)
  {
    term == "public" || term == "parent_members" || term == "members"
  }

  /** The two flags never claim public and parent-members visibility at once. */
  predicate FlagsConsistent(g: Group)
  {
    !(g.isVisibleToPublic && g.isVisibleToParentMembers)
  }

  /** `visible_to`: public wins over parent members, members is the fallback. */
  function VisibleTo(g: Group): (term: string)
    ensures IsTerm(term)
    ensures term == "public" <==> g.isVisibleToPublic
    ensures term == "parent_members" <==> !g.isVisibleToPublic && g.isVisibleToParentMembers
    ensures term == "members" <==> !g.isVisibleToPublic && !g.isVisibleToParentMembers
  {
    if g.isVisibleToPublic then "public"
    else if g.isVisibleToParentMembers then "parent_members"
    else "members"
  }

  /** `visible_to=`: set both flags from a term; any other term raises and
      leaves the group as it was. Nothing but the two flags changes. */
  function AssignVisibleTo(g: Group, term: string): (r: Result<Group, Error>)
    ensures r.Success? <==> IsTerm(term)
    ensures r.Failure? ==> r.error == VisibleToTermNotRecognised(term)
    ensures r.Success? ==> VisibleTo(r.value) == term
    ensures r.Success? ==> FlagsConsistent(r.value)
    ensures r.Success? ==> r.value.(isVisibleToPublic := g.isVisibleToPublic,
                                    isVisibleToParentMembers := g.isVisibleToParentMembers) == g
  {
    if term == "public" then
      Success(g.(isVisibleToPublic := true, isVisibleToParentMembers := false))
    else if term == "parent_members" then
      Success(g.(isVisibleToPublic := false, isVisibleToParentMembers := true))
    else if term == "members" then
      Success(g.(isVisibleToPublic := false, isVisibleToParentMembers := false))
    else
      Failure(VisibleToTermNotRecognised(term))
  }

  /** Reading the term and writing it back restores the group exactly when the
      flags are consistent; when both are set, public wins and the
      parent-members flag is cleared. */
  lemma VisibilityRoundTrip(g: Group)
    ensures AssignVisibleTo(g, VisibleTo(g)) == Success(g) <==> FlagsConsistent(g)
    ensures !FlagsConsistent(g) ==>
      AssignVisibleTo(g, VisibleTo(g)) == Success(g.(isVisibleToParentMembers := false))
  {
  }

  /** A second assignment overrides the first completely. */
  lemma AssignLastWins(g: Group, first: string, second: string)
    requires IsTerm(first)
    ensures AssignVisibleTo(AssignVisibleTo(g, first).value, second)
         == AssignVisibleTo(g, second)
  {
  }

  /** `parent_members_can_see_discussions_is_valid?` */
  predicate ParentMembersCanSeeDiscussionsIsValid(g: Group)
  {
    g.parentMembersCanSeeDiscussions ==> g.isVisibleToParentMembers
  }

  /** `visible_to_parent_members_is_valid?` */
  predicate VisibleToParentMembersIsValid(g: Group)
  {
    g.isVisibleToParentMembers ==> IsHiddenFromPublic(g) && IsSubgroup(g)
  }

  /** A group that passes the parent-members rule has consistent flags, and
      reads as "parent_members" only if it is a subgroup. */
  lemma ValidVisibilityIsConsistent(g: Group)
    requires VisibleToParentMembersIsValid(g)
    ensures FlagsConsistent(g)
    ensures VisibleTo(g) == "parent_members" ==> IsSubgroup(g)
    ensures AssignVisibleTo(g, VisibleTo(g)) == Success(g)
  {
    VisibilityRoundTrip(g);
  }
}
