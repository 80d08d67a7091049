/**
 * Batch validation of a group before it is saved: every rule is checked and
 * every failure is reported. The validators run in the order they are
 * declared; `errors` keeps their messages per attribute, so the two name
 * errors are listed together.
 */
module Validation {
  import opened Outcomes
  import opened GroupData
  import opened Visibility

  /** The characters a blank name may consist of: space, tab, line feed,
      carriage return, vertical tab and form feed. */
  predicate IsSpace(c: char)
  {
    c == ' ' || c == '\t' || c == '\n' || c == '\r' || c == '\U{000B}' || c == '\U{000C}'
  }

  /** `blank?` on a string: empty or whitespace only. */
  predicate Blank(s: string)
  {
    forall i :: 0 <= i < |s| ==> IsSpace(s[i])
  }

  /** Length of a nullable text column; nil counts as empty. */
  function Length(x: Option<string>): (r: nat)
  {
    match x
    case None => 0
    case Some(s) => |s|
  }

  /** The parent a group names, if any, is in the store. */
  predicate ParentResolves(s: Store, g: Group)
  {
    g.parentId.Some? ==> g.parentId.value < |s.groups|
  }

  /** `limit_inheritance`: a group's parent must itself be top-level. */
  function LimitInheritance(s: Store, g: Group): (r: bool)
    requires ParentResolves(s, g)
    ensures IsTopLevel(g) ==> r
    ensures IsSubgroup(g) ==> (r <==> s.groups[g.parentId.value].parentId.None?)
  {
    g.parentId.Some? ==> IsTopLevel(s.groups[g.parentId.value])
  }

  /** Every stored group names a stored parent and passes `limit_inheritance`:
      the hierarchy is at most two levels deep. */
  predicate Hierarchical(s: Store)
  {
    forall y :: 0 <= y < |s.groups| ==>
      ParentResolves(s, s.groups[y]) && LimitInheritance(s, s.groups[y])
  }

  /** The rule behind each validation error, stated one error at a time. */
  predicate Violated(s: Store, g: Group, e: ValidationError)
    requires ParentResolves(s, g)
  {
    match e
    case NameBlank => Blank(g.name)
    case PaymentPlanNotIncluded => !Includes(g.paymentPlan, PaymentPlans)
    case DiscussionPrivacyNotIncluded => !Includes(g.discussionPrivacyOptions, DiscussionPrivacyOptions)
    case MembershipGrantedUponNotIncluded => !Includes(g.membershipGrantedUpon, MembershipGrantedUponOptions)
    case DescriptionTooLong => Length(g.description) > MaxDescriptionLength
    case NameTooLong => |g.name| > MaxNameLength
    case CantSetSubgroupAsParent => !LimitInheritance(s, g)
    case ParentMembersCanSeeDiscussionsInvalid => !ParentMembersCanSeeDiscussionsIsValid(g)
    case IsVisibleToParentMembersInvalid => !VisibleToParentMembersIsValid(g)
  }

  /** Position of a rule in the declaration order. */
  function Rank(e: ValidationError): (r: nat)
  {
    match e
    case NameBlank => 0
    case PaymentPlanNotIncluded => 1
    case DiscussionPrivacyNotIncluded => 2
    case MembershipGrantedUponNotIncluded => 3
    case DescriptionTooLong => 4
    case NameTooLong => 5
    case CantSetSubgroupAsParent => 6
    case ParentMembersCanSeeDiscussionsInvalid => 7
    case IsVisibleToParentMembersInvalid => 8
  }

  /** Every rule, in the order the validators are declared. */
  const Rules: seq<ValidationError> := [
    NameBlank, PaymentPlanNotIncluded, DiscussionPrivacyNotIncluded,
    MembershipGrantedUponNotIncluded, DescriptionTooLong, NameTooLong,
    CantSetSubgroupAsParent, ParentMembersCanSeeDiscussionsInvalid,
    IsVisibleToParentMembersInvalid]

  predicate RankOrdered(rules: seq<ValidationError>)
  {
    forall i, j :: 0 <= i < j < |rules| ==> Rank(rules[i]) < Rank(rules[j])
  }

  /** Every validation error has its rule in `Rules`. */
  lemma RulesComplete()
    ensures forall e :: e in Rules
    ensures RankOrdered(Rules)
  {
    forall e ensures e in Rules {
      assert Rules[Rank(e)] == e;
    }
    assert forall i :: 0 <= i < |Rules| ==> Rank(Rules[i]) == i;
  }

  /** The tail of an ordered rule list is ordered. */
  lemma TailOrdered(rules: seq<ValidationError>)
    requires rules != [] && RankOrdered(rules)
    ensures RankOrdered(rules[1..])
  {
    forall i, j | 0 <= i < j < |rules| - 1 ensures Rank(rules[1..][i]) < Rank(rules[1..][j]) {
      assert rules[1..][i] == rules[i + 1] && rules[1..][j] == rules[j + 1];
    }
  }

  /** What survives from the tail of an ordered rule list ranks above its head. */
  lemma TailRanksAbove(rules: seq<ValidationError>, rest: seq<ValidationError>)
    requires rules != [] && RankOrdered(rules)
    requires forall e :: e in rest ==> e in rules[1..]
    ensures forall e :: e in rest ==> Rank(rules[0]) < Rank(e)
  {
    forall e | e in rest ensures Rank(rules[0]) < Rank(e) {
      var k :| 0 <= k < |rules[1..]| && rules[1..][k] == e;
      assert rules[k + 1] == e;
    }
  }

  /** Run the given validators in turn, keeping each one that fails. */
  function Collect(s: Store, g: Group, rules: seq<ValidationError>): (errs: seq<ValidationError>)
    requires ParentResolves(s, g)
    requires RankOrdered(rules)
    ensures forall e :: e in errs <==> e in rules && Violated(s, g, e)
    ensures RankOrdered(errs)
  {
    if rules == [] then []
    else
      var rest := Collect(s, g, rules[1..]);
      TailRanksAbove(rules, rest);
      if Violated(s, g, rules[0]) then [rules[0]] + rest else rest
  }

  /** The attribute an error is recorded under in `errors`. */
  datatype Attribute =
    | OnName
    | OnPaymentPlan
    | OnDiscussionPrivacyOptions
    | OnMembershipGrantedUpon
    | OnDescription
    | OnBase
    | OnParentMembersCanSeeDiscussions
    | OnIsVisibleToParentMembers

  function AttributeOf(e: ValidationError): Attribute
  {
    match e
    case NameBlank => OnName
    case PaymentPlanNotIncluded => OnPaymentPlan
    case DiscussionPrivacyNotIncluded => OnDiscussionPrivacyOptions
    case MembershipGrantedUponNotIncluded => OnMembershipGrantedUpon
    case DescriptionTooLong => OnDescription
    case NameTooLong => OnName
    case CantSetSubgroupAsParent => OnBase
    case ParentMembersCanSeeDiscussionsInvalid => OnParentMembersCanSeeDiscussions
    case IsVisibleToParentMembersInvalid => OnIsVisibleToParentMembers
  }

  /** The errors of an ordered list recorded under `a` (when `on`) or under
      any other attribute (when `!on`), keeping their order. */
  function Part(errs: seq<ValidationError>, a: Attribute, on: bool): (r: seq<ValidationError>)
    requires RankOrdered(errs)
    ensures forall e :: e in r <==> e in errs && (AttributeOf(e) == a) == on
    ensures RankOrdered(r) && |r| <= |errs|
    ensures errs != [] && (AttributeOf(errs[0]) == a) == on ==> r != [] && r[0] == errs[0]
    ensures errs != [] && (AttributeOf(errs[0]) == a) != on ==> |r| < |errs|
    decreases |errs|
  {
    if errs == [] then []
    else
      TailOrdered(errs);
      var rest := Part(errs[1..], a, on);
      TailRanksAbove(errs, rest);
      if (AttributeOf(errs[0]) == a) == on then [errs[0]] + rest else rest
  }

  /** Position `i` starts the run of a new attribute. */
  predicate Leads(r: seq<ValidationError>, i: int)
    requires 0 <= i < |r|
  {
    i == 0 || AttributeOf(r[i - 1]) != AttributeOf(r[i])
  }

  /** The errors of one attribute stand together. */
  predicate Contiguous(r: seq<ValidationError>)
  {
    forall i, j, k :: 0 <= i < j < k < |r| && AttributeOf(r[i]) == AttributeOf(r[k]) ==>
      AttributeOf(r[j]) == AttributeOf(r[i])
  }

  /** The errors of one attribute keep the order their validators ran in. */
  predicate WithinRanked(r: seq<ValidationError>)
  {
    forall i, j :: 0 <= i < j < |r| && AttributeOf(r[i]) == AttributeOf(r[j]) ==> Rank(r[i]) < Rank(r[j])
  }

  /** The attributes come in the order they first failed. */
  predicate LeadsRanked(r: seq<ValidationError>)
  {
    forall i, j :: 0 <= i < j < |r| && Leads(r, i) && Leads(r, j) ==> Rank(r[i]) < Rank(r[j])
  }

  /** How `errors` lists its messages: those of one attribute together, in
      the order the validators added them, and the attributes in the order
      they first failed. */
  predicate AttributeOrdered(r: seq<ValidationError>)
  {
    Contiguous(r) && WithinRanked(r) && LeadsRanked(r)
  }

  /** The shared hypotheses of the three grouping steps below: `same` holds
      the errors of the first failing attribute, `rest` only other ones. */
  predicate StepParts(errs: seq<ValidationError>, same: seq<ValidationError>, rest: seq<ValidationError>)
  {
    && errs != [] && RankOrdered(errs)
    && RankOrdered(same) && same != [] && same[0] == errs[0]
    && (forall e :: e in same ==> AttributeOf(e) == AttributeOf(errs[0]))
    && (forall e :: e in rest ==> e in errs && AttributeOf(e) != AttributeOf(errs[0]))
  }

  lemma ContiguousStep(errs: seq<ValidationError>, same: seq<ValidationError>, rest: seq<ValidationError>)
    requires StepParts(errs, same, rest) && Contiguous(rest)
    ensures Contiguous(same + rest)
  {
    var r := same + rest;
    var n := |same|;
    forall i, j, k | 0 <= i < j < k < |r| && AttributeOf(r[i]) == AttributeOf(r[k])
      ensures AttributeOf(r[j]) == AttributeOf(r[i])
    {
      if k < n {
        assert r[i] == same[i] && r[j] == same[j] && same[i] in same && same[j] in same;
      } else if n <= i {
        assert r[i] == rest[i - n] && r[j] == rest[j - n] && r[k] == rest[k - n];
      } else {
        AcrossRuns(errs, same, rest, i, k);
      }
    }
  }

  lemma WithinRankedStep(errs: seq<ValidationError>, same: seq<ValidationError>, rest: seq<ValidationError>)
    requires StepParts(errs, same, rest) && WithinRanked(rest)
    ensures WithinRanked(same + rest)
  {
    var r := same + rest;
    var n := |same|;
    forall i, j | 0 <= i < j < |r| && AttributeOf(r[i]) == AttributeOf(r[j])
      ensures Rank(r[i]) < Rank(r[j])
    {
      if j < n {
        assert r[i] == same[i] && r[j] == same[j];
      } else if n <= i {
        assert r[i] == rest[i - n] && r[j] == rest[j - n];
      } else {
        AcrossRuns(errs, same, rest, i, j);
      }
    }
  }

  lemma LeadsRankedStep(errs: seq<ValidationError>, same: seq<ValidationError>, rest: seq<ValidationError>)
    requires StepParts(errs, same, rest) && LeadsRanked(rest)
    ensures LeadsRanked(same + rest)
  {
    var r := same + rest;
    var n := |same|;
    forall i, j | 0 <= i < j < |r| && Leads(r, i) && Leads(r, j)
      ensures Rank(r[i]) < Rank(r[j])
    {
      if 0 < i < n {
        NotLeadInside(errs, same, rest, i);
      } else if j < n {
        NotLeadInside(errs, same, rest, j);
      } else if i == 0 {
        HeadRanksFirst(errs, same, rest, j);
      } else {
        LeadsInRest(same, rest, i);
        LeadsInRest(same, rest, j);
      }
    }
  }

  /** The first error ranks below every error of another attribute. */
  lemma HeadRanksFirst(errs: seq<ValidationError>, same: seq<ValidationError>, rest: seq<ValidationError>, j: int)
    requires StepParts(errs, same, rest) && |same| <= j < |same| + |rest|
    ensures Rank((same + rest)[0]) < Rank((same + rest)[j])
  {
    var r := same + rest;
    assert r[0] == errs[0];
    assert r[j] == rest[j - |same|] && rest[j - |same|] in rest;
    assert r[j] in errs[1..] by {
      assert r[j] in errs && r[j] != errs[0];
    }
    TailRanksAbove(errs, [r[j]]);
  }

  /** Past the first run, a run starts where it starts in `rest`. */
  lemma LeadsInRest(same: seq<ValidationError>, rest: seq<ValidationError>, i: int)
    requires same != [] && |same| <= i < |same| + |rest|
    ensures (same + rest)[i] == rest[i - |same|]
    ensures Leads(same + rest, i) ==> Leads(rest, i - |same|)
  {
    var r := same + rest;
    if i > |same| {
      assert r[i - 1] == rest[i - |same| - 1];
    }
  }

  /** An error of the first run and one of the rest differ in attribute. */
  lemma AcrossRuns(errs: seq<ValidationError>, same: seq<ValidationError>, rest: seq<ValidationError>, i: int, j: int)
    requires StepParts(errs, same, rest) && 0 <= i < |same| <= j < |same| + |rest|
    ensures AttributeOf((same + rest)[i]) != AttributeOf((same + rest)[j])
  {
    var r := same + rest;
    assert r[i] == same[i] && same[i] in same;
    assert r[j] == rest[j - |same|] && rest[j - |same|] in rest;
  }

  /** Inside the run of the first attribute no new attribute starts. */
  lemma NotLeadInside(errs: seq<ValidationError>, same: seq<ValidationError>, rest: seq<ValidationError>, i: int)
    requires StepParts(errs, same, rest) && 0 < i < |same|
    ensures !Leads(same + rest, i)
  {
    var r := same + rest;
    assert r[i - 1] == same[i - 1] && same[i - 1] in same;
    assert r[i] == same[i] && same[i] in same;
  }

  /** `errors.full_messages`: the failures of an ordered run of validators,
      regrouped per attribute in the order the attributes first failed. */
  function GroupByAttribute(errs: seq<ValidationError>): (r: seq<ValidationError>)
    requires RankOrdered(errs)
    ensures forall e :: e in r <==> e in errs
    ensures AttributeOrdered(r)
    decreases |errs|
  {
    if errs == [] then []
    else
      var a := AttributeOf(errs[0]);
      var same := Part(errs, a, true);
      var rest := GroupByAttribute(Part(errs, a, false));
      ContiguousStep(errs, same, rest);
      WithinRankedStep(errs, same, rest);
      LeadsRankedStep(errs, same, rest);
      same + rest
  }

  /** No attribute is recorded twice in `errs`. */
  predicate DistinctAttributes(errs: seq<ValidationError>)
  {
    forall i, j :: 0 <= i < j < |errs| ==> AttributeOf(errs[i]) != AttributeOf(errs[j])
  }

  /** In a list without a repeated attribute, the head's attribute does not
      recur in the tail, and the tail has no repeated attribute either. */
  lemma DistinctTail(errs: seq<ValidationError>)
    requires errs != [] && DistinctAttributes(errs)
    ensures DistinctAttributes(errs[1..])
    ensures forall e :: e in errs[1..] ==> AttributeOf(e) != AttributeOf(errs[0])
  {
    forall i, j | 0 <= i < j < |errs| - 1 ensures AttributeOf(errs[1..][i]) != AttributeOf(errs[1..][j]) {
      assert errs[1..][i] == errs[i + 1] && errs[1..][j] == errs[j + 1];
    }
    forall e | e in errs[1..] ensures AttributeOf(e) != AttributeOf(errs[0]) {
      var k :| 0 <= k < |errs[1..]| && errs[1..][k] == e;
      assert errs[k + 1] == e;
    }
  }

  /** Keeping the head's attribute from a list where it does not recur
      leaves the head alone. */
  lemma PartOnlyHead(errs: seq<ValidationError>)
    requires errs != [] && RankOrdered(errs)
    requires forall e :: e in errs[1..] ==> AttributeOf(e) != AttributeOf(errs[0])
    ensures Part(errs, AttributeOf(errs[0]), true) == [errs[0]]
  {
    TailOrdered(errs);
  }

  /** One step of the grouping: the head's attribute first, then the rest. */
  lemma GroupByAttributeStep(errs: seq<ValidationError>)
    requires errs != [] && RankOrdered(errs)
    ensures var a := AttributeOf(errs[0]);
      GroupByAttribute(errs) == Part(errs, a, true) + GroupByAttribute(Part(errs, a, false))
  {
  }

  /** When no attribute fails twice, grouping keeps the order the
      validators ran in. */
  lemma {:induction false} GroupingKeepsDistinctAttributes(errs: seq<ValidationError>)
    requires RankOrdered(errs) && DistinctAttributes(errs)
    ensures GroupByAttribute(errs) == errs
    decreases |errs|
  {
    if errs != [] {
      var a := AttributeOf(errs[0]);
      DistinctTail(errs);
      TailOrdered(errs);
      PartOnlyHead(errs);
      PartKeepsAll(errs[1..], a);
      assert Part(errs, a, false) == errs[1..];
      GroupingKeepsDistinctAttributes(errs[1..]);
      assert [errs[0]] + errs[1..] == errs;
    }
  }

  /** Every error of the tail is an error of the list. */
  lemma TailMembers(errs: seq<ValidationError>)
    requires errs != []
    ensures forall e :: e in errs[1..] ==> e in errs
  {
  }

  /** Dropping an attribute no error is recorded under keeps every error. */
  lemma {:induction false} PartKeepsAll(errs: seq<ValidationError>, a: Attribute)
    requires RankOrdered(errs)
    requires forall e :: e in errs ==> AttributeOf(e) != a
    ensures Part(errs, a, false) == errs
    decreases |errs|
  {
    if errs != [] {
      TailOrdered(errs);
      TailMembers(errs);
      assert errs[0] in errs;
      PartKeepsAll(errs[1..], a);
      assert [errs[0]] + errs[1..] == errs;
    }
  }

  /** `valid?`: run every validator and collect what failed, as `errors`
      lists it. */
  function Errors(s: Store, g: Group): (errs: seq<ValidationError>)
    requires ParentResolves(s, g)
    ensures forall e :: e in errs <==> Violated(s, g, e)
    ensures AttributeOrdered(errs)
  {
    RulesComplete();
    GroupByAttribute(Collect(s, g, Rules))
  }

  /** Unless the name is both blank and too long, the errors come in the
      order the validators are declared. */
  lemma DeclarationOrderUnlessNameFailsTwice(s: Store, g: Group)
    requires ParentResolves(s, g)
    requires !(Violated(s, g, NameBlank) && Violated(s, g, NameTooLong))
    ensures RankOrdered(Errors(s, g))
  {
    RulesComplete();
    var c := Collect(s, g, Rules);
    forall i, j | 0 <= i < j < |c| ensures AttributeOf(c[i]) != AttributeOf(c[j]) {
      assert c[i] in c && c[j] in c && Rank(c[i]) < Rank(c[j]);
      if AttributeOf(c[i]) == AttributeOf(c[j]) {
        OnlyNameShared(c[i], c[j]);
      }
    }
    GroupingKeepsDistinctAttributes(c);
  }

  /** Only the two name rules record their errors under `:name`. */
  lemma NameAttribute()
    ensures forall e :: AttributeOf(e) == OnName <==> e == NameBlank || e == NameTooLong
  {
  }

  /** Every other attribute records the errors of a single rule. */
  lemma OnlyNameShared(e1: ValidationError, e2: ValidationError)
    requires AttributeOf(e1) == AttributeOf(e2) && e1 != e2
    ensures {e1, e2} == {NameBlank, NameTooLong}
  {
  }

  /** An ordered list holding exactly two errors is those two by rank. */
  lemma OrderedPair(p: seq<ValidationError>, x: ValidationError, y: ValidationError)
    requires RankOrdered(p) && Rank(x) < Rank(y)
    requires forall e :: e in p <==> e == x || e == y
    ensures p == [x, y]
  {
    assert x in p && y in p;
    var i :| 0 <= i < |p| && p[i] == x;
    var j :| 0 <= j < |p| && p[j] == y;
    assert i != j && |p| >= 2;
    assert p[0] in p && p[1] in p;
    assert p[0] == x && p[1] == y;
    assert forall k :: 1 < k < |p| ==> Rank(y) < Rank(p[k]) && p[k] in p;
  }

  /** The failures of the name, from an ordered run of validators in which
      the blank-name one failed first. */
  lemma NameRun(c: seq<ValidationError>)
    requires RankOrdered(c) && NameBlank in c && NameTooLong in c
    ensures c[0] == NameBlank
    ensures Part(c, OnName, true) == [NameBlank, NameTooLong]
  {
    assert c[0] in c;
    NameAttribute();
    OrderedPair(Part(c, OnName, true), NameBlank, NameTooLong);
  }

  /** When the name is both blank and too long, `errors` lists the two name
      errors first, together. */
  lemma NameFailingTwiceLeads(s: Store, g: Group)
    requires ParentResolves(s, g)
    requires Violated(s, g, NameBlank) && Violated(s, g, NameTooLong)
    ensures |Errors(s, g)| >= 2 && Errors(s, g)[0] == NameBlank && Errors(s, g)[1] == NameTooLong
  {
    RulesComplete();
    var c := Collect(s, g, Rules);
    NameRun(c);
    GroupByAttributeStep(c);
  }

  /** So when the payment plan fails as well, as it does for a nil plan, the
      errors are not in the order the validators are declared. */
  lemma NameFailingTwiceBreaksDeclarationOrder(s: Store, g: Group)
    requires ParentResolves(s, g)
    requires Violated(s, g, NameBlank) && Violated(s, g, NameTooLong)
    requires Violated(s, g, PaymentPlanNotIncluded)
    ensures !RankOrdered(Errors(s, g))
  {
    NameFailingTwiceLeads(s, g);
    var errs := Errors(s, g);
    var k :| 0 <= k < |errs| && errs[k] == PaymentPlanNotIncluded;
    assert Rank(errs[1]) > Rank(errs[k]);
  }

  predicate Valid(s: Store, g: Group)
    requires ParentResolves(s, g)
  {
    Errors(s, g) == []
  }

  /** Running validators that all pass collects nothing. */
  lemma {:induction false} CollectNothing(s: Store, g: Group, rules: seq<ValidationError>)
    requires ParentResolves(s, g) && RankOrdered(rules)
    requires forall e :: e in rules ==> !Violated(s, g, e)
    ensures Collect(s, g, rules) == []
    decreases |rules|
  {
    if rules != [] {
      CollectNothing(s, g, rules[1..]);
    }
  }

  /** A group that violates no rule is valid. */
  lemma NoViolationIsValid(s: Store, g: Group)
    requires ParentResolves(s, g)
    requires forall e :: !Violated(s, g, e)
    ensures Valid(s, g)
  {
    RulesComplete();
    CollectNothing(s, g, Rules);
  }

  /** A valid group has consistent visibility flags, is parent-members
      visible only as a hidden subgroup, and lets parent members see
      discussions only when it is visible to them. */
  lemma ValidGroupVisibility(s: Store, g: Group)
    requires ParentResolves(s, g)
    requires Valid(s, g)
    ensures FlagsConsistent(g)
    ensures g.isVisibleToParentMembers ==> IsSubgroup(g) && IsHiddenFromPublic(g)
    ensures g.parentMembersCanSeeDiscussions ==> g.isVisibleToParentMembers
    ensures AssignVisibleTo(g, VisibleTo(g)) == Success(g)
  {
    assert !Violated(s, g, IsVisibleToParentMembersInvalid);
    assert !Violated(s, g, ParentMembersCanSeeDiscussionsInvalid);
    ValidVisibilityIsConsistent(g);
  }

  /** A top-level group that asks to be visible to parent members fails. */
  lemma TopLevelCannotBeParentMembersVisible(s: Store, g: Group)
    requires IsTopLevel(g) && g.isVisibleToParentMembers
    ensures IsVisibleToParentMembersInvalid in Errors(s, g)
    ensures !Valid(s, g)
  {
    assert Violated(s, g, IsVisibleToParentMembersInvalid);
  }

  /** Setting a parent is rejected exactly when that parent is itself a subgroup. */
  lemma SubgroupCannotBeParent(s: Store, g: Group, p: GroupId)
    requires p < |s.groups|
    ensures CantSetSubgroupAsParent in Errors(s, g.(parentId := Some(p)))
        <==> IsSubgroup(s.groups[p])
  {
    var h := g.(parentId := Some(p));
    assert Violated(s, h, CantSetSubgroupAsParent) <==> IsSubgroup(s.groups[p]);
  }

  /** In a hierarchical store a subgroup is a leaf: no stored group names it
      as parent, so no chain of parents is longer than one step. */
  lemma SubgroupsAreLeaves(s: Store, c: GroupId)
    requires Hierarchical(s)
    requires c < |s.groups| && IsSubgroup(s.groups[c])
    ensures forall y :: 0 <= y < |s.groups| ==> s.groups[y].parentId != Some(c)
  {
    forall y | 0 <= y < |s.groups|
      ensures s.groups[y].parentId != Some(c)
    {
      assert ParentResolves(s, s.groups[y]) && LimitInheritance(s, s.groups[y]);
    }
  }
}
