/**
 * The entities of the group aggregate and the one-line predicates derived
 * from a single group's columns.
 *
 * The persistent state is an arena: every table is a sequence and a record's
 * id is its position, so "the first by id" and "in id order" are plain
 * sequence notions.
 */
module GroupData {
  import opened Outcomes

  type GroupId = nat
  type MembershipId = nat
  type UserId = nat
  /** Timestamps are supplied by the caller; the model never reads a clock. */
  type Time = int

  const PaymentPlans: seq<string> := ["pwyc", "subscription", "manual_subscription", "undetermined"]
  const DiscussionPrivacyOptions: seq<string> := ["public_only", "private_only", "public_or_private"]
  const MembershipGrantedUponOptions: seq<string> := ["request", "approval", "invitation"]
  const MaxNameLength: nat := 250
  const MaxDescriptionLength: nat := 250
  const DefaultDiscussionPrivacy: string := "public_or_private"
  const DefaultMembershipGrantedUpon: string := "approval"

  /** A billing subscription; only its amount matters to the core. */
  datatype Subscription = Subscription(amount: int)

  /** A group row. Nullable columns are `Option`s. */
  datatype Group = Group(
    name: string,
    fullName: Option<string>,
    parentId: Option<GroupId>,
    description: Option<string>,
    maxSize: Option<int>,
    paymentPlan: Option<string>,
    discussionPrivacyOptions: Option<string>,
    membershipGrantedUpon: Option<string>,
    isVisibleToPublic: bool,
    isVisibleToParentMembers: bool,
    parentMembersCanSeeDiscussions: bool,
    /** Counter cache kept by the membership table; the core only reads it. */
    membershipsCount: Option<int>,
    subscription: Option<Subscription>,
    archivedAt: Option<Time>)

  /** The join record between a user and a group. */
  datatype Membership = Membership(
    groupId: GroupId,
    userId: UserId,
    inviterId: Option<UserId>,
    admin: bool,
    archivedAt: Option<Time>)

  /** A discussion, reduced to the group it belongs to and its archive flag. */
  datatype Discussion = Discussion(groupId: GroupId, archived: bool)

  /** An invitation to a group; pending while neither accepted nor cancelled. */
  datatype Invitation = Invitation(groupId: GroupId, acceptedAt: Option<Time>, cancelledAt: Option<Time>)

  datatype Store = Store(
    groups: seq<Group>,
    memberships: seq<Membership>,
    discussions: seq<Discussion>,
    invitations: seq<Invitation>)

  /** The validation failures a group can collect, in declaration order. */
  datatype ValidationError =
    | NameBlank
    | PaymentPlanNotIncluded
    | DiscussionPrivacyNotIncluded
    | MembershipGrantedUponNotIncluded
    | DescriptionTooLong
    | NameTooLong
    | CantSetSubgroupAsParent
    | ParentMembersCanSeeDiscussionsInvalid
    | IsVisibleToParentMembersInvalid

  /** The exceptions the core raises, and a failed save. */
  datatype Error =
    | MaximumMembershipsExceeded
    | VisibleToTermNotRecognised(term: string)
    | InvalidDiscussionPrivacy
    | NilArithmetic
    | Invalid(errors: seq<ValidationError>)

  /** A state change that may fail; the store is the state after the attempt. */
  datatype Effect<+T> = Effect(store: Store, result: Result<T, Error>)

  /** Ruby's `to_i` on a nullable integer column: nil reads as zero. */
  function ToI(x: Option<int>): (r: int)
  {
    match x
    case None => 0
    case Some(n) => n
  }

  /** `is_parent?`: the group has no parent, i.e. it is top-level. */
  predicate IsTopLevel(g: Group)
  {
    g.parentId.None?
  }

  predicate IsSubgroup(g: Group)
  {
    !IsTopLevel(g)
  }

  predicate IsArchived(g: Group)
  {
    g.archivedAt.Some?
  }

  predicate IsHiddenFromPublic(g: Group)
  {
    !g.isVisibleToPublic
  }

  /** A nullable enum column holds one of the listed values. */
  predicate Includes(x: Option<string>, options: seq<string>)
  {
    x.Some? && x.value in options
  }

  predicate HasManualSubscription(g: Group)
  {
    g.paymentPlan == Some("manual_subscription")
  }

  predicate HasSubscriptionPlan(g: Group)
  {
    g.subscription.Some?
  }

  /** `is_paying?`: a manual subscription always pays; otherwise only a
      subscription with a positive amount does, so a free (zero-amount)
      subscription or no subscription at all is not paying. */
  function IsPaying(g: Group): (r: bool)
    ensures HasManualSubscription(g) ==> r
    ensures r ==> HasManualSubscription(g) || HasSubscriptionPlan(g)
    ensures HasSubscriptionPlan(g) && g.subscription.value.amount > 0 ==> r
    ensures !HasManualSubscription(g) && HasSubscriptionPlan(g) && g.subscription.value.amount <= 0 ==> !r
  {
    HasManualSubscription(g) || (HasSubscriptionPlan(g) && g.subscription.value.amount > 0)
  }

  /** `set_defaults`, run by `after_initialize` on every group object, so also
      on every row loaded from the store: fill the two enum columns that are
      nil, keep everything else. A loaded group that is saved persists these
      defaults. */
  function SetDefaults(g: Group): (r: Group)
    ensures r.discussionPrivacyOptions.Some? && r.membershipGrantedUpon.Some?
    ensures g.discussionPrivacyOptions.Some? ==> r.discussionPrivacyOptions == g.discussionPrivacyOptions
    ensures g.membershipGrantedUpon.Some? ==> r.membershipGrantedUpon == g.membershipGrantedUpon
    ensures g.discussionPrivacyOptions.None? ==> r.discussionPrivacyOptions == Some(DefaultDiscussionPrivacy)
    ensures g.membershipGrantedUpon.None? ==> r.membershipGrantedUpon == Some(DefaultMembershipGrantedUpon)
    ensures g.discussionPrivacyOptions.None? ==> Includes(r.discussionPrivacyOptions, DiscussionPrivacyOptions)
    ensures g.membershipGrantedUpon.None? ==> Includes(r.membershipGrantedUpon, MembershipGrantedUponOptions)
    ensures r.(discussionPrivacyOptions := g.discussionPrivacyOptions,
               membershipGrantedUpon := g.membershipGrantedUpon) == g
  {
    g.(discussionPrivacyOptions := if g.discussionPrivacyOptions.None? then Some(DefaultDiscussionPrivacy) else g.discussionPrivacyOptions,
       membershipGrantedUpon := if g.membershipGrantedUpon.None? then Some(DefaultMembershipGrantedUpon) else g.membershipGrantedUpon)
  }

  /** Running the initialiser again changes nothing. */
  lemma SetDefaultsIdempotent(g: Group)
    ensures SetDefaults(SetDefaults(g)) == SetDefaults(g)
  {
  }
}
