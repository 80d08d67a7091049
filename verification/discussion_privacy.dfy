/**
 * The group-level discussion privacy enum and the default privacy it gives
 * a new discussion.
 */
module DiscussionPrivacy {
  import opened Outcomes
  import opened GroupData

  /** `private_discussions_only?`: holds only for a recognised option, and
      never together with public-only. */
  function PrivateDiscussionsOnly(g: Group): (r: bool)
    ensures r ==> Includes(g.discussionPrivacyOptions, DiscussionPrivacyOptions)
    ensures r ==> g.discussionPrivacyOptions != Some("public_only") && g.discussionPrivacyOptions != Some("public_or_private")
  {
    g.discussionPrivacyOptions == Some("private_only")
  }

  /** `public_discussions_only?` as the source writes it: it compares with
      "private_only", so it is the same test as `PrivateDiscussionsOnly`. */
  predicate PublicDiscussionsOnlyAsWritten(g: Group)
  {
    g.discussionPrivacyOptions == Some("private_only")
  }

  /** `public_discussions_only?` as its name says: discussions must be public. */
  predicate PublicDiscussionsOnly(g: Group)
  {
    g.discussionPrivacyOptions == Some("public_only")
  }

  /** `discussion_private_default`: private (true), public (false) or left
      to each discussion (None); an unrecognised or nil value raises. */
  function DiscussionPrivateDefault(g: Group): (r: Result<Option<bool>, Error>)
    ensures r.Success? <==> Includes(g.discussionPrivacyOptions, DiscussionPrivacyOptions)
    ensures r.Failure? ==> r.error == InvalidDiscussionPrivacy
    ensures r == Success(Some(true)) <==> PrivateDiscussionsOnly(g)
    ensures r == Success(Some(false)) <==> PublicDiscussionsOnly(g)
    ensures r == Success(None) <==> g.discussionPrivacyOptions == Some("public_or_private")
  {
    if g.discussionPrivacyOptions == Some("public_or_private") then Success(None)
    else if g.discussionPrivacyOptions == Some("public_only") then Success(Some(false))
    else if g.discussionPrivacyOptions == Some("private_only") then Success(Some(true))
    else Failure(InvalidDiscussionPrivacy)
  }

  /** The as-written predicate coincides with the private one on every group,
      and a "public_only" group, whose default is public, is not reported as
      public-only by it. */
  lemma PublicDiscussionsOnlyAsWrittenIsPrivateTest(g: Group)
    ensures PublicDiscussionsOnlyAsWritten(g) <==> PrivateDiscussionsOnly(g)
    ensures g.discussionPrivacyOptions == Some("public_only") ==>
      DiscussionPrivateDefault(g) == Success(Some(false)) && !PublicDiscussionsOnlyAsWritten(g)
    ensures g.discussionPrivacyOptions == Some("private_only") ==>
      DiscussionPrivateDefault(g) == Success(Some(true)) && PublicDiscussionsOnlyAsWritten(g)
  {
  }

  /** With the corrected predicate, no group is both public-only and
      private-only, and either one decides the default. */
  lemma PrivacyPredicatesExclusive(g: Group)
    ensures !(PrivateDiscussionsOnly(g) && PublicDiscussionsOnly(g))
    ensures PrivateDiscussionsOnly(g) || PublicDiscussionsOnly(g) ==>
      DiscussionPrivateDefault(g).Success? && DiscussionPrivateDefault(g).value.Some?
  {
  }

  /** A group initialised without an option leaves privacy to each discussion. */
  lemma DefaultsLeavePrivacyOpen(g: Group)
    requires g.discussionPrivacyOptions.None?
    ensures DiscussionPrivateDefault(SetDefaults(g)) == Success(None)
  {
  }
}
