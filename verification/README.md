# Group rules of a collaboration platform, modelled in Dafny

This project models the rule logic of the `Group` model of Loomio
(`app/models/group.rb`). A group sits in a hierarchy at most two levels deep.
It has members, some of them admins. Its visibility is a three-valued term
stored as two booleans. Its discussion privacy is an enum that decides the
default privacy of a new discussion. Archiving a group cascades to its
memberships, its discussions and its live subgroups.

Persistence is replaced by a pure store (`GroupData.Store`). The store holds
four id-indexed tables as sequences: groups, memberships, discussions and
invitations. A record's id is its position. Every operation
is a pure function from a store to a new store or to an error. The source's
exceptions become `Failure` values of `Outcomes.Result`. Nullable columns
are `Option`s. Ruby's `to_i` is `GroupData.ToI`, so nil reads as 0.

Modules, in dependency order:

- `Outcomes`: `Option` and `Result`.
- `GroupData`: the entities, the error kinds, `set_defaults` and `is_paying?`.
  The one-line predicates of the model map one to one:
  - `is_parent?` is `GroupData.IsTopLevel`: the group has no parent, so it is at the top of the hierarchy. It does not mean that the group has children.
  - `is_subgroup?` is `GroupData.IsSubgroup`, its negation.
  - `is_hidden_from_public?` is `GroupData.IsHiddenFromPublic`.
  - `has_subscription_plan?` (a subscription is present) is `GroupData.HasSubscriptionPlan`.
  - `has_manual_subscription?` is `GroupData.HasManualSubscription`.
- `Visibility`: the `visible_to` getter and setter, and the two parent-members validators.
- `DiscussionPrivacy`: `discussion_private_default` and the two privacy predicates.
- `Validation`: batch validation before a save. Every validator runs, in
  declaration order. `errors` keeps the failures per attribute, so those of
  one attribute are listed together and the attributes come in the order
  they first failed. Only the name carries two rules (presence and length),
  so the listing can differ from declaration order only when the name is
  both blank and longer than 250 characters. Then the length error moves up
  next to the presence error. This module also holds
  `limit_inheritance` and the store-wide `Hierarchical` invariant (every
  stored group passes `limit_inheritance`).
- `Hierarchy`: the `subgroups` association (only unarchived children),
  `calculate_full_name`, and a rename saved through validation followed by the
  `update_full_name_if_name_changed` callback.
- `Archive`: the `archive!` cascade.
- `Memberships`: the membership lookup, `find_or_create_membership`,
  `add_member!`, `add_members!`, `add_admin!`, `contact_person` and
  `invitations_remaining`.
- `Billing`: `archive!`, a rename, `add_member!` and `add_admin!` leave
  `is_paying?` of every group as it was.

Termination of `archive!` does not rest on the depth invariant. The
`subgroups` association only lists unarchived groups, and every step
archives a group. So the number of live groups, plus one when the target is
already archived, decreases on every recursive call (`Archive.Measure`).
The property that no record outside the group and its live subgroups
changes is proved for hierarchical stores.

Three behaviours of the code shape the model:

- `add_member!` refuses only when `memberships_count > max_size`, so a
  top-level group at exactly its size still admits one more member
  (`Memberships.AddMemberCapacity`).
- `archive!` recurses only into live subgroups, because the `subgroups`
  association lists only groups whose `archived_at` is nil.
- `add_members!` is all-or-nothing (`Memberships.AddMembersAllOrNothing`).
  `memberships_count` is a counter cache written by the membership table,
  and the group object that `add_members!` reads does not refresh it between
  users, so every user sees the same count. The general fold, which would
  keep earlier additions on a later failure, is what `Memberships.AddMembers`
  computes.

Every group object runs `set_defaults` when it is initialised, so a group
row read from the store always has both enum columns filled in, and saving
it persists them. The model reads a stored group through
`GroupData.SetDefaults` wherever the code loads and saves one: the renamed
group and its subgroups, and each group that `archive!` stamps.

## Model

| member | source | states |
|---|---|---|
| `Visibility.VisibleTo` | app/models/group.rb:204-212 | The getter always yields one of the three terms. "public" exactly when the public flag is set, so public takes precedence. "parent_members" exactly when only the parent-members flag is set. "members" when neither is set. |
| `Visibility.AssignVisibleTo` | app/models/group.rb:188-202 | The setter succeeds exactly on the three terms, and reading the term back returns the term that was assigned. The resulting flags are never both set, and no other field changes. Any other term raises "not recognised" with that term and assigns neither flag. |
| `Visibility.VisibilityRoundTrip` | app/models/group.rb:188-212 | Writing back the term read from a group restores the group if and only if the two flags are not both set. When both are set, the write-back clears the parent-members flag, because public wins. |
| `Visibility.AssignLastWins` | app/models/group.rb:188-202 | After a valid assignment, a second assignment gives the same result as the second assignment alone. |
| `Visibility.ValidVisibilityIsConsistent` | app/models/group.rb:346-352 | A group that passes the parent-members visibility rule has consistent flags. It reads as "parent_members" only if it is a subgroup, and its term round-trips. |
| `DiscussionPrivacy.DiscussionPrivateDefault` | app/models/group.rb:230-246 | "public_or_private" gives undetermined (None), "public_only" gives false and "private_only" gives true. Any other value, nil included, raises an invalid-value error. The private default holds exactly when discussions are private-only, and the public default exactly when they are public-only under the corrected predicate. |
| `DiscussionPrivacy.PrivateDiscussionsOnly` | app/models/group.rb:230-232 | `private_discussions_only?` holds only for a permitted privacy option, and never for "public_only" or "public_or_private". |
| `DiscussionPrivacy.PublicDiscussionsOnlyAsWrittenIsPrivateTest` | app/models/group.rb:230-236 | As written, `public_discussions_only?` is the same test as `private_discussions_only?`. On a "public_only" group, whose default is public, it answers false. On a "private_only" group it answers true. |
| `DiscussionPrivacy.PrivacyPredicatesExclusive` | app/models/group.rb:230-246 | With the corrected predicate, no group is both public-only and private-only. Either one yields a determined default. |
| `DiscussionPrivacy.DefaultsLeavePrivacyOpen` | app/models/group.rb:238-246 | A group initialised with no privacy option leaves privacy to each discussion. |
| `GroupData.SetDefaults` | app/models/group.rb:354-357 | After initialisation both enum columns are present. A nil discussion privacy option becomes "public_or_private" and a nil `membership_granted_upon` becomes "approval", both permitted values. A present value is kept, and nothing else changes. |
| `GroupData.SetDefaultsIdempotent` | app/models/group.rb:354-357 | Initialising twice is the same as initialising once. |
| `GroupData.IsPaying` | app/models/group.rb:324-327 | A group on the manual-subscription plan always pays. Otherwise a group pays only with a subscription of positive amount, so a free subscription or none at all does not pay. |
| `Validation.LimitInheritance` | app/models/group.rb:367-371 | A top-level group always passes. A subgroup passes exactly when its parent has no parent itself. |
| `Validation.Errors` | app/models/group.rb:20-28 | Batch validation reports a rule's error if and only if that rule is violated. The errors recorded under one attribute stand together, in the order their validators are declared, and the attributes come in the order they first failed, so each error appears at most once. The rules are presence of the name, the three enum inclusions, the two length limits of 250, `limit_inheritance` and the two parent-members rules. |
| `Validation.GroupByAttribute` | app/models/group.rb:20-28 | Regrouping the failures of the validators, run in declaration order, per attribute keeps exactly the same errors. It lists them the way `errors` does: one attribute's errors together and in the order they were added, the attributes by first failure. |
| `Validation.DeclarationOrderUnlessNameFailsTwice` | app/models/group.rb:20-28 | Unless the name is both blank and too long, the errors come in the order the validators are declared. |
| `Validation.NameFailingTwiceLeads` | app/models/group.rb:20-25 | When the name is both blank and longer than 250 characters, the list starts with the blank-name error immediately followed by the too-long error. |
| `Validation.NameFailingTwiceBreaksDeclarationOrder` | app/models/group.rb:20-25 | If the payment plan also fails, for instance because it is nil, the listing is not in declaration order: the too-long name error comes before the payment plan's. |
| `Validation.NoViolationIsValid` | app/models/group.rb:20-28 | A group that breaks none of the declared rules has no validation errors. |
| `Validation.CollectNothing` | app/models/group.rb:20-28 | Running any ordered list of validators that all pass collects no error. |
| `Validation.ValidGroupVisibility` | app/models/group.rb:338-352 | A valid group is visible to parent members only as a hidden subgroup. It lets parent members see discussions only when visible to them, and its visibility term round-trips. |
| `Validation.TopLevelCannotBeParentMembersVisible` | app/models/group.rb:346-352 | A top-level group with the parent-members flag set fails validation on that flag. |
| `Validation.SubgroupCannotBeParent` | app/models/group.rb:367-371 | Giving a group a parent reports "can't set a subgroup as parent" exactly when that parent has a parent itself. |
| `Validation.SubgroupsAreLeaves` | app/models/group.rb:367-371 | In a store where every group passes `limit_inheritance`, no group names a subgroup as its parent. The hierarchy is therefore at most two levels deep. |
| `Hierarchy.Subgroups` | app/models/group.rb:127 | The `subgroups` association lists exactly the unarchived groups whose parent is the group, each once. The list is empty exactly when there is no such group. The model fixes id order, which the association does not promise (see "Left out"). |
| `Hierarchy.CalculateFullName` | app/models/group.rb:359-365 | A top-level group's full name is its own name. A subgroup's is its parent's name, then " - ", then its own name, exactly three characters longer than the two names together. |
| `Hierarchy.FullNameAffixes` | app/models/group.rb:359-365 | Every full name ends with the group's own name. A subgroup's begins with its parent's name followed by " - ". |
| `Hierarchy.Propagate` | app/models/group.rb:298-306 | Saving a renamed group recalculates its full name. Every live subgroup is saved as loaded, with the parent's new name, " - " and its own name as its full name. Every other group and every membership, discussion and invitation stays as it was, and no group is added or removed. |
| `Hierarchy.Rename` | app/models/group.rb:298-310 | The group is loaded, so its enum defaults are filled in, and the renamed group is validated as loaded. A failure returns every validation error and saves nothing. A success saves the loaded group with the new name. With the name unchanged, that save is all that happens: it persists the defaults and nothing else. After a real change, the group's cached full name equals the calculated one. Every live subgroup is saved as loaded, with the new name, then " - ", then its own name as its full name. Groups that are not live subgroups, and all memberships, discussions and invitations, are untouched. |
| `Hierarchy.RenameRefreshesSubgroups` | app/models/group.rb:298-306 | After a rename, every live subgroup's cached full name agrees with the full name calculated from the renamed parent. |
| `Hierarchy.RenameEngineeringExample` | app/models/group.rb:298-306 | Renaming "Engineering" to "Eng" succeeds. The group's full name becomes "Eng" and its subgroup "Backend" gets "Eng - Backend". |
| `Hierarchy.RenameUndefaultedExample` | app/models/group.rb:298-310 | A stored row whose two enum columns are nil is defaulted when loaded. Renaming it succeeds, and the save stores "public_or_private" and "approval". |
| `Archive.StampGroup` | app/models/group.rb:167-170 | The group's own step archives all of its discussions and stamps all of its memberships. It saves the group as loaded, with its enum defaults filled in, plus the archive stamp. Nothing of any other group changes. |
| `Archive.Archive` | app/models/group.rb:167-178 | After `archive!`, the group is archived (`is_archived?`) with the given time, and so are all its memberships, and all its discussions are archived. Every subgroup that was live beforehand is archived the same way, memberships and discussions included. The cascade creates and removes no record. It changes a group only by saving it as loaded, with its enum defaults and the stamp, and a membership or discussion only by stamping it. |
| `Archive.ArchiveSavesLoadedGroups` | app/models/group.rb:167-174 | The group and each subgroup that was live beforehand end up exactly as loaded, with `set_defaults` applied, carrying the archive stamp. |
| `Archive.ArchiveEach` | app/models/group.rb:171-173 | Archiving the listed subgroups in turn leaves each of them archived with its memberships and discussions. It changes records only as `archive!` does: groups saved as loaded with the stamp, memberships and discussions stamped. |
| `Archive.ArchiveLeaf` | app/models/group.rb:171-173 | In a hierarchical store, archiving a subgroup is just that subgroup's own step, because it has no subgroups. |
| `Archive.ArchiveCascade` | app/models/group.rb:167-174 | In a hierarchical store, `archive!` archives the group and each subgroup that was live beforehand, together with their memberships and discussions. No record of any other group changes. |
| `Memberships.FindMembership` | app/models/group.rb:226-228 | The lookup returns a membership linking the user to the group, archived or not, and None exactly when no such membership exists. The model picks the lowest id, which the query does not promise (see "Left out"). |
| `Memberships.FoundIsOnly` | app/models/group.rb:269-272 | When memberships are unique per group and user, the membership found is the only one. |
| `Memberships.FindOrCreateMembership` | app/models/group.rb:269-272 | Find-or-create returns a membership of that user in that group, and a later lookup finds exactly it. An existing membership is returned with the store unchanged. Otherwise exactly one non-admin, unarchived membership recording the inviter is appended. Earlier memberships are kept, and uniqueness per group and user is preserved. |
| `Memberships.FindOrCreateIdempotent` | app/models/group.rb:269-272 | A second find-or-create for the same user, with any inviter, returns the same membership and changes nothing. |
| `Memberships.AddMember` | app/models/group.rb:248-255 | `add_member!` raises `MaximumMembershipsExceeded` exactly on a top-level group whose `memberships_count` is strictly above `max_size`, each read with nil as 0. When it raises, the store is unchanged. Otherwise it is find-or-create: groups are untouched, earlier memberships are kept and uniqueness is preserved. |
| `Memberships.AddMemberCapacity` | app/models/group.rb:248-253 | A subgroup never refuses a member. A top-level group at exactly its size, or with neither count nor size set, still admits one. |
| `Memberships.AddMemberIdempotent` | app/models/group.rb:248-255 | Adding the same user again returns the same membership and leaves the store as the first call left it. |
| `Memberships.AddMembers` | app/models/group.rb:257-261 | `add_members!` returns one membership per input user, in input order, each linking that user to the group. It fails with `MaximumMembershipsExceeded` exactly when there are users and the group is over capacity. Earlier memberships are kept and uniqueness is preserved. At most one membership per user is created, and each created row is a non-admin, unarchived membership of one of the users in the group, recording the inviter. |
| `Memberships.AddMemberCreates` | app/models/group.rb:248-255 | A successful `add_member!` creates at most one row, a non-admin, unarchived membership of that user in the group with the inviter. |
| `Memberships.AddMembersAllOrNothing` | app/models/group.rb:257-261 | With the counter fixed during the call, a failing `add_members!` has created nothing. |
| `Memberships.Promote` | app/models/group.rb:265 | `make_admin!` sets the admin flag of that one membership and changes nothing else. On an admin it changes nothing at all. |
| `Memberships.AddAdmin` | app/models/group.rb:263-267 | `add_admin!` returns the user's membership of the group with admin set, and the lookup finds exactly it. An existing membership keeps everything but the admin flag. When the user had no membership, exactly one is appended: of that user in that group, with the inviter, admin set and not archived. No other membership changes and uniqueness is preserved. |
| `Memberships.PromoteKeepsLookup` | app/models/group.rb:265 | Setting the admin flag of a membership does not change which membership the lookup finds for any group and user, and keeps memberships unique per group and user. |
| `Memberships.AddAdminIdempotent` | app/models/group.rb:263-267 | Promoting the same user twice is the same as promoting once. |
| `Memberships.ContactPerson` | app/models/group.rb:143-145 | The contact person is None exactly when the group has no admin. Otherwise it is an admin, and no admin has a lower user id. |
| `Memberships.AddAdminGivesContact` | app/models/group.rb:263-267 | After `add_admin!`, the user is among the group's admins, so the group has a contact person. |
| `Memberships.PendingInvitations` | app/models/group.rb:112-114 | The count of pending invitations is at most the number of invitations. It is zero exactly when no invitation of the group is pending, and equals the number of invitations exactly when all of them are pending invitations of the group. |
| `Memberships.PendingInvitationsAppend` | app/models/group.rb:112-114 | The count of pending invitations (neither accepted nor cancelled) of a concatenation is the sum of the counts of its parts. |
| `Memberships.InvitationsRemaining` | app/models/group.rb:278-280 | The result raises when `max_size` or `memberships_count` is nil. Otherwise it plus the member count plus the pending invitations equals the size, with no clamping. It is negative exactly when members and pending invitations together exceed the size. |
| `Billing.ArchiveKeepsPaying` | app/models/group.rb:324-327 | After `archive!`, every group is paying exactly when it was before. |
| `Billing.RenameKeepsPaying` | app/models/group.rb:324-327 | After a successful rename, every group is paying exactly when it was before. |
| `Billing.RegistryKeepsPaying` | app/models/group.rb:324-327 | After `add_member!` or `add_admin!`, every group is paying exactly when it was before. |
| `Billing.SameBillingSamePaying` | app/models/group.rb:324-327 | Two groups with the same payment plan and subscription are both paying or both not. |
| `Billing.LoadKeepsPaying` | app/models/group.rb:324-327 | Loading a group, which fills in its enum defaults, and stamping it do not change whether it pays. |
| `Memberships.InvitationTakesOnePlace` | app/models/group.rb:278-280 | A new pending invitation to the group lowers the remaining count by exactly one. Any other new invitation leaves it unchanged. |

## Left out

- The SQL scopes, the full-text search scope and pagination (lines 32-87, 136) are query plumbing, not rules.
- The association declarations (lines 89-134) are replaced by the id-indexed store. `coordinators` and `admins` are `Memberships.AdminUserIds`.
- The `ReadableUnguessableUrls` and `BetaFeatures` mixins are not part of this model. Their code is not available.
- `requestor_*`, `voting_motions`, `closed_motions`, `has_member_with_email?`, `has_membership_request_with_email?` and `user_membership_or_request_exists?` are thin wrappers over queries on records outside the group rules (group requests, motions, user e-mails).
- `admin_email` dereferences nil on a group without admins, so it is not modelled. `Memberships.ContactPerson` states when an admin exists.
- `is_subgroup_of_hidden_parent?`, `is_setup?` and `mark_as_setup!` are display and onboarding helpers that no rule of the core uses.
- `Discussion#archive!` and `Membership#make_admin!` are treated as operations that set a flag. The validations and the counter cache of the membership record are not part of this model.
- Memberships.AddMemberIdempotent: `memberships_count` does not advance when a membership is created, because the model keeps the counter cache read-only. So "groups are untouched" in `Memberships.AddMember` and this idempotence describe repeated calls on one loaded group object. They do not describe separate requests, each of which reloads the group with the refreshed counter and can then refuse at capacity.
- Wall-clock time is a parameter. `archive!` reads the clock twice (for the group and for its memberships). The model stamps both with the one time it is given.
- The race safety of find-or-create depends on a uniqueness constraint in the database and is not modelled. Uniqueness per group and user is stated as a preserved invariant instead.
- A `parent_id` that names no stored group is excluded by precondition (`Validation.ParentResolves`) wherever the parent is read: `limit_inheritance` and `calculate_full_name` would dereference nil there, and a foreign key normally rules it out.
- Neither the `subgroups` association nor `.first` in `membership` and `find_or_create_membership` has an order in the code; the database returns rows in any order it likes. The model fixes id order for both. Under uniqueness per group and user, the membership found is the only one (`Memberships.FoundIsOnly`). In a store where every group passes `limit_inheritance`, archiving one subgroup touches only that subgroup's own records (`Archive.ArchiveLeaf`), and every group gets the same stamp, so the order of the subgroups does not matter there.
- Subscription amounts are integers rather than decimals. Only `amount > 0` matters.
- A blank name is recognised by ASCII whitespace (space, tab, line feed, carriage return, vertical tab, form feed), not by every Unicode space. A nil name is not modelled.
- Archive.ArchiveCascade: the "nothing outside the subtree changes" property is proved only for stores where every group passes `limit_inheritance`. In other stores the cascade can reach deeper descendants, and `Archive.Archive` then states only that each record is unchanged or stamped, groups as loaded.
- The rename reads the parent's name from the store, that is, the saved parent. This matches the code whenever the parent is not the group itself, and validation rules that case out.

## Findings

| source | as written | input that shows it | evidently intended | confidence | as-written member | corrected member |
|---|---|---|---|---|---|---|
| app/models/group.rb:234-236 | `public_discussions_only?` compares `discussion_privacy_options` with 'private_only', the same test as `private_discussions_only?` | a group with `discussion_privacy_options = 'public_only'`: its default privacy is public, yet the predicate answers false. With 'private_only' it answers true. | compare with 'public_only' | not executed; high (the name, the enum and `discussion_private_default` all agree) | `DiscussionPrivacy.PublicDiscussionsOnlyAsWritten`, exhibited by `DiscussionPrivacy.PublicDiscussionsOnlyAsWrittenIsPrivateTest` | `DiscussionPrivacy.PublicDiscussionsOnly`, used in the contract of `DiscussionPrivacy.DiscussionPrivateDefault` and proved exclusive with the private test by `DiscussionPrivacy.PrivacyPredicatesExclusive` |
