# Penn Clubs: approval, permissions and form logic in Dafny

Penn Clubs is the University of Pennsylvania's club directory. Students browse
clubs. Officers edit their club's page, manage members and send invites.
Administrators approve clubs before they are listed.

This project models the decision logic behind that workflow:

- **Club approval.** `ClubSerializer.save` and `create` decide whether an edit
  sends an approved club back to review, when a decision is stamped with its
  approver and time, and which notification emails are triggered. Pending
  (ghost) clubs are shown to outsiders as their latest approved snapshot.
- **Roles and permissions.** Roles are ordered owner < officer < member; a lower
  number means more authority. The model covers:
  - every permission class of the backend;
  - the helpers that find a caller's strongest membership in a club's family tree;
  - the membership serializer's role and field rules;
  - the question-and-answer, event and user validators.
- **Club fields.** The club field validators: description, email, website, tags,
  the social-network links and `active`. Also the short description shown in
  listings and the `fields` query-parameter selection.
- **Views.** The serializer selectors and the mass-invite endpoint of clubs/views.py.
- **Frontend helpers:**
  - the colour parser/formatter and CSS writer of the stylesheet generator;
  - the club edit card's field whitelist, initial values and image stripping;
  - the table-row subtitle;
  - the profile-picture hash, colour choice and initials;
  - the club route builders;
  - the home page's checkbox filter and tag toggle.

The model follows the form of the source:

- Branching decisions are functions and predicates.
- Code that mutates state step by step becomes methods of classes, proved
  against specification functions:
  - `ClubSerializer.save` editing `validated_data`;
  - `Color.scale`;
  - the CSS writer's rule list and its `get_value` loop;
  - the submitted form data;
  - the home page state.
- Loops become `while`/`for` loops with invariants:
  - the sensitive-field check;
  - the recursive appending extractor of club codes;
  - the field-scope check;
  - the fair-time check;
  - the invite validation and creation loops;
  - the `reduce` and `forEach` of the edit card;
  - `hashCode`.

Environment inputs are explicit parameters:

- database queries: membership lists, the history snapshots, an "approved version
  exists" flag;
- the request user and `now`;
- library calls: `slugify`, `clean`, `urlparse`, Django's URL and email
  validators, the fuzzy search, `doFormikInitialValueFixes`.

Strings are Dafny strings, except where the frontend reads `length`,
`substring` or `charCodeAt`: the table-row subtitle and the profile picture
work on sequences of UTF-16 code units (`JsStrings.JsString`), so these count
and return code units as JavaScript does.

## Model

| member | source | states |
|---|---|---|
| Approval.EditsSensitiveField | backend/clubs/serializers.py:1080-1088 | the loop over `name`, `image`, `description` reports an edit exactly when some sensitive field is supplied with a value different from the stored one |
| Approval.ClubSerializer.constructor | backend/clubs/serializers.py:1069-1072 | a serializer holds the stored club (absent on creation) and the validated data |
| Approval.ClubSerializer.PrepareData | backend/clubs/serializers.py:1069-1076 | the name is stripped; a new club without a code receives the slug of its name; an edit drops any submitted code |
| Approval.ClubSerializer.ApplyApprovalRules | backend/clubs/serializers.py:1080-1124 | re-approval is needed iff a sensitive field changed and the actor lacks `approve_club`; the data then goes back to pending with ghost = "approved version exists"; an explicit revocation clears approver and time; a pending club receiving a decision is stamped and flags the approval email |
| Approval.ClubSerializer.Create | backend/clubs/serializers.py:912-930 | a created club is stored with approved = None; its creator gets an owner membership; the renewal email is sent outside the fyh branding |
| Approval.ClubSerializer.Save | backend/clubs/serializers.py:1065-1145 | a whole save produces exactly `Outcome`: the persisted club, the owner membership on creation, and the approval, confirmation and renewal email flags |
| Approval.SensitiveEditResetsApproval | backend/clubs/serializers.py:1080-1103 | a sensitive edit by an actor without `approve_club` leaves approved, approved_by and approved_on None; ghost is set iff an approved version exists; nothing is stamped |
| Approval.ApproverBypassesReapproval | backend/clubs/serializers.py:1090-1093 | an actor holding `approve_club` never triggers re-approval, and the submitted `approved` value is kept |
| Approval.PreparedKeepsOtherFields | backend/clubs/serializers.py:1069-1076 | preparing the data changes only `name` and `code`; every other field keeps its value |
| Approval.PendingDataHasNoApprover | backend/clubs/serializers.py:1105-1109 | whenever the saved data says approved = None, approver and approval time are None as well |
| Approval.DecisionStampedExactlyWhenRendered | backend/clubs/serializers.py:1080-1124 | the approval email fires iff the stored club was pending, the submitted `approved` is non-null and the same save does not trigger re-approval; the stamp records actor and time; an approval clears ghost |
| Approval.DecidedClubNeverRestamped | backend/clubs/serializers.py:1111-1124 | an approved or rejected club never gets a new stamp: approver and time are either cleared or those submitted |
| Approval.CreatedClubIsPending | backend/clubs/serializers.py:912-930 | creating stores the club pending, makes the creator its owner, stamps nothing, and sends the renewal email iff the branding is not fyh |
| Approval.ActiveOnlyEditKeepsApproval | backend/clubs/serializers.py:1080-1134 | an edit of `active` alone keeps all approval fields; the confirmation email fires exactly on activation |
| Approval.ApprovingTwiceStampsOnce | backend/clubs/serializers.py:1111-1124 | approving a pending club twice keeps the first approver and time; only the first save sends the email |
| Snapshots.LatestApproved | backend/clubs/serializers.py:752-754 | None iff no snapshot is approved; otherwise an approved snapshot of the history whose approval time is not earlier than any other approved one |
| Snapshots.HistoricalViewExactly | backend/clubs/serializers.py:739-759 | a viewer sees a snapshot iff the club is a non-approved ghost, the viewer has neither `see_pending_clubs` nor a membership, and an approved snapshot exists; the snapshot is then the latest approved one and is reported as ghost; otherwise the live club is shown |
| Snapshots.PrivilegedViewersSeeLiveClub | backend/clubs/serializers.py:744-759 | members and holders of `see_pending_clubs` always see the live club |
| Snapshots.ApprovedOrNonGhostShownLive | backend/clubs/serializers.py:739-759 | an approved or non-ghost club is shown live to everyone, and `is_ghost` reports the club's own ghost flag |
| Roles.RoleScaleOrdered | backend/clubs/permissions.py:89-92 | owner < officer < member, so "role at least officer" is `role <= ROLE_OFFICER` |
| Roles.MembershipOf | backend/clubs/serializers.py:548 | the membership found belongs to the person and is a row of the club; None iff the person has no row |
| Permissions.Extract | backend/clubs/permissions.py:13-23 | the recursive extractor appends to the shared list exactly the `Extracted` values, in traversal order |
| Permissions.CodesExtractHelper | backend/clubs/permissions.py:6-26 | `codes_extract_helper` returns exactly `Extracted(obj, key)` |
| Permissions.ExtractedItemsAppend | backend/clubs/permissions.py:20-22 | the values found in a list are those of its first part followed by those of the rest |
| Permissions.AtomsInListIgnored | backend/clubs/permissions.py:20-22 | bare scalars inside a list contribute nothing |
| Permissions.FlatDictExtraction | backend/clubs/permissions.py:14-19 | in a dict without nested containers, an atom is extracted iff some entry with key `key` holds it |
| Permissions.FindMembership | backend/clubs/permissions.py:39-45 | None iff the user has no membership in the related clubs; otherwise such a membership whose role is the minimum of them all |
| Permissions.FoundMembershipIsStrongest | backend/clubs/permissions.py:29-45 | any membership of the user in a club whose code appears in the family tree is matched or beaten by the one found |
| Permissions.ClubObjectPermissionRules | backend/clubs/permissions.py:67-92 | retrieve/children always pass; any other action passes iff the user is authenticated and holds `delete_club` on destroy, `approve_club` on update/partial_update, an owner-level membership on destroy or an officer-level one on any other action; more authority never loses access |
| Permissions.OfficerGatedWrites | backend/clubs/permissions.py:116-292 | every officer-gated write (club items, events, membership requests, member creation, invite and asset management) passes iff the URL names a club, the user is authenticated and has an officer-level membership |
| Permissions.MemberObjectPermissionRules | backend/clubs/permissions.py:202-223 | retrieving passes iff the caller's role is at most member; a member may update their own membership and delete it iff they are not an owner; any other action on someone else's membership passes iff the caller is officer-level and has at least that membership's authority; no membership, no access |
| Permissions.EventTypeTransitions | backend/clubs/permissions.py:128-147 | an update passes iff it keeps the event inside or outside FAIR, where an absent `type` keeps the old type and an explicit null is a non-FAIR type (so a FAIR event sent `type: null` is refused); every other action passes |
| Permissions.NoteCreationRule | backend/clubs/permissions.py:343-364 | note creation passes iff a permission level is given and the caller has a membership whose role is at most that level |
| Permissions.QuestionAnswerRules | backend/clubs/permissions.py:300-315 | non-edit actions always pass; edits pass iff the user is authenticated and either authored the unanswered question or is an officer |
| MembershipRules.OwnerCount | backend/clubs/serializers.py:557-562 | the count of owner-level rows is at most the row count and zero iff no row is owner-level |
| MembershipRules.NeverPromotesAboveCaller | backend/clubs/serializers.py:538-566 | for a non-superuser, a role is accepted iff the caller has a membership with at least that authority and is not the last owner stepping down; an accepted role never exceeds the caller's own authority |
| MembershipRules.SetRole | backend/clubs/serializers.py:538-566 | the rows persisted after the role that `validate_role` checks is saved (the write happens in the serializer's later save, not at these lines): every row of the target person has the new role and every other row is as it was |
| MembershipRules.OtherOwnerSurvives | backend/clubs/serializers.py:555-566 | an owner other than the edited person remains an owner after the edit |
| MembershipRules.PromotedOwnerCounts | backend/clubs/serializers.py:538-566 | setting an owner-level role on an existing row leaves at least one owner |
| MembershipRules.SecondOwner | backend/clubs/serializers.py:555-566 | with unique persons and two owners, some owner is not the given person |
| MembershipRules.OwnerKeptAfterRoleChange | backend/clubs/serializers.py:538-566 | a role change by a non-superuser that passes `MemberPermission` and `validate_role` never leaves the club without an owner |
| MembershipRules.SuperuserMayLeaveNoOwner | backend/clubs/serializers.py:549-550 | a superuser who is the only owner passes `MemberPermission` and `validate_role` when demoting themself, and the club is then left with no owner |
| MembershipRules.OwnerKeptAfterDestroy | backend/clubs/permissions.py:211-223 | deleting a membership that `MemberPermission` allows never leaves the club without an owner |
| MembershipRules.OwnerIsNotTarget | backend/clubs/serializers.py:555-566 | with unique persons, an owner row is not the row of a non-owner target |
| MembershipRules.ValidateFields | backend/clubs/serializers.py:568-587 | a superuser or officer may submit any field; anyone else is refused iff a field other than `active` is submitted, naming the first such field |
| ClubFields.ValidateActive | backend/clubs/serializers.py:1037-1057 | `active` may be set iff the caller holds `approve_club` or is an officer of the club; the value is unchanged |
| ClubFields.ValidateDescription | backend/clubs/serializers.py:954-962 | accepted iff the sanitised, stripped text has more than 10 characters; the result is that text, with no whitespace at either end |
| ClubFields.ValidateEmail | backend/clubs/serializers.py:964-974 | accepted iff an email is given and non-empty; it is returned unchanged |
| ClubFields.ValidateTags | backend/clubs/serializers.py:935-952 | for fyh, at least one tag is required; otherwise it is refused iff no submitted tag is a necessary tag while all necessary tags exist; accepted tags are unchanged |
| ClubFields.WordPrefixLength | backend/clubs/serializers.py:988 | the length of the longest prefix of word characters |
| ClubFields.WebsiteDroppedAsWritten | backend/clubs/serializers.py:976-998 | the website validator as written turns a valid "example.com" into None |
| ClubFields.ValidateWebsite | backend/clubs/serializers.py:976-998 | blank values pass unchanged; otherwise accepted iff the normalised URL is valid, and the result is that URL, which has a scheme |
| ClubFields.NormalisedHasScheme | backend/clubs/serializers.py:985-989 | a normalised website always has a scheme; one that had a scheme is only stripped |
| ClubFields.HttpsAddsScheme | backend/clubs/serializers.py:988-989 | prefixing `https://` always yields a URL that names a scheme |
| ClubFields.WordPrefixOfWordChars | backend/clubs/serializers.py:988 | word characters followed by a non-word character form the whole word prefix |
| ClubFields.SocialValidationHelper | backend/clubs/serializers.py:816-839 | blank values pass unchanged; any other value becomes an https URL |
| ClubFields.ChosenDomain | backend/clubs/serializers.py:834-838 | a single domain is always used; with choices, the URL's own host is kept when it is one of them, else the first choice |
| ClubFields.SocialPathShape | backend/clubs/serializers.py:827-833 | with absolute prefixes the path is absolute; an absolute path is kept; a handle `@name` becomes `<at_prefix or prefix>/name/` |
| ClubFields.ValidateSocial | backend/clubs/serializers.py:1000-1035 | each network validator keeps blanks and otherwise yields an https URL |
| ClubFields.FacebookPaths | backend/clubs/serializers.py:1000-1004 | a Facebook handle becomes `/name/` and a bare name `/groups/name/` |
| ClubFields.FacebookUrl | backend/clubs/serializers.py:1000-1004 | a Facebook value becomes `https://facebook.com` followed by its normalised path |
| ClubFields.TagEnd | backend/clubs/serializers.py:657 | the position of the `>` closing a tag that has at least one character inside |
| ClubFields.FirstIndexOf | backend/clubs/serializers.py:657 | the first occurrence of a character at or after a position, or None when there is none |
| ClubFields.RemoveTags | backend/clubs/serializers.py:657 | removing tags never lengthens the text |
| ClubFields.FirstSentence | backend/clubs/serializers.py:659 | a prefix of the text ending at the first `.`, newline or `!`, or the whole text when there is none |
| ClubFields.DecodeEntities | backend/clubs/serializers.py:660-665 | entity decoding never lengthens the text |
| ClubFields.ShortDescriptionBounds | backend/clubs/serializers.py:651-667 | a set subtitle is returned; otherwise the result has at most 1000 characters, is no longer than the description, and has no whitespace at either end |
| ClubFields.PlainDescriptionKept | backend/clubs/serializers.py:651-667 | a short description without tags, entities or sentence ends is returned stripped |
| ClubFields.PlainTextUnchanged | backend/clubs/serializers.py:657 | text without `<` is unchanged by tag removal |
| ClubFields.NoSentenceEndKept | backend/clubs/serializers.py:659 | text without a sentence end is kept whole |
| ClubFields.NoEntityKept | backend/clubs/serializers.py:660-665 | text without `&` is unchanged by entity decoding |
| ClubFields.NoAmpersandReplace | backend/clubs/serializers.py:660-665 | replacing an entity leaves text without `&` unchanged |
| ClubFields.StripOfLStrip | backend/clubs/serializers.py:656-666 | stripping after a left strip is the same as stripping |
| ClubFields.Selected | backend/clubs/serializers.py:731-734 | the subset holds exactly the requested names that exist, each once, ordered by their first request |
| ClubFields.GetFields | backend/clubs/serializers.py:713-737 | no `fields` parameter selects every field; when some requested field exists, exactly `Selected` of the request; all fields when none of them exists |
| QuestionAnswers.ValidateQuestion | backend/clubs/serializers.py:119-140 | the text may change iff the caller authored the question and it is unanswered; an unchanged text always passes |
| QuestionAnswers.ValidateIsAnonymous | backend/clubs/serializers.py:142-156 | anonymity may change only by the author |
| QuestionAnswers.ValidateAnswer | backend/clubs/serializers.py:158-181 | an answer is never withdrawn; giving one needs a superuser or an officer |
| QuestionAnswers.Update | backend/clubs/serializers.py:183-197 | submitted text, answer and anonymity replace the stored ones; the rest is kept |
| QuestionAnswers.UpdateRecordsEditors | backend/clubs/serializers.py:183-197 | a changed question takes the editor as author; a changed answer takes the editor as responder and is approved unless the edit says otherwise; otherwise both are kept |
| QuestionAnswers.AnsweredQuestionIsFrozen | backend/clubs/serializers.py:119-197 | once answered, no validated update changes the question text or withdraws the answer |
| Events.ValidateTimesMeaning | backend/clubs/serializers.py:356-367 | the event check passes iff the effective start (submitted or stored) is not after the effective end |
| Events.CheckFairUpdate | backend/clubs/serializers.py:369-384 | an update is refused iff the user lacks `see_fair_status`, the event is a fair event, and the update changes its start or end time |
| Users.ValidateGraduationYear | backend/clubs/serializers.py:1481-1495 | a missing or zero year becomes None; otherwise accepted iff it lies between two years before and ten years after the current year, and the error names the violated bound |
| ClubViews.ClubSerializerClass | clubs/views.py:56-63 | upload gives the asset serializer; an authenticated superuser or club member gets the authenticated serializer; everyone else the plain one |
| ClubViews.MemberSerializerMissingForNonMember | clubs/views.py:101-107 | as written, an authenticated non-superuser non-member gets no serializer class |
| ClubViews.MemberSerializerClass | clubs/views.py:101-107 | an authenticated superuser or club member gets the authenticated serializer; everyone else the plain one |
| ClubViews.MemberSerializerCorrectionAgrees | clubs/views.py:101-107 | the correction agrees with the written selector wherever that returns a class, and the written one fails exactly for authenticated non-superuser non-members |
| ClubViews.CleanEmailsStripped | clubs/views.py:171-172 | every kept email is non-blank and already stripped |
| ClubViews.CleanEmailsComplete | clubs/views.py:171-172 | every entry that is non-blank after stripping is kept, stripped |
| ClubViews.StripIdempotent | clubs/views.py:171 | stripping twice is stripping once |
| ClubViews.Candidates | clubs/views.py:174-176 | the candidates are exactly the parsed emails that are not members' emails |
| ClubViews.MassInvite | clubs/views.py:153-196 | 403 iff the caller is neither superuser nor officer; a role stronger than the caller's own is refused; an invalid email stops the request; otherwise exactly one invite per candidate with the requested or default role and title |
| ClubViews.FindInvalidEmail | clubs/views.py:178-179 | reports an email the validator refuses, or None iff it accepts them all |
| ClubViews.CreateInvites | clubs/views.py:181-192 | one invite per email, none repeated; the owner invite is sent exactly for an owner-level role from a caller without membership |
| ClubViews.InviteAdded | clubs/views.py:181-192 | adding one invite for a new email keeps the invite list complete and repeat-free |
| ClubViews.SentInvitesAreNewAndUnique | clubs/views.py:171-196 | the reported count is the number of distinct new emails; every invited address is cleaned, non-blank and not a member's |
| GenCss.ParseColor | frontend/scripts/gen_css.py:27-32 | the first two components parse to values below 256 |
| GenCss.TwoDigitBound | frontend/scripts/gen_css.py:29 | at most two hex digits give a value below 256 |
| GenCss.TwoDigitValue | frontend/scripts/gen_css.py:29 | two hex digits denote 16 times the first plus the second |
| GenCss.Truncate | frontend/scripts/gen_css.py:38-40 | `int()` truncates toward zero |
| GenCss.Color.constructor | frontend/scripts/gen_css.py:27-32 | a colour holds the parsed components |
| GenCss.Color.WithAlpha | frontend/scripts/gen_css.py:34-35 | `with_alpha` writes `RgbaText` of the stored components and the alpha, which opens with `rgba(` and closes with `)` |
| GenCss.Color.Scale | frontend/scripts/gen_css.py:37-41 | each component is replaced by the truncation of component times k, and the object itself is returned |
| GenCss.Color.Hex | frontend/scripts/gen_css.py:43-44 | `hex` writes `HexText` of the stored components: `#` followed by at least six characters |
| GenCss.RgbaText | frontend/scripts/gen_css.py:35 | the text starts with `rgba(` and ends with `)` |
| GenCss.HexText | frontend/scripts/gen_css.py:44 | the text starts with `#` and has at least seven characters |
| GenCss.Hex02 | frontend/scripts/gen_css.py:44 | the `02x` format writes at least two characters |
| GenCss.ScaleDarkens | frontend/scripts/gen_css.py:37-41 | scaling by 0 <= k <= 1 never increases a component nor makes it negative |
| GenCss.ByteRoundTrip | frontend/scripts/gen_css.py:29-44 | two hex digits parse to a byte that is written back as the same digits in lower case |
| GenCss.ColorHexRoundTrip | frontend/scripts/gen_css.py:27-44 | for a six-digit colour, `Color(s).hex()` is `#` plus the same digits in lower case |
| GenCss.SixDigitsParse | frontend/scripts/gen_css.py:28-29 | six digits split into the three two-digit components |
| GenCss.TextClassName | frontend/scripts/gen_css.py:91 | the class name is `has-text-` followed by the colour name without `is-` |
| GenCss.RenderRulesAppend | frontend/scripts/gen_css.py:63-67 | the rendering of two rule lists is the concatenation of their renderings |
| GenCss.RuleBlockShape | frontend/scripts/gen_css.py:64-67 | each block opens with the selector and ` {` and closes with `}` and a blank line |
| GenCss.CssWriter.constructor | frontend/scripts/gen_css.py:52-53 | a new writer has no rules |
| GenCss.CssWriter.AddRule | frontend/scripts/gen_css.py:55-56 | `add_rule` appends the rule at the end |
| GenCss.CssWriter.GetValue | frontend/scripts/gen_css.py:58-68 | the output is the header followed by every rule's block in insertion order |
| GenCss.WriteDeclarations | frontend/scripts/gen_css.py:65-66 | one `    key: value;` line per attribute, in order |
| GenCss.AddRuleAppendsBlock | frontend/scripts/gen_css.py:55-68 | adding a rule appends exactly its block to the stylesheet |
| ClubEditCard.FieldAttributes | frontend/components/ClubEditPage/ClubEditCard.tsx:106-119 | keys are kept iff whitelisted directly or as `<field>_url`, with their values; no key is added |
| ClubEditCard.RemoveNonFieldAttributes | frontend/components/ClubEditPage/ClubEditCard.tsx:110-118 | the reduce produces exactly the filtered object |
| ClubEditCard.FieldAttributesIdempotent | frontend/components/ClubEditPage/ClubEditCard.tsx:106-119 | filtering twice is filtering once |
| ClubEditCard.FieldAttributesKeepsFieldObjects | frontend/components/ClubEditPage/ClubEditCard.tsx:106-119 | an object of whitelisted keys is returned unchanged |
| ClubEditCard.EditingFields | frontend/components/ClubEditPage/ClubEditCard.tsx:409-412 | the set holds exactly the field names of all groups |
| ClubEditCard.InitialValues | frontend/components/ClubEditPage/ClubEditCard.tsx:403-422 | an empty club starts from the creation defaults, any other from its fixed-up whitelisted attributes |
| ClubEditCard.WithoutImage | frontend/components/ClubEditPage/ClubEditCard.tsx:137-140 | `image` is removed unless it is null; every other key is kept |
| ClubEditCard.SubmitData.constructor | frontend/components/ClubEditPage/ClubEditCard.tsx:136 | the form data as submitted |
| ClubEditCard.SubmitData.DropImage | frontend/components/ClubEditPage/ClubEditCard.tsx:137-140 | the data becomes `WithoutImage` of the old data |
| JsStrings.ToInt32 | frontend/components/common/ProfilePic.tsx:12 | `| 0` wraps into the signed 32-bit range and keeps values already there |
| ClubTableRow.GetSubtitle | components/ClubTableRow.js:58-67 | a non-empty subtitle is returned; a description shorter than 200 units is returned; otherwise its first 200 units plus `...`, 203 units in all |
| ClubTableRow.SubtitleFromDescription | components/ClubTableRow.js:58-67 | without a subtitle the result has at most 203 units and starts with a prefix of the description, the whole result or its first 200 units |
| ProfilePic.HashValue | frontend/components/common/ProfilePic.tsx:7-16 | the hash lies in 0..65535 |
| ProfilePic.HashCode | frontend/components/common/ProfilePic.tsx:7-16 | the loop computes `HashValue`: the first code unit, or 0 for an empty name |
| ProfilePic.HashOfFirstUnit | frontend/components/common/ProfilePic.tsx:10-14 | the empty name hashes to 0; any other to its first code unit, whatever follows |
| ProfilePic.Nonce | frontend/components/common/ProfilePic.tsx:81 | the nonce is the hash modulo the palette length and lies below it; NaN (None) exactly for an empty palette |
| ProfilePic.Initials | frontend/components/common/ProfilePic.tsx:86 | the initials contain no lowercase letter nor white space, and only units of the name |
| ProfilePic.InitialsKeepOthers | frontend/components/common/ProfilePic.tsx:86 | a name with no lowercase letter or white space is kept whole |
| ProfilePic.InitialsIdempotent | frontend/components/common/ProfilePic.tsx:86 | extracting initials twice is extracting them once |
| ProfilePic.Render | frontend/components/common/ProfilePic.tsx:74-86 | a set image gives the avatar; otherwise the placeholder shows the initials and both colours taken at the nonce |
| ProfilePic.ColoursShareIndex | frontend/components/common/ProfilePic.tsx:81-83 | with equal non-empty palettes both colours exist and come from the same index |
| Routes.ClubRoute | frontend/constants/routes.ts:3-4 | `/club/` and the slug for a non-empty slug, the placeholder route otherwise |
| Routes.ClubEditRoute | frontend/constants/routes.ts:5-6 | the club route followed by `/edit`, for every slug |
| Routes.ClubFlyerRoute | frontend/constants/routes.ts:7-8 | the club route followed by `/flyer`, for every slug |
| Routes.ClubRouteInjective | frontend/constants/routes.ts:3-4 | distinct slugs give distinct club routes |
| HomePage.FilterClubs | frontend/pages/index.js:117-137 | a club is kept iff the size, application and type filters all pass |
| HomePage.FilterPreservesOrder | frontend/pages/index.js:117-137 | the kept clubs appear in their original order |
| HomePage.SubsequenceDropHead | frontend/pages/index.js:117-137 | a subsequence of the tail is a subsequence of the list |
| HomePage.SubsequenceSkip | frontend/pages/index.js:117-137 | dropping the first element of a subsequence leaves a subsequence |
| HomePage.NoSelectionKeepsAll | frontend/pages/index.js:117-137 | with nothing selected every club is shown |
| HomePage.FindTag | frontend/pages/index.js:152-154 | -1 iff no entry has the value and group; otherwise the first such entry |
| HomePage.ToggleTwiceRestores | frontend/pages/index.js:149-161 | selecting an unselected tag and clicking it again restores the selection |
| HomePage.ToggleFlipsSelection | frontend/pages/index.js:149-161 | a toggle adds or removes exactly one entry; an unselected tag becomes selected |
| HomePage.ToggleUnselectsSingleEntry | frontend/pages/index.js:149-161 | a tag selected exactly once is no longer selected after the toggle splices out its entry |
| HomePage.ClubListPage.constructor | frontend/pages/index.js:103-141 | a new page shows every club with nothing selected and no search text |
| HomePage.ClubListPage.UpdateTag | frontend/pages/index.js:103-167 | the selection is toggled and the display becomes the filtered search result under the new selection |

## Left out

- Persistence and the ORM. The database queries are replaced by explicit inputs:
  - membership lists;
  - the club's history as snapshots;
  - "an approved version exists";
  - the members' emails;
  - the family tree of club codes.
  `update_or_create`, the many-to-many save mixins and `image_small.delete` are
  not modelled.
- Snapshots.LatestApproved: `order_by("-approved_on")` is modelled with a missing
  approval time sorting after every timed one. The database is not named in the
  source; PostgreSQL sorts NULL first under DESC and would pick an approved
  snapshot without a time ahead of the timed ones. The model does not capture that
  placement.
- `find_relationship_helper`: it builds a club's family tree. It is not part of this
  model and is taken as a given `Json` tree.
- Emails and history notes. Only the flags that trigger emails are modelled (approval,
  confirmation, renewal, owner invite). `update_change_reason` is not modelled.
- Library calls are parameters without a model of their own:
  - `slugify`, `clean`, `urlparse`;
  - Django's URL and email validators;
  - the fuzzy search;
  - `doFormikInitialValueFixes`.
- Exceptions of lookups are not modelled: `Club.objects.get` and `get_object_or_404`
  raising, and JavaScript reading a property of null.
- Approval.ClubSerializer.Save: the stored club is given as a row. It is assumed
  present whenever `self.instance` exists.
- MembershipRules.OwnerKeptAfterRoleChange: assumes the membership that
  `MemberPermission` checks is the caller's row in this club.
  `find_membership_helper` can instead return a stronger membership in a
  parent organisation. Such a caller is not bound by the club's rows.
- MembershipRules.OwnerKeptAfterRoleChange: holds for non-superusers only.
  `validate_role` returns early for a superuser (serializers.py:549-550), so a
  superuser who is the only owner may demote themself and leave the club without
  an owner; `SuperuserMayLeaveNoOwner` exhibits this. The rule that a club always
  keeps an owner therefore does not hold on this path. The model follows the
  code and does not report it as a defect, since the superuser bypass is deliberate.
- MembershipRules.OwnerKeptAfterDestroy: the same parent-organisation caveat
  applies to the membership that `MemberPermission` checks.
- Events.ValidateTimes: a time submitted explicitly as null is treated as not
  submitted. `data.get` would use the null rather than the stored time.
- `ClubEventSerializer.validate_description` is only a call to `clean`.
  `ClubEventSerializer.validate_url` rewrites Google redirect links with `parse_qs`.
  Both are left out as library calls.
- `validate_badges` (the identity), `UserSerializer.update` (a `setattr` loop over
  model fields), `ReportClubField`/`get_additional_fields` (fair lookups and JSON
  decoding) and the image URL getters are left out. They are persistence and
  lookup code without decisions of their own.
- GenCss.Truncate: models `int()` of the product as exact rational truncation.
  Floating-point rounding of `component * k` is not modelled.
- GenCss.Color.constructor: requires the text to parse. It does not model Python
  `int()`'s leniency (surrounding spaces, a sign, underscores, a `0x` prefix), which
  is refused here and accepted there.
- ClubFields.IsWordChar: Python's `\w` is restricted to ASCII letters, digits and
  the underscore.
- ClubViews.MassInvite: an absent `emails` field is passed as the empty text, as
  its default in the view. A `role` or `title` sent as JSON null is treated as
  absent, so the defaults apply. In the view, `request.data.get` returns None
  instead. For a caller with a membership, `mem.role > None` then raises at
  views.py:166 and no invite is created. Without a membership, a null role or
  title reaches the invite rows, which the database layer decides; that layer is
  not part of this model. The order of the set of emails is unspecified, so which
  invalid email is reported is not determined.
- HomePage.ClubListPage.UpdateTag: the tag object's `name` is set in place.
  Aliasing of that object with the checkbox that passed it is not modelled.
  The selection holds (value, group) pairs.
- The home page's `shuffle` ranking (randomness and fractional ranks) and all React
  rendering and styling are left out.
- Concurrency and transactions: one save is one sequential step.

## Findings

| source | as written | input that shows it | evidently intended | confidence | as-written member | corrected member |
|---|---|---|---|---|---|---|
| backend/clubs/serializers.py:976-998 | `validate_website` has no `return` on its success path, so a valid non-blank website is stored as None | website "example.com", accepted by the URL validator | return the normalised URL ("https://example.com") | high, not executed | ClubFields.WebsiteDroppedAsWritten | ClubFields.ValidateWebsite |
| clubs/views.py:101-107 | the `else` belongs to the authentication test, so an authenticated user who is neither a superuser nor a member falls off the end and gets None as serializer class | an authenticated non-superuser, with `club_pk` in the URL, who is not a member | fall back to `MembershipSerializer` as `ClubViewSet.get_serializer_class` does | high, not executed | ClubViews.MemberSerializerMissingForNonMember | ClubViews.MemberSerializerClass |
