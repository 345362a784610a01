/**
 * The decisions in clubs/views.py: the serializer selectors of `ClubViewSet` and
 * `MemberViewSet`, and `MassInviteAPIView.post`.
 *
 * The request's user is None when the view has no request; `isMember` is the
 * answer of the membership query for the club in the URL.
 */
module ClubViews {
  import opened Wrappers
  import opened Strings
  import opened Roles
  import Permissions

  datatype SerializerClass =
    | AssetSerializer
    | ClubSerializer | AuthenticatedClubSerializer
    | MembershipSerializer | AuthenticatedMembershipSerializer

  /** `ClubViewSet.get_serializer_class`; `hasPk` says whether the URL names a club. */
  function ClubSerializerClass(action: Permissions.Action, user: Option<User>, hasPk: bool, isMember: bool): (c: SerializerClass)
    ensures action == Permissions.Upload ==> c == AssetSerializer
    ensures action != Permissions.Upload ==>
      (c == AuthenticatedClubSerializer <==>
        user.Some? && user.value.authenticated && (user.value.superuser || (hasPk && isMember)))
    ensures action != Permissions.Upload ==> c in {ClubSerializer, AuthenticatedClubSerializer}
  {
    if action == Permissions.Upload then AssetSerializer
    else if user.Some? && user.value.authenticated && (user.value.superuser || (hasPk && isMember)) then
      AuthenticatedClubSerializer
    else ClubSerializer
  }

  /**
   * `MemberViewSet.get_serializer_class` as written: the `else` belongs to the
   * authentication test, so an authenticated user who is neither a superuser nor a
   * member of the club gets no serializer class at all.
   */
  function MemberSerializerClassAsWritten(user: Option<User>, hasClubPk: bool, isMember: bool): Option<SerializerClass> {
    if user.Some? && user.value.authenticated then
      if user.value.superuser || (hasClubPk && isMember) then Some(AuthenticatedMembershipSerializer)
      else None
    else Some(MembershipSerializer)
  }

  /** A logged-in student browsing a club they do not belong to gets None. */
  lemma MemberSerializerMissingForNonMember()
    ensures MemberSerializerClassAsWritten(Some(User(7, true, false, {})), true, false) == None
  {
  }

  /** `MemberViewSet.get_serializer_class` with the plain serializer as the fallback for everyone else. */
  function MemberSerializerClass(user: Option<User>, hasClubPk: bool, isMember: bool): (c: SerializerClass)
    ensures c == AuthenticatedMembershipSerializer <==>
      user.Some? && user.value.authenticated && (user.value.superuser || (hasClubPk && isMember))
    ensures c in {MembershipSerializer, AuthenticatedMembershipSerializer}
  {
    if user.Some? && user.value.authenticated && (user.value.superuser || (hasClubPk && isMember)) then
      AuthenticatedMembershipSerializer
    else MembershipSerializer
  }

  /** The corrected selector agrees with the written one wherever the written one returns a class. */
  lemma MemberSerializerCorrectionAgrees(user: Option<User>, hasClubPk: bool, isMember: bool)
    ensures MemberSerializerClassAsWritten(user, hasClubPk, isMember).Some? ==>
      MemberSerializerClassAsWritten(user, hasClubPk, isMember).value == MemberSerializerClass(user, hasClubPk, isMember)
    ensures MemberSerializerClassAsWritten(user, hasClubPk, isMember).None? <==>
      user.Some? && user.value.authenticated && !user.value.superuser && !(hasClubPk && isMember)
  {
  }

  // ---------------------------------------------------------------------------
  // MassInviteAPIView.post
  // ---------------------------------------------------------------------------

  /** A `MembershipInvite` created by the view and the mail it sends. */
  datatype Invite = Invite(email: string, role: int, title: string, ownerInvite: bool)

  /** The view's response: a 403, the validation failure of some email, or the invites sent. */
  datatype InviteOutcome =
    | NoPermission
    | RoleAboveOwn
    | InvalidEmail(email: string)
    | Sent(invites: seq<Invite>)

  /** `[x.strip() for x in parts]` followed by dropping the empty entries. */
  function CleanEmails(parts: seq<string>): seq<string> {
    if parts == [] then []
    else if Strip(parts[0]) != "" then [Strip(parts[0])] + CleanEmails(parts[1..])
    else CleanEmails(parts[1..])
  }

  /** Every kept entry is non-blank and already stripped. */
  lemma {:induction false} CleanEmailsStripped(parts: seq<string>)
    ensures forall e :: e in CleanEmails(parts) ==> e != "" && e == Strip(e)
  {
    if parts != [] {
      CleanEmailsStripped(parts[1..]);
      var rest := CleanEmails(parts[1..]);
      if Strip(parts[0]) != "" {
        StripIdempotent(parts[0]);
        assert CleanEmails(parts) == [Strip(parts[0])] + rest;
      } else {
        assert CleanEmails(parts) == rest;
      }
    }
  }

  /** Every non-blank entry is kept, stripped. */
  lemma {:induction false} CleanEmailsComplete(parts: seq<string>)
    ensures forall i :: 0 <= i < |parts| && Strip(parts[i]) != "" ==> Strip(parts[i]) in CleanEmails(parts)
  {
    if parts != [] {
      CleanEmailsComplete(parts[1..]);
      var rest := CleanEmails(parts[1..]);
      assert forall e :: e in rest ==> e in CleanEmails(parts);
      forall i | 0 <= i < |parts| && Strip(parts[i]) != ""
        ensures Strip(parts[i]) in CleanEmails(parts)
      {
        if i > 0 {
          assert parts[i] == parts[1..][i - 1];
        }
      }
    }
  }

  lemma StripIdempotent(s: string)
    ensures Strip(Strip(s)) == Strip(s)
  {
    var l := LStrip(s);
    var r := RStrip(l);
    assert LStrip(r) == r;
    assert RStrip(r) == r;
  }

  /** The submitted list, split on newlines and commas, stripped, without blanks. */
  function ParseEmails(raw: string): seq<string> {
    CleanEmails(Split(raw, {'\n', ','}))
  }

  /** `set(emails) - set(exist)`: the distinct submitted emails that are not members' emails. */
  function Candidates(raw: string, memberEmails: set<string>): (c: set<string>)
    ensures forall e :: e in c <==> e in ParseEmails(raw) && e !in memberEmails
  {
    set e | e in ParseEmails(raw) && e !in memberEmails
  }

  /** Whether the caller may invite at all: a superuser, or an officer of the club. */
  predicate MayInvite(user: User, mem: Option<Membership>) {
    user.superuser || Permissions.IsOfficer(mem)
  }

  /**
   * `post(request)`: `mem` is the caller's membership in the club, `requestedRole`
   * and `requestedTitle` the request fields (None when absent), `rawEmails` the
   * emails field ("" when absent),
   * `memberEmails` the emails of the club's members, and `isValidEmail` Django's
   * `validate_email`.
   */
  method MassInvite(user: User, mem: Option<Membership>, requestedRole: Option<int>, requestedTitle: Option<string>,
                    rawEmails: string, memberEmails: set<string>, isValidEmail: string -> bool)
    returns (outcome: InviteOutcome)
    ensures outcome.NoPermission? <==> !MayInvite(user, mem)
    ensures outcome.RoleAboveOwn? <==>
      MayInvite(user, mem) && mem.Some? && mem.value.role > requestedRole.GetOr(ROLE_MEMBER)
    ensures outcome.InvalidEmail? ==>
      outcome.email in Candidates(rawEmails, memberEmails) && !isValidEmail(outcome.email)
    ensures outcome.Sent? <==>
      (MayInvite(user, mem) && !(mem.Some? && mem.value.role > requestedRole.GetOr(ROLE_MEMBER)) &&
       forall e :: e in Candidates(rawEmails, memberEmails) ==> isValidEmail(e))
    ensures outcome.Sent? ==> InvitesFor(outcome.invites, Candidates(rawEmails, memberEmails),
      requestedRole.GetOr(ROLE_MEMBER), requestedTitle.GetOr("Member"), mem.None?)
  {
    if !user.superuser && (mem.None? || !(mem.value.role <= ROLE_OFFICER)) {
      return NoPermission;
    }
    var role := requestedRole.GetOr(ROLE_MEMBER);
    var title := requestedTitle.GetOr("Member");
    if mem.Some? && mem.value.role > role {
      return RoleAboveOwn;
    }
    var emails := Candidates(rawEmails, memberEmails);
    var invalid := FindInvalidEmail(emails, isValidEmail);
    if invalid.Some? {
      return InvalidEmail(invalid.value);
    }
    var invites := CreateInvites(emails, role, title, mem.None?);
    outcome := Sent(invites);
  }

  /** The validation loop: some email `validate_email` refuses, or None when it accepts them all. */
  method FindInvalidEmail(emails: set<string>, isValidEmail: string -> bool) returns (invalid: Option<string>)
    ensures invalid.Some? ==> invalid.value in emails && !isValidEmail(invalid.value)
    ensures invalid.None? <==> forall e :: e in emails ==> isValidEmail(e)
  {
    var unchecked := emails;
    while unchecked != {}
      invariant unchecked <= emails
      invariant forall e :: e in emails - unchecked ==> isValidEmail(e)
      decreases |unchecked|
    {
      var email :| email in unchecked;
      if !isValidEmail(email) {
        return Some(email);
      }
      unchecked := unchecked - {email};
    }
    return None;
  }

  /** The creation loop: one invite per email. */
  method CreateInvites(emails: set<string>, role: int, title: string, noMembership: bool) returns (invites: seq<Invite>)
    ensures InvitesFor(invites, emails, role, title, noMembership)
  {
    invites := [];
    var pending := emails;
    while pending != {}
      invariant pending <= emails
      invariant InvitesFor(invites, emails - pending, role, title, noMembership)
      decreases |pending|
    {
      var email :| email in pending;
      InviteAdded(invites, emails - pending, email, role, title, noMembership);
      invites := invites + [Invite(email, role, title, role <= ROLE_OWNER && noMembership)];
      assert emails - (pending - {email}) == (emails - pending) + {email};
      pending := pending - {email};
    }
    assert emails - pending == emails;
  }

  /**
   * The invites are one per email of `emails` (no repeats), each for the requested
   * role and title, sending the owner invite exactly when the role is owner-level
   * and the caller has no membership.
   */
  predicate InvitesFor(invites: seq<Invite>, emails: set<string>, role: int, title: string, noMembership: bool) {
    |invites| == |emails|
    && (forall i :: 0 <= i < |invites| ==> invites[i].email in emails)
    && (forall e :: e in emails ==> exists i :: 0 <= i < |invites| && invites[i].email == e)
    && (forall i, j :: 0 <= i < j < |invites| ==> invites[i].email != invites[j].email)
    && (forall i :: 0 <= i < |invites| ==>
          invites[i].role == role && invites[i].title == title && invites[i].ownerInvite == (role <= ROLE_OWNER && noMembership))
  }

  lemma InviteAdded(invites: seq<Invite>, done: set<string>, email: string, role: int, title: string, noMembership: bool)
    requires InvitesFor(invites, done, role, title, noMembership) && email !in done
    ensures InvitesFor(invites + [Invite(email, role, title, role <= ROLE_OWNER && noMembership)], done + {email},
                       role, title, noMembership)
  {
    var next := invites + [Invite(email, role, title, role <= ROLE_OWNER && noMembership)];
    forall e | e in done + {email}
      ensures exists i :: 0 <= i < |next| && next[i].email == e
    {
      if e == email {
        assert next[|invites|].email == e;
      } else {
        var i :| 0 <= i < |invites| && invites[i].email == e;
        assert next[i].email == e;
      }
    }
  }

  /**
   * The reported count is the number of distinct new emails, every invited address
   * is a cleaned, non-blank, non-member address, and no address is invited twice.
   */
  lemma SentInvitesAreNewAndUnique(outcome: InviteOutcome, raw: string, memberEmails: set<string>,
                                   role: int, title: string, noMembership: bool)
    requires outcome.Sent? && InvitesFor(outcome.invites, Candidates(raw, memberEmails), role, title, noMembership)
    ensures |outcome.invites| == |Candidates(raw, memberEmails)|
    ensures forall i :: 0 <= i < |outcome.invites| ==>
      var e := outcome.invites[i].email; e != "" && e == Strip(e) && e !in memberEmails
  {
    forall i | 0 <= i < |outcome.invites|
      ensures var e := outcome.invites[i].email; e != "" && e == Strip(e) && e !in memberEmails
    {
      CleanEmailsStripped(Split(raw, {'\n', ','}));
    }
  }
}
