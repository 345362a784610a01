/**
 * The membership role scale and the caller identity.
 *
 * Roles are integers where a LOWER value means MORE authority. The constants
 * live in the club models (clubs/models.py is not part of this model); the
 * values chosen here are the repository's, and every proof relies only on
 * ROLE_OWNER < ROLE_OFFICER < ROLE_MEMBER.
 */
module Roles {
  import opened Wrappers

  const ROLE_OWNER: int := 0
  const ROLE_OFFICER: int := 10
  const ROLE_MEMBER: int := 20

  /** The single role comparison used everywhere: `role` carries at least the authority of `threshold`. */
  predicate IsAtLeast(role: int, threshold: int) {
    role <= threshold
  }

  lemma RoleScaleOrdered()
    ensures ROLE_OWNER < ROLE_OFFICER < ROLE_MEMBER
    ensures IsAtLeast(ROLE_OWNER, ROLE_OFFICER) && IsAtLeast(ROLE_OFFICER, ROLE_MEMBER)
    ensures !IsAtLeast(ROLE_MEMBER, ROLE_OFFICER) && !IsAtLeast(ROLE_OFFICER, ROLE_OWNER)
  {
  }

  /** A request's user: `perms` are the Django permission codes granted to the account. */
  datatype User = User(id: nat, authenticated: bool, superuser: bool, perms: set<string>)

  /** Django's user.has_perm: an anonymous user holds nothing, a superuser holds everything. */
  predicate HasPerm(u: User, perm: string) {
    u.authenticated && (u.superuser || perm in u.perms)
  }

  const APPROVE_CLUB := "clubs.approve_club"
  const DELETE_CLUB := "clubs.delete_club"
  const SEE_PENDING_CLUBS := "clubs.see_pending_clubs"
  const SEE_FAIR_STATUS := "clubs.see_fair_status"

  /** A membership row: a person in a club (identified by its code) with a role. */
  datatype Membership = Membership(person: nat, club: string, role: int)

  /** Two membership objects denote the same row (the pair (person, club) is unique). */
  predicate SameRow(a: Membership, b: Membership) {
    a.person == b.person && a.club == b.club
  }

  /** `Membership.objects.filter(person=user, ...).first()` over the rows of one club. */
  function MembershipOf(members: seq<Membership>, person: nat): (r: Option<Membership>)
    ensures r.Some? ==> r.value in members && r.value.person == person
    ensures r.None? <==> forall m :: m in members ==> m.person != person
  {
    if members == [] then None
    else if members[0].person == person then Some(members[0])
    else MembershipOf(members[1..], person)
  }
}
