/**
 * Which version of a club a viewer is shown: `ClubListSerializer.to_representation`
 * and `ClubSerializer.get_is_ghost` (backend/clubs/serializers.py).
 *
 * The club's history table is an explicit sequence of snapshots in the table's own
 * order, and the club's memberships are an explicit list.
 */
module Snapshots {
  import opened Wrappers
  import opened Roles
  import opened ClubRecords

  /** One row of the history table: the club as it was, with its `approved` and `approved_on`. */
  datatype Snapshot = Snapshot(approved: Value, approvedOn: Option<int>, club: Row)

  /** What the serializer renders: the live club, or an approved snapshot in its place. */
  datatype ClubView = Live(club: Row) | Historical(snapshot: Snapshot)

  /** `history.filter(approved=True)` */
  predicate IsApprovedSnapshot(s: Snapshot) {
    s.approved == Flag(true)
  }

  /** `order_by("-approved_on")`: a later approval time sorts first; a missing time sorts last. */
  predicate NotLaterThan(a: Option<int>, b: Option<int>) {
    a.None? || (b.Some? && a.value <= b.value)
  }

  /**
   * `instance.history.filter(approved=True).order_by("-approved_on").first()`: the
   * approved snapshot with the latest approval time (the first such in table order).
   */
  function LatestApproved(history: seq<Snapshot>): (r: Option<Snapshot>)
    ensures r.None? <==> forall s :: s in history ==> !IsApprovedSnapshot(s)
    ensures r.Some? ==> r.value in history && IsApprovedSnapshot(r.value)
    ensures r.Some? ==> forall s :: s in history && IsApprovedSnapshot(s) ==> NotLaterThan(s.approvedOn, r.value.approvedOn)
  {
    if history == [] then None
    else
      var rest := LatestApproved(history[1..]);
      var head := history[0];
      if !IsApprovedSnapshot(head) then rest
      else if rest.Some? && !NotLaterThan(rest.value.approvedOn, head.approvedOn) then rest
      else Some(head)
  }

  /** `instance.membership_set.filter(person=user).exists()` for an authenticated viewer. */
  predicate IsMember(viewer: User, members: seq<Membership>) {
    viewer.authenticated && exists m :: m in members && m.person == viewer.id
  }

  /** `to_representation`: a ghost club that is not approved falls back to its latest approved snapshot. */
  function ToRepresentation(club: Row, viewer: User, members: seq<Membership>, history: seq<Snapshot>): ClubView {
    if Truthy(Get(club, Ghost)) && !Truthy(Get(club, Approved)) then
      var canSeePending := HasPerm(viewer, SEE_PENDING_CLUBS);
      if !canSeePending && !IsMember(viewer, members) then
        match LatestApproved(history)
        case Some(s) => Historical(s)
        case None => Live(club)
      else Live(club)
    else Live(club)
  }

  /** `get_is_ghost`: a ghost club, or any historical rendering, is reported as a ghost. */
  function IsGhost(view: ClubView): bool {
    match view
    case Live(c) => Truthy(Get(c, Ghost))
    case Historical(_) => true
  }

  /**
   * The fallback, both ways: a viewer gets a historical view exactly when the club
   * is a ghost and not approved, the viewer has neither `see_pending_clubs` nor a
   * membership, and an approved snapshot exists; that snapshot is then the latest one.
   */
  lemma HistoricalViewExactly(club: Row, viewer: User, members: seq<Membership>, history: seq<Snapshot>)
    ensures var v := ToRepresentation(club, viewer, members, history);
      v.Historical? <==>
        && Truthy(Get(club, Ghost)) && !Truthy(Get(club, Approved))
        && !HasPerm(viewer, SEE_PENDING_CLUBS) && !IsMember(viewer, members)
        && exists s :: s in history && IsApprovedSnapshot(s)
    ensures var v := ToRepresentation(club, viewer, members, history);
      v.Historical? ==> v.snapshot == LatestApproved(history).value && IsGhost(v)
    ensures var v := ToRepresentation(club, viewer, members, history);
      v.Live? ==> v.club == club
  {
  }

  /** Members and viewers allowed to see pending clubs always see the live club. */
  lemma PrivilegedViewersSeeLiveClub(club: Row, viewer: User, members: seq<Membership>, history: seq<Snapshot>)
    requires HasPerm(viewer, SEE_PENDING_CLUBS) || IsMember(viewer, members)
    ensures ToRepresentation(club, viewer, members, history) == Live(club)
  {
  }

  /** A club that is approved, or is no ghost, is shown live to everyone. */
  lemma ApprovedOrNonGhostShownLive(club: Row, viewer: User, members: seq<Membership>, history: seq<Snapshot>)
    requires Truthy(Get(club, Approved)) || !Truthy(Get(club, Ghost))
    ensures ToRepresentation(club, viewer, members, history) == Live(club)
    ensures IsGhost(ToRepresentation(club, viewer, members, history)) == Truthy(Get(club, Ghost))
  {
  }
}
