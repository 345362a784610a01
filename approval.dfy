/**
 * The club approval state machine: `ClubSerializer.save` and `ClubSerializer.create`
 * (backend/clubs/serializers.py). A save edits the `validated_data` dictionary step
 * by step; the steps are specified one by one below, and `ClubSerializer.Save`
 * performs them in place and is proved to produce `SavedData` and `Outcome`.
 *
 * The history table, the request user and the clock are inputs: `hasApprovedHistory`
 * says whether some history snapshot of the club has approved = True, `actor` is the
 * request's user and `now` the current time. `slugify` is Django's slugify.
 */
module Approval {
  import opened Wrappers
  import opened Strings
  import opened Roles
  import opened ClubRecords

  /** Fields whose edit sends an approved club back for review. */
  const SENSITIVE: set<Field> := {Name, Image, Description}

  /** `field in data and not data[field] == getattr(instance, field, None)` */
  predicate Changed(stored: Row, data: Row, f: Field) {
    f in data && data[f] != Get(stored, f)
  }

  /** Some sensitive field is supplied with a value that differs from the stored one. */
  predicate SensitiveEdit(stored: Row, data: Row) {
    exists f :: f in SENSITIVE && Changed(stored, data, f)
  }

  /** Step 1: the supplied name is stripped of surrounding whitespace. */
  function StripName(data: Row): Row {
    if Name in data && data[Name].Str? then data[Name := Str(Strip(data[Name].s))] else data
  }

  /** Step 2: a new club without a code gets the slug of its name; an edit never changes the code. */
  function ResolveCode(instance: Option<Row>, data: Row, slugify: string -> string): Row {
    if instance.None? then
      if !Truthy(Get(data, Code)) && Truthy(Get(data, Name)) && data[Name].Str?
      then data[Code := Str(slugify(data[Name].s))]
      else data
    else data - {Code}
  }

  /** The dictionary after steps 1 and 2, which the re-approval check inspects. */
  function Prepared(instance: Option<Row>, data: Row, slugify: string -> string): Row {
    ResolveCode(instance, StripName(data), slugify)
  }

  /** Steps 3 and 4: an edit of a sensitive field needs re-approval unless the actor may approve clubs. */
  predicate NeedsReapproval(instance: Option<Row>, data: Row, actor: User) {
    instance.Some? && SensitiveEdit(instance.value, data) && !HasPerm(actor, APPROVE_CLUB)
  }

  /** Step 5: back to pending; the club is a ghost iff an approved version of it exists. */
  function ResetForReapproval(data: Row, hasApprovedVersion: bool): Row {
    data[Approved := Null][ApprovedBy := Null][ApprovedOn := Null][Ghost := Flag(hasApprovedVersion)]
  }

  /** Step 6: an explicit approved = None also clears the approver and the approval time. */
  function ClearRevoked(data: Row): Row {
    if Approved in data && data[Approved] == Null
    then data[Approved := Null][ApprovedBy := Null][ApprovedOn := Null]
    else data
  }

  /** A decision is rendered: the stored club was pending and the save carries a non-null `approved`. */
  predicate DecisionRendered(instance: Option<Row>, data: Row) {
    instance.Some? && Get(instance.value, Approved) == Null && Get(data, Approved) != Null
  }

  /** Step 7: a rendered decision records who decided and when; an approval also clears `ghost`. */
  function StampDecision(instance: Option<Row>, data: Row, actor: User, now: int): Row {
    if DecisionRendered(instance, data) then
      var stamped := data[ApprovedBy := UserRef(actor.id)][ApprovedOn := Stamp(now)];
      if data[Approved] == Flag(true) then stamped[Ghost := Flag(false)] else stamped
    else data
  }

  /** The `validated_data` that `save` hands to the model layer. */
  function SavedData(instance: Option<Row>, data: Row, actor: User, now: int,
                     hasApprovedHistory: bool, slugify: string -> string): Row
  {
    var prepared := Prepared(instance, data, slugify);
    var reset :=
      if NeedsReapproval(instance, prepared, actor)
      then ResetForReapproval(prepared, instance.Some? && hasApprovedHistory)
      else prepared;
    StampDecision(instance, ClearRevoked(reset), actor, now)
  }

  /** What a save persists and which notifications it triggers. */
  datatype SaveOutcome = SaveOutcome(
    club: Row,                    // the persisted club
    owner: Option<Membership>,    // the membership `create` makes for the creator
    approvalEmail: bool,          // send_approval_email
    approvalIsChange: bool,       // its `change` argument: an approved version existed
    confirmationEmail: bool,      // send_confirmation_email
    renewalEmail: bool,           // send_renewal_email (creation only)
    needsReapproval: bool)

  /** The creator of a new club becomes its owner. */
  function OwnerOf(club: Row, actor: User): Membership {
    Membership(actor.id, CodeOf(club), ROLE_OWNER)
  }

  /** The specification of a whole save: `defaults` are the model's default column values. */
  function Outcome(instance: Option<Row>, data: Row, actor: User, now: int, hasApprovedHistory: bool,
                   slugify: string -> string, defaults: Row, branding: string): SaveOutcome
  {
    var saved := SavedData(instance, data, actor, now, hasApprovedHistory, slugify);
    var club := if instance.Some? then instance.value + saved else defaults + saved[Approved := Null];
    var wasActive := instance.Some? && Truthy(Get(instance.value, Active));
    SaveOutcome(
      club,
      if instance.None? then Some(OwnerOf(club, actor)) else None,
      DecisionRendered(instance, saved),
      DecisionRendered(instance, saved) && hasApprovedHistory,
      !wasActive && Truthy(Get(club, Active)),
      instance.None? && branding != "fyh",
      NeedsReapproval(instance, Prepared(instance, data, slugify), actor))
  }

  /** The loop over the sensitive fields, in the set's (unspecified) iteration order, stopping at the first edit. */
  method EditsSensitiveField(stored: Row, data: Row) returns (edited: bool)
    ensures edited <==> SensitiveEdit(stored, data)
  {
    edited := false;
    var remaining := SENSITIVE;
    while remaining != {}
      invariant remaining <= SENSITIVE
      invariant forall f :: f in SENSITIVE - remaining ==> !Changed(stored, data, f)
      decreases remaining
    {
      var f :| f in remaining;
      if Changed(stored, data, f) {
        edited := true;
        break;
      }
      remaining := remaining - {f};
    }
  }

  /** The serializer during one save: the stored club (absent on creation) and the data to write. */
  class ClubSerializer {
    const instance: Option<Row>
    var validatedData: Row

    constructor (instance: Option<Row>, validatedData: Row)
      ensures this.instance == instance && this.validatedData == validatedData
    {
      this.instance := instance;
      this.validatedData := validatedData;
    }

    /** `ClubSerializer.create`: a new club is always pending and its creator becomes owner. */
    method Create(actor: User, defaults: Row, branding: string)
      returns (club: Row, owner: Membership, renewalEmail: bool)
      requires instance.None?
      modifies this
      ensures validatedData == old(validatedData)[Approved := Null]
      ensures club == defaults + validatedData
      ensures owner == OwnerOf(club, actor)
      ensures renewalEmail <==> branding != "fyh"
    {
      validatedData := validatedData[Approved := Null];
      club := defaults + validatedData;
      owner := Membership(actor.id, CodeOf(club), ROLE_OWNER);
      renewalEmail := branding != "fyh";
    }

    /** `ClubSerializer.save`, first part: the name is stripped and the code settled. */
    method PrepareData(slugify: string -> string)
      modifies this
      ensures validatedData == Prepared(instance, old(validatedData), slugify)
    {
      var data := validatedData;
      if Name in data && data[Name].Str? {
        data := data[Name := Str(Strip(data[Name].s))];
      }
      if instance.None? {
        if !Truthy(Get(data, Code)) && Truthy(Get(data, Name)) && data[Name].Str? {
          data := data[Code := Str(slugify(data[Name].s))];
        }
      } else if Code in data {
        data := data - {Code};
      }
      validatedData := data;
    }

    /** `ClubSerializer.save`, second part: re-approval, revocation and the stamping of a decision. */
    method ApplyApprovalRules(actor: User, now: int, hasApprovedVersion: bool)
      returns (needsReapproval: bool, approvalEmail: bool)
      modifies this
      ensures needsReapproval == NeedsReapproval(instance, old(validatedData), actor)
      ensures approvalEmail == DecisionRendered(instance, validatedData)
      ensures validatedData == StampDecision(instance, ClearRevoked(
                if needsReapproval then ResetForReapproval(old(validatedData), hasApprovedVersion)
                else old(validatedData)), actor, now)
    {
      var data := validatedData;
      approvalEmail := false;

      // if key fields were edited, require re-approval
      needsReapproval := false;
      if instance.Some? {
        needsReapproval := EditsSensitiveField(instance.value, data);
      }
      // an editor who may approve clubs skips the approval process
      if HasPerm(actor, APPROVE_CLUB) {
        needsReapproval := false;
      }

      if needsReapproval {
        data := data[Approved := Null];
        data := data[ApprovedBy := Null];
        data := data[ApprovedOn := Null];
        data := data[Ghost := Flag(hasApprovedVersion)];
      }
      ghost var reset := data;

      // an explicit revocation also resets the other approval fields
      if Approved in data && data[Approved] == Null {
        data := data[Approved := Null];
        data := data[ApprovedBy := Null];
        data := data[ApprovedOn := Null];
      }
      assert data == ClearRevoked(reset);
      ghost var cleared := data;

      var newApprovalStatus := Get(data, Approved);
      if instance.Some? && Get(instance.value, Approved) == Null && newApprovalStatus != Null {
        data := data[ApprovedBy := UserRef(actor.id)];
        data := data[ApprovedOn := Stamp(now)];
        approvalEmail := true;
        if newApprovalStatus == Flag(true) {
          data := data[Ghost := Flag(false)];
        }
      }
      assert data == StampDecision(instance, cleared, actor, now);
      validatedData := data;
    }

    /** `ClubSerializer.save`. */
    method Save(actor: User, now: int, hasApprovedHistory: bool, slugify: string -> string,
                defaults: Row, branding: string)
      returns (outcome: SaveOutcome)
      modifies this
      ensures outcome == Outcome(instance, old(validatedData), actor, now, hasApprovedHistory, slugify, defaults, branding)
      ensures instance.Some? ==>
        validatedData == SavedData(instance, old(validatedData), actor, now, hasApprovedHistory, slugify)
      ensures instance.None? ==>
        validatedData == SavedData(instance, old(validatedData), actor, now, hasApprovedHistory, slugify)[Approved := Null]
    {
      PrepareData(slugify);
      var hasApprovedVersion := instance.Some? && hasApprovedHistory;
      var wasActive := instance.Some? && Truthy(Get(instance.value, Active));
      var needsReapproval, approvalEmail := ApplyApprovalRules(actor, now, hasApprovedVersion);

      var club: Row;
      var owner: Option<Membership> := None;
      var renewalEmail := false;
      if instance.Some? {
        club := instance.value + validatedData;
      } else {
        var creator;
        club, creator, renewalEmail := Create(actor, defaults, branding);
        owner := Some(creator);
      }

      outcome := SaveOutcome(
        club, owner, approvalEmail, approvalEmail && hasApprovedVersion,
        !wasActive && Truthy(Get(club, Active)), renewalEmail, needsReapproval);
    }
  }

  // ---------------------------------------------------------------------------
  // What a save promises
  // ---------------------------------------------------------------------------

  /**
   * An edit of name, image or description by an actor without `clubs.approve_club`
   * sends the club back to pending, clears approver and approval time, marks it a
   * ghost iff an approved version exists, and stamps nothing.
   */
  lemma SensitiveEditResetsApproval(stored: Row, data: Row, actor: User, now: int, hasApprovedHistory: bool,
                                    slugify: string -> string, defaults: Row, branding: string)
    requires !HasPerm(actor, APPROVE_CLUB)
    requires SensitiveEdit(stored, Prepared(Some(stored), data, slugify))
    ensures var o := Outcome(Some(stored), data, actor, now, hasApprovedHistory, slugify, defaults, branding);
      && o.needsReapproval && !o.approvalEmail
      && Get(o.club, Approved) == Null && Get(o.club, ApprovedBy) == Null && Get(o.club, ApprovedOn) == Null
      && Get(o.club, Ghost) == Flag(hasApprovedHistory)
  {
    var prepared := Prepared(Some(stored), data, slugify);
    var reset := ResetForReapproval(prepared, hasApprovedHistory);
    assert ClearRevoked(reset) == reset;
    assert !DecisionRendered(Some(stored), reset);
  }

  /** An actor holding `clubs.approve_club` never triggers re-approval, and the `approved` value sent is kept. */
  lemma ApproverBypassesReapproval(instance: Option<Row>, data: Row, actor: User, now: int, hasApprovedHistory: bool,
                                   slugify: string -> string, defaults: Row, branding: string)
    requires HasPerm(actor, APPROVE_CLUB)
    ensures !Outcome(instance, data, actor, now, hasApprovedHistory, slugify, defaults, branding).needsReapproval
    ensures Get(SavedData(instance, data, actor, now, hasApprovedHistory, slugify), Approved) == Get(data, Approved)
  {
    var prepared := Prepared(instance, data, slugify);
    PreparedKeepsOtherFields(instance, data, slugify, Approved);
    assert !NeedsReapproval(instance, prepared, actor);
    var reset :=
      if NeedsReapproval(instance, prepared, actor)
      then ResetForReapproval(prepared, instance.Some? && hasApprovedHistory)
      else prepared;
    assert reset == prepared;
    var cleared := ClearRevoked(prepared);
    assert Get(cleared, Approved) == Get(prepared, Approved);
    var saved := StampDecision(instance, cleared, actor, now);
    assert Get(saved, Approved) == Get(cleared, Approved);
    assert SavedData(instance, data, actor, now, hasApprovedHistory, slugify) == saved;
  }

  /** Preparing the data touches only `name` and `code`. */
  lemma PreparedKeepsOtherFields(instance: Option<Row>, data: Row, slugify: string -> string, f: Field)
    requires f != Name && f != Code
    ensures Get(Prepared(instance, data, slugify), f) == Get(data, f)
  {
    var stripped := StripName(data);
    assert Get(stripped, f) == Get(data, f);
  }

  /** Whenever the saved data carries approved = None, approver and approval time are None too. */
  lemma PendingDataHasNoApprover(instance: Option<Row>, data: Row, actor: User, now: int, hasApprovedHistory: bool,
                                 slugify: string -> string)
    ensures var saved := SavedData(instance, data, actor, now, hasApprovedHistory, slugify);
      Approved in saved && saved[Approved] == Null ==>
        Get(saved, ApprovedBy) == Null && Get(saved, ApprovedOn) == Null
  {
    var prepared := Prepared(instance, data, slugify);
    var reset :=
      if NeedsReapproval(instance, prepared, actor)
      then ResetForReapproval(prepared, instance.Some? && hasApprovedHistory)
      else prepared;
    assert SavedData(instance, data, actor, now, hasApprovedHistory, slugify)
        == StampDecision(instance, ClearRevoked(reset), actor, now);
    PendingAfterClearAndStamp(instance, reset, actor, now);
  }

  /** Steps 6 and 7 leave no approver or time beside approved = None. */
  lemma PendingAfterClearAndStamp(instance: Option<Row>, reset: Row, actor: User, now: int)
    ensures var saved := StampDecision(instance, ClearRevoked(reset), actor, now);
      Approved in saved && saved[Approved] == Null ==>
        Get(saved, ApprovedBy) == Null && Get(saved, ApprovedOn) == Null
  {
    var cleared := ClearRevoked(reset);
    var saved := StampDecision(instance, cleared, actor, now);
    if Approved in cleared && cleared[Approved] == Null {
      assert Get(cleared, ApprovedBy) == Null && Get(cleared, ApprovedOn) == Null;
      assert !DecisionRendered(instance, cleared);
      assert saved == cleared;
    } else {
      assert (Approved in saved <==> Approved in cleared) && Get(saved, Approved) == Get(cleared, Approved);
    }
  }

  /**
   * Stamping happens exactly when a pending club is submitted with a non-null decision
   * and the same save does not send it back to review; it records the actor and the
   * time, flags the approval email, and an approval clears `ghost`.
   */
  lemma DecisionStampedExactlyWhenRendered(instance: Option<Row>, data: Row, actor: User, now: int,
                                           hasApprovedHistory: bool, slugify: string -> string,
                                           defaults: Row, branding: string)
    ensures var o := Outcome(instance, data, actor, now, hasApprovedHistory, slugify, defaults, branding);
      var saved := SavedData(instance, data, actor, now, hasApprovedHistory, slugify);
      && (o.approvalEmail <==>
            instance.Some? && Get(instance.value, Approved) == Null && Get(data, Approved) != Null && !o.needsReapproval)
      && (o.approvalEmail ==> Get(saved, ApprovedBy) == UserRef(actor.id) && Get(saved, ApprovedOn) == Stamp(now))
      && (o.approvalEmail && Get(saved, Approved) == Flag(true) ==> Get(saved, Ghost) == Flag(false))
  {
    PreparedKeepsOtherFields(instance, data, slugify, Approved);
    var prepared := Prepared(instance, data, slugify);
    var reset :=
      if NeedsReapproval(instance, prepared, actor)
      then ResetForReapproval(prepared, instance.Some? && hasApprovedHistory)
      else prepared;
    var cleared := ClearRevoked(reset);
    assert Get(cleared, Approved) == Get(reset, Approved);
    var saved := StampDecision(instance, cleared, actor, now);
    assert Get(saved, Approved) == Get(cleared, Approved);
    assert SavedData(instance, data, actor, now, hasApprovedHistory, slugify) == saved;
  }

  /** A club that is already approved or rejected is never re-stamped: approver and time are kept or cleared. */
  lemma DecidedClubNeverRestamped(stored: Row, data: Row, actor: User, now: int, hasApprovedHistory: bool,
                                  slugify: string -> string, defaults: Row, branding: string)
    requires Get(stored, Approved) != Null
    ensures var o := Outcome(Some(stored), data, actor, now, hasApprovedHistory, slugify, defaults, branding);
      var saved := SavedData(Some(stored), data, actor, now, hasApprovedHistory, slugify);
      && !o.approvalEmail
      && (Get(saved, ApprovedBy) == Null || Get(saved, ApprovedBy) == Get(data, ApprovedBy))
      && (Get(saved, ApprovedOn) == Null || Get(saved, ApprovedOn) == Get(data, ApprovedOn))
  {
  }

  /** Creating a club always stores it pending and makes the creator its owner; nothing is stamped. */
  lemma CreatedClubIsPending(data: Row, actor: User, now: int, hasApprovedHistory: bool,
                             slugify: string -> string, defaults: Row, branding: string)
    ensures var o := Outcome(None, data, actor, now, hasApprovedHistory, slugify, defaults, branding);
      && Get(o.club, Approved) == Null
      && o.owner == Some(Membership(actor.id, CodeOf(o.club), ROLE_OWNER))
      && !o.approvalEmail && !o.needsReapproval
      && (o.renewalEmail <==> branding != "fyh")
  {
  }

  /** An edit that only touches `active` leaves the approval fields alone; the confirmation email fires on activation. */
  lemma ActiveOnlyEditKeepsApproval(stored: Row, data: Row, actor: User, now: int, hasApprovedHistory: bool,
                                    slugify: string -> string, defaults: Row, branding: string)
    requires data.Keys <= {Active}
    ensures var o := Outcome(Some(stored), data, actor, now, hasApprovedHistory, slugify, defaults, branding);
      && !o.needsReapproval && !o.approvalEmail
      && Get(o.club, Approved) == Get(stored, Approved)
      && Get(o.club, ApprovedBy) == Get(stored, ApprovedBy)
      && Get(o.club, ApprovedOn) == Get(stored, ApprovedOn)
      && (o.confirmationEmail <==> !Truthy(Get(stored, Active)) && Truthy(Get(data, Active)))
  {
    var prepared := Prepared(Some(stored), data, slugify);
    assert prepared == data;
    assert !SensitiveEdit(stored, prepared);
  }

  /**
   * Approving twice: the first approval of a pending club stamps it; saving the same
   * approval again (by anyone, at any time) keeps the first approver and time.
   */
  lemma ApprovingTwiceStampsOnce(stored: Row, actor: User, actor2: User, now: int, now2: int, hasApprovedHistory: bool,
                                 slugify: string -> string, defaults: Row, branding: string)
    requires Get(stored, Approved) == Null
    ensures var data := map[Approved := Flag(true)];
      var o1 := Outcome(Some(stored), data, actor, now, hasApprovedHistory, slugify, defaults, branding);
      var o2 := Outcome(Some(o1.club), data, actor2, now2, true, slugify, defaults, branding);
      && o1.approvalEmail && !o2.approvalEmail
      && Get(o1.club, ApprovedBy) == UserRef(actor.id) && Get(o1.club, ApprovedOn) == Stamp(now)
      && Get(o2.club, ApprovedBy) == UserRef(actor.id) && Get(o2.club, ApprovedOn) == Stamp(now)
  {
    var data := map[Approved := Flag(true)];
    var p1 := Prepared(Some(stored), data, slugify);
    assert p1 == data;
    assert !SensitiveEdit(stored, p1);
    var o1 := Outcome(Some(stored), data, actor, now, hasApprovedHistory, slugify, defaults, branding);
    assert Get(o1.club, Approved) == Flag(true);
    var p2 := Prepared(Some(o1.club), data, slugify);
    assert p2 == data;
    assert !SensitiveEdit(o1.club, p2);
  }
}
