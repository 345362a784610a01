/**
 * The membership serializer's role and field rules (backend/clubs/serializers.py,
 * `MembershipSerializer.validate_role` and `validate`), and the owner invariant
 * they maintain together with `MemberPermission`.
 *
 * `members` is the list of rows `Membership.objects.filter(club__code=club_code)`:
 * all rows of the club named in the URL.
 */
module MembershipRules {
  import opened Wrappers
  import opened Roles
  import Permissions

  datatype RoleError = NotAMember | AboveOwnLevel | LastOwner

  /** `Membership.objects.filter(club__code=club_code, role__lte=ROLE_OWNER).count()` */
  function OwnerCount(members: seq<Membership>): (n: nat)
    ensures n <= |members|
    ensures n == 0 <==> forall m :: m in members ==> m.role > ROLE_OWNER
  {
    if members == [] then 0
    else (if members[0].role <= ROLE_OWNER then 1 else 0) + OwnerCount(members[1..])
  }

  /** No person holds two rows of the club (the serializer's unique-together validator). */
  predicate UniquePersons(members: seq<Membership>) {
    forall i, j :: 0 <= i < j < |members| ==> members[i].person != members[j].person
  }

  /**
   * `validate_role(value)` when `targetPerson` is the person whose membership is
   * created or edited. A superuser may set any role.
   */
  function ValidateRole(user: User, members: seq<Membership>, targetPerson: nat, value: int): Result<int, RoleError> {
    var membership := MembershipOf(members, user.id);
    if user.superuser then Ok(value)
    else if membership.None? then Err(NotAMember)
    else if membership.value.role > value then Err(AboveOwnLevel)
    else if value > ROLE_OWNER && user.id == targetPerson && membership.value.role <= ROLE_OWNER
            && OwnerCount(members) <= 1 then Err(LastOwner)
    else Ok(value)
  }

  /** A non-superuser never grants a role with more authority than their own, and must belong to the club. */
  lemma NeverPromotesAboveCaller(user: User, members: seq<Membership>, targetPerson: nat, value: int)
    requires !user.superuser
    ensures ValidateRole(user, members, targetPerson, value).Ok? <==>
      var m := MembershipOf(members, user.id);
      m.Some? && m.value.role <= value &&
      !(value > ROLE_OWNER && user.id == targetPerson && m.value.role <= ROLE_OWNER && OwnerCount(members) <= 1)
    ensures ValidateRole(user, members, targetPerson, value).Ok? ==>
      exists m :: m in members && m.person == user.id && m.role <= value
  {
    var m := MembershipOf(members, user.id);
    if ValidateRole(user, members, targetPerson, value).Ok? {
      assert m.value in members;
    }
  }

  /** The club's rows after the membership of `person` is saved with role `value`. */
  function SetRole(members: seq<Membership>, person: nat, value: int): (r: seq<Membership>)
    ensures |r| == |members|
    ensures forall i :: 0 <= i < |r| ==>
      r[i] == if members[i].person == person then members[i].(role := value) else members[i]
  {
    if members == [] then []
    else [if members[0].person == person then members[0].(role := value) else members[0]]
         + SetRole(members[1..], person, value)
  }

  lemma {:induction false} OtherOwnerSurvives(members: seq<Membership>, person: nat, value: int, owner: Membership)
    requires owner in members && owner.role <= ROLE_OWNER && owner.person != person
    ensures OwnerCount(SetRole(members, person, value)) >= 1
    decreases |members|
  {
    if members[0] != owner {
      OtherOwnerSurvives(members[1..], person, value, owner);
    }
  }

  lemma {:induction false} PromotedOwnerCounts(members: seq<Membership>, person: nat, value: int, row: Membership)
    requires row in members && row.person == person && value <= ROLE_OWNER
    ensures OwnerCount(SetRole(members, person, value)) >= 1
    decreases |members|
  {
    if members[0].person != person {
      PromotedOwnerCounts(members[1..], person, value, row);
    }
  }

  /** With unique persons, two owners means an owner other than any given person. */
  lemma {:induction false} SecondOwner(members: seq<Membership>, person: nat) returns (other: Membership)
    requires UniquePersons(members) && OwnerCount(members) >= 2
    ensures other in members && other.role <= ROLE_OWNER && other.person != person
    decreases |members|
  {
    var rest := members[1..];
    assert UniquePersons(rest) by {
      forall i, j | 0 <= i < j < |rest| ensures rest[i].person != rest[j].person {
        assert rest[i] == members[i + 1] && rest[j] == members[j + 1];
      }
    }
    if members[0].role <= ROLE_OWNER && members[0].person != person {
      other := members[0];
    } else if members[0].role <= ROLE_OWNER {
      assert OwnerCount(rest) >= 1;
      var k :| 0 <= k < |rest| && rest[k].role <= ROLE_OWNER;
      assert rest[k] == members[k + 1];
      other := rest[k];
    } else {
      other := SecondOwner(rest, person);
    }
  }

  /**
   * A role change keeps an owner: when a non-superuser who passes
   * `MemberPermission` for updating a membership of this club sets a role that
   * `validate_role` accepts, at least one owner remains. The caller's membership
   * checked by the permission is their row in this club.
   */
  lemma OwnerKeptAfterRoleChange(user: User, code: string, members: seq<Membership>, targetPerson: nat, value: int)
    requires forall m :: m in members ==> m.club == code
    requires UniquePersons(members) && OwnerCount(members) >= 1
    requires !user.superuser
    requires MembershipOf(members, targetPerson).Some?
    requires Permissions.MemberHasObjectPermission(Permissions.Update, MembershipOf(members, user.id),
                                                   MembershipOf(members, targetPerson).value)
    requires ValidateRole(user, members, targetPerson, value).Ok?
    ensures OwnerCount(SetRole(members, targetPerson, value)) >= 1
  {
    var target := MembershipOf(members, targetPerson).value;
    var caller := MembershipOf(members, user.id).value;
    if value <= ROLE_OWNER {
      PromotedOwnerCounts(members, targetPerson, value, target);
    } else if SameRow(target, caller) {
      assert user.id == targetPerson;
      if caller.role <= ROLE_OWNER {
        var other := SecondOwner(members, targetPerson);
        OtherOwnerSurvives(members, targetPerson, value, other);
      } else {
        var k :| 0 <= k < |members| && members[k].role <= ROLE_OWNER;
        OwnerIsNotTarget(members, targetPerson, target, members[k]);
        OtherOwnerSurvives(members, targetPerson, value, members[k]);
      }
    } else {
      assert caller.person != targetPerson;
      if target.role <= ROLE_OWNER {
        OtherOwnerSurvives(members, targetPerson, value, caller);
      } else {
        var k :| 0 <= k < |members| && members[k].role <= ROLE_OWNER;
        OwnerIsNotTarget(members, targetPerson, target, members[k]);
        OtherOwnerSurvives(members, targetPerson, value, members[k]);
      }
    }
  }

  /**
   * A superuser skips `validate_role`, and `MemberPermission` lets anyone update their
   * own row: a superuser who is the club's only owner may demote themself, and the
   * club is left without an owner.
   */
  lemma SuperuserMayLeaveNoOwner()
    ensures var user := User(1, true, true, {});
      var members := [Membership(1, "c", ROLE_OWNER), Membership(2, "c", ROLE_MEMBER)];
      && UniquePersons(members) && OwnerCount(members) == 1
      && Permissions.MemberHasObjectPermission(Permissions.Update, MembershipOf(members, user.id),
                                               MembershipOf(members, 1).value)
      && ValidateRole(user, members, 1, ROLE_MEMBER).Ok?
      && OwnerCount(SetRole(members, 1, ROLE_MEMBER)) == 0
  {
    var members := [Membership(1, "c", ROLE_OWNER), Membership(2, "c", ROLE_MEMBER)];
    var after := SetRole(members, 1, ROLE_MEMBER);
    assert after == [Membership(1, "c", ROLE_MEMBER), Membership(2, "c", ROLE_MEMBER)];
    assert OwnerCount(after[1..]) == 0;
  }

  /** The club's rows after the membership of `person` is deleted. */
  function RemovePerson(members: seq<Membership>, person: nat): (r: seq<Membership>)
    ensures forall m :: m in r <==> m in members && m.person != person
  {
    if members == [] then []
    else (if members[0].person == person then [] else [members[0]]) + RemovePerson(members[1..], person)
  }

  /**
   * Deleting a membership that `MemberPermission` allows never leaves the club
   * without an owner: an owner may not delete their own row, and deleting another
   * owner's row needs an owner-level caller, who stays.
   */
  lemma OwnerKeptAfterDestroy(user: User, code: string, members: seq<Membership>, targetPerson: nat)
    requires forall m :: m in members ==> m.club == code
    requires UniquePersons(members) && OwnerCount(members) >= 1
    requires MembershipOf(members, targetPerson).Some?
    requires Permissions.MemberHasObjectPermission(Permissions.Destroy, MembershipOf(members, user.id),
                                                   MembershipOf(members, targetPerson).value)
    ensures OwnerCount(RemovePerson(members, targetPerson)) >= 1
  {
    var target := MembershipOf(members, targetPerson).value;
    var caller := MembershipOf(members, user.id).value;
    var rest := RemovePerson(members, targetPerson);
    var k :| 0 <= k < |members| && members[k].role <= ROLE_OWNER;
    if SameRow(target, caller) {
      assert caller.role > ROLE_OWNER;
      OwnerIsNotTarget(members, targetPerson, target, members[k]);
      assert members[k] in rest;
    } else if target.role <= ROLE_OWNER {
      assert caller.person != targetPerson && caller.role <= ROLE_OWNER;
      assert caller in rest;
    } else {
      OwnerIsNotTarget(members, targetPerson, target, members[k]);
      assert members[k] in rest;
    }
  }

  /** With unique persons, a row of the target person is the target's row. */
  lemma OwnerIsNotTarget(members: seq<Membership>, person: nat, target: Membership, owner: Membership)
    requires UniquePersons(members)
    requires target in members && target.person == person && target.role > ROLE_OWNER
    requires owner in members && owner.role <= ROLE_OWNER
    ensures owner.person != person
  {
    var i :| 0 <= i < |members| && members[i] == target;
    var j :| 0 <= j < |members| && members[j] == owner;
    assert i != j;
  }

  /** Whether `validate` restricts the caller to the "active" field. */
  predicate RestrictedEditor(user: User, membership: Option<Membership>) {
    !user.superuser && (membership.None? || membership.value.role > ROLE_OFFICER)
  }

  /**
   * `validate(data)` with the submitted field names in order: a restricted
   * editor's submission is refused with the first field other than "active".
   */
  method ValidateFields(user: User, membership: Option<Membership>, fields: seq<string>) returns (refused: Option<string>)
    ensures refused.None? <==> !RestrictedEditor(user, membership) || forall f :: f in fields ==> f == "active"
    ensures refused.Some? ==> refused.value != "active"
    ensures refused.Some? ==>
      exists i :: 0 <= i < |fields| && fields[i] == refused.value && (forall j :: 0 <= j < i ==> fields[j] == "active")
  {
    refused := None;
    if RestrictedEditor(user, membership) {
      var i := 0;
      while i < |fields|
        invariant 0 <= i <= |fields|
        invariant forall j :: 0 <= j < i ==> fields[j] == "active"
      {
        if fields[i] != "active" {
          refused := Some(fields[i]);
          assert fields[i] in fields;
          return;
        }
        i := i + 1;
      }
    }
  }
}
