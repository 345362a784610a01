/**
 * backend/clubs/permissions.py: the helpers that find a caller's membership in a
 * club's family tree, and every permission class's decision.
 *
 * Each decision takes what the class reads from the request: the view action, the
 * user, whether the URL carries a `club_code`, and the membership that
 * `find_membership_helper` finds for the user (the ORM query is replaced by
 * `FindMembership` over an explicit membership table).
 */
module Permissions {
  import opened Wrappers
  import opened Roles

  // ---------------------------------------------------------------------------
  // codes_extract_helper
  // ---------------------------------------------------------------------------

  /** A value that is neither a dict nor a list. */
  datatype Atom = AStr(s: string) | ANum(n: int) | ABool(b: bool) | ANone

  /** Nested Python data: a dict (entries in insertion order), a list, or an atom. */
  datatype Json = DictNode(entries: seq<Entry>) | ListNode(items: seq<Json>) | Leaf(atom: Atom)
  datatype Entry = Entry(key: string, value: Json)

  predicate IsContainer(j: Json) {
    j.DictNode? || j.ListNode?
  }

  /** The values `extract` appends for `obj`, in traversal order. */
  function Extracted(obj: Json, key: string): seq<Atom> {
    match obj
    case DictNode(es) => ExtractedEntries(es, key)
    case ListNode(items) => ExtractedItems(items, key)
    case Leaf(_) => []
  }

  function ExtractedEntries(es: seq<Entry>, key: string): seq<Atom> {
    if es == [] then [] else ExtractedEntries(es[..|es| - 1], key) + EntryValues(es[|es| - 1], key)
  }

  /** One dict entry: nested containers are searched, a matching key contributes its atom. */
  function EntryValues(e: Entry, key: string): seq<Atom> {
    if IsContainer(e.value) then Extracted(e.value, key)
    else if e.key == key then [e.value.atom]
    else []
  }

  function ExtractedItems(items: seq<Json>, key: string): seq<Atom> {
    if items == [] then [] else ExtractedItems(items[..|items| - 1], key) + Extracted(items[|items| - 1], key)
  }

  /** The inner `extract(obj, arr, key)`: appends to the shared list `arr` and returns it. */
  method Extract(obj: Json, arr: seq<Atom>, key: string) returns (out: seq<Atom>)
    ensures out == arr + Extracted(obj, key)
    decreases obj
  {
    out := arr;
    match obj {
      case DictNode(es) =>
        for i := 0 to |es|
          invariant out == arr + ExtractedEntries(es[..i], key)
        {
          var e := es[i];
          assert e in es;
          if IsContainer(e.value) {
            out := Extract(e.value, out, key);
          } else if e.key == key {
            out := out + [e.value.atom];
          }
          assert es[..i + 1][..i] == es[..i];
        }
        assert es[..|es|] == es;
      case ListNode(items) =>
        for i := 0 to |items|
          invariant out == arr + ExtractedItems(items[..i], key)
        {
          var item := items[i];
          assert item in items;
          out := Extract(item, out, key);
          assert items[..i + 1][..i] == items[..i];
        }
        assert items[..|items|] == items;
      case Leaf(_) =>
    }
  }

  /** `codes_extract_helper(obj, key)` */
  method CodesExtractHelper(obj: Json, key: string) returns (values: seq<Atom>)
    ensures values == Extracted(obj, key)
  {
    values := Extract(obj, [], key);
  }

  /** Traversal order: the values found in a list are those of its first part, then those of the rest. */
  lemma {:induction false} ExtractedItemsAppend(a: seq<Json>, b: seq<Json>, key: string)
    ensures ExtractedItems(a + b, key) == ExtractedItems(a, key) + ExtractedItems(b, key)
    decreases |b|
  {
    if b == [] {
      assert a + b == a;
    } else {
      var b' := b[..|b| - 1];
      assert (a + b)[..|a + b| - 1] == a + b';
      ExtractedItemsAppend(a, b', key);
    }
  }

  /** Bare atoms inside a list contribute nothing. */
  lemma {:induction false} AtomsInListIgnored(items: seq<Json>, key: string)
    requires forall j :: j in items ==> j.Leaf?
    ensures Extracted(ListNode(items), key) == []
    decreases |items|
  {
    if items != [] {
      var init := items[..|items| - 1];
      assert forall j :: j in init ==> j in items;
      AtomsInListIgnored(init, key);
      assert items[|items| - 1] in items;
      assert Extracted(items[|items| - 1], key) == [];
      assert ExtractedItems(init, key) == Extracted(ListNode(init), key);
    }
  }

  /** In a dict without nested containers, exactly the atoms stored under `key` are returned. */
  lemma {:induction false} FlatDictExtraction(es: seq<Entry>, key: string, a: Atom)
    requires forall e :: e in es ==> !IsContainer(e.value)
    ensures a in Extracted(DictNode(es), key) <==> exists e :: e in es && e.key == key && e.value == Leaf(a)
    decreases |es|
  {
    if es != [] {
      var init := es[..|es| - 1];
      var last := es[|es| - 1];
      assert forall e :: e in init ==> e in es;
      FlatDictExtraction(init, key, a);
      assert es == init + [last];
      if a in EntryValues(last, key) {
        assert last in es && last.key == key && last.value == Leaf(a);
      }
      if exists e :: e in es && e.key == key && e.value == Leaf(a) {
        var e :| e in es && e.key == key && e.value == Leaf(a);
        if e != last {
          assert e in init;
        }
      }
    }
  }

  // ---------------------------------------------------------------------------
  // find_membership_helper
  // ---------------------------------------------------------------------------

  /** The club codes among the values stored under "code" anywhere in a family tree. */
  function RelatedCodes(family: Json): set<string> {
    set a | a in Extracted(family, "code") && a.AStr? :: a.s
  }

  /** `Membership.objects.filter(person=user, club__code__in=related_codes)` */
  predicate Related(m: Membership, person: nat, codes: set<string>) {
    m.person == person && m.club in codes
  }

  /**
   * `...order_by("role").first()`: among the user's memberships in the related clubs,
   * one with the smallest role (most authority); the first such row in table order.
   */
  function FindMembership(memberships: seq<Membership>, person: nat, codes: set<string>): (r: Option<Membership>)
    ensures r.None? <==> forall m :: m in memberships ==> !Related(m, person, codes)
    ensures r.Some? ==> r.value in memberships && Related(r.value, person, codes)
    ensures r.Some? ==> forall m :: m in memberships && Related(m, person, codes) ==> r.value.role <= m.role
  {
    if memberships == [] then None
    else
      var rest := FindMembership(memberships[1..], person, codes);
      var head := memberships[0];
      if Related(head, person, codes) && (rest.None? || head.role <= rest.value.role) then Some(head)
      else rest
  }

  /** `find_membership_helper(user, obj)` with the family tree that `find_relationship_helper` returns. */
  function FindMembershipHelper(memberships: seq<Membership>, person: nat, family: Json): Option<Membership> {
    FindMembership(memberships, person, RelatedCodes(family))
  }

  // ---------------------------------------------------------------------------
  // The permission classes
  // ---------------------------------------------------------------------------

  /** The view actions the permission classes name; any other action is `OtherAction`. */
  datatype Action =
    | Retrieve | Children | List | Create | Update | PartialUpdate | Destroy
    | Upload | UploadFile | OtherAction(actionName: string)

  const WRITE_ACTIONS: set<Action> := {Create, Update, PartialUpdate, Destroy}
  const EDIT_ACTIONS: set<Action> := {Update, PartialUpdate, Destroy}

  /** `membership is not None and membership.role <= Membership.ROLE_OFFICER` */
  predicate IsOfficer(membership: Option<Membership>) {
    membership.Some? && IsAtLeast(membership.value.role, ROLE_OFFICER)
  }

  /** The officer gate: a club code in the URL, an authenticated user, an officer-level membership. */
  predicate OfficerGate(user: User, hasClubCode: bool, membership: Option<Membership>) {
    hasClubCode && user.authenticated && IsOfficer(membership)
  }

  /** `ReadOnly.has_permission` */
  predicate ReadOnlyHasPermission(httpMethod: string) {
    httpMethod in {"GET", "HEAD", "OPTIONS"}
  }

  /** `ClubPermission.has_object_permission` */
  predicate ClubHasObjectPermission(action: Action, user: User, membership: Option<Membership>) {
    if action in {Retrieve, Children} then true
    else if !user.authenticated then false
    else if HasPerm(user, DELETE_CLUB) && action == Destroy then true
    else if action in {Update, PartialUpdate} && HasPerm(user, APPROVE_CLUB) then true
    else if membership.None? then false
    else if action == Destroy then IsAtLeast(membership.value.role, ROLE_OWNER)
    else IsAtLeast(membership.value.role, ROLE_OFFICER)
  }

  /** `ClubPermission.has_permission` */
  predicate ClubHasPermission(action: Action, user: User) {
    if action in {Children, Destroy, PartialUpdate, Update, Upload, UploadFile} then user.authenticated
    else if action == Create then user.authenticated
    else true
  }

  /** `EventPermission.has_permission` and `ClubItemPermission.has_permission` (the same rule) */
  predicate ClubItemHasPermission(action: Action, user: User, hasClubCode: bool, membership: Option<Membership>) {
    if action in WRITE_ACTIONS then OfficerGate(user, hasClubCode, membership) else true
  }

  /** The `type` entry of a request body: left out, sent as null, or sent with a value. */
  datatype TypeEntry = TypeAbsent | TypeNull | TypeGiven(t: int)

  /**
   * `EventPermission.has_object_permission`: no update may change an event's type into
   * or out of FAIR. `request.data.get("type", old_type)` is None for an explicit null.
   */
  predicate EventHasObjectPermission(action: Action, fairType: int, oldType: int, requestedType: TypeEntry) {
    var newType: Option<int> :=
      match requestedType
      case TypeAbsent => Some(oldType)
      case TypeNull => None
      case TypeGiven(t) => Some(t);
    if action in {Update, PartialUpdate} then
      if oldType == fairType && newType != Some(fairType) then false
      else if oldType != fairType && newType == Some(fairType) then false
      else true
    else true
  }

  /** `IsSuperuser.has_permission` and `has_object_permission` */
  predicate IsSuperuserPermission(user: User) {
    user.authenticated && user.superuser
  }

  /** `DjangoPermission(perm)`'s `has_permission` */
  predicate DjangoHasPermission(perm: string, user: User) {
    user.authenticated && HasPerm(user, perm)
  }

  /** `MemberPermission.has_object_permission`: `obj` is the membership acted on. */
  predicate MemberHasObjectPermission(action: Action, membership: Option<Membership>, obj: Membership) {
    if membership.None? then false
    else
      var m := membership.value;
      if action == Retrieve then IsAtLeast(m.role, ROLE_MEMBER)
      else if SameRow(obj, m) && action in EDIT_ACTIONS then
        !(action == Destroy && IsAtLeast(m.role, ROLE_OWNER))
      else if m.role >= ROLE_MEMBER then false
      else IsAtLeast(m.role, obj.role)
  }

  /** `MemberPermission.has_permission` */
  predicate MemberHasPermission(action: Action, user: User, hasClubCode: bool, membership: Option<Membership>) {
    if action in EDIT_ACTIONS then user.authenticated
    else if action == Create then user.authenticated && hasClubCode && IsOfficer(membership)
    else true
  }

  /** `MembershipRequestPermission.has_permission` */
  predicate MembershipRequestHasPermission(user: User, hasClubCode: bool, membership: Option<Membership>) {
    user.authenticated && hasClubCode && IsOfficer(membership)
  }

  /** `InvitePermission.has_permission`: anyone authenticated may redeem, officers manage. */
  predicate InviteHasPermission(action: Action, user: User, hasClubCode: bool, membership: Option<Membership>) {
    if action in {Retrieve, Update, PartialUpdate} then user.authenticated
    else user.authenticated && hasClubCode && IsOfficer(membership)
  }

  /** `AssetPermission.has_permission` */
  predicate AssetHasPermission(action: Action, user: User, hasClubCode: bool, membership: Option<Membership>) {
    if action in {List, Retrieve} then user.authenticated
    else user.authenticated && hasClubCode && IsOfficer(membership)
  }

  /**
   * `QuestionAnswerPermission.has_object_permission`: `author` is the question's author
   * (None when unknown) and `answered` says whether its answer is not None.
   */
  predicate QuestionAnswerHasObjectPermission(action: Action, user: User, author: Option<nat>, answered: bool,
                                              membership: Option<Membership>)
  {
    if action in EDIT_ACTIONS then
      if !user.authenticated then false
      else if author == Some(user.id) && !answered then true
      else IsOfficer(membership)
    else true
  }

  /** `QuestionAnswerPermission.has_permission` */
  predicate QuestionAnswerHasPermission(action: Action, user: User) {
    if action in {List, Retrieve} then true else user.authenticated
  }

  /** `NotePermission.has_permission`: `creatingClubPermission` is the role level the note is created for. */
  predicate NoteHasPermission(action: Action, user: User, creatingClubPermission: Option<int>,
                              membership: Option<Membership>)
  {
    if action in {List, Retrieve} then user.authenticated
    else if action == Create then
      if creatingClubPermission.None? then false
      else if membership.None? || membership.value.role > creatingClubPermission.value then false
      else true
    else user.authenticated
  }

  // ---------------------------------------------------------------------------
  // What the decisions promise
  // ---------------------------------------------------------------------------

  /** A membership with the same club and person but at least as much authority. */
  predicate AtLeastAsStrong(stronger: Option<Membership>, weaker: Option<Membership>) {
    weaker.Some? ==> stronger.Some? && stronger.value.role <= weaker.value.role
  }

  /**
   * ClubPermission: viewing is always allowed; anything else needs authentication and
   * then passes exactly for `delete_club` on destroy, `approve_club` on updates, an owner
   * on destroy or an officer on any other action; more authority never loses access.
   */
  lemma ClubObjectPermissionRules(action: Action, user: User, membership: Option<Membership>, stronger: Option<Membership>)
    ensures ClubHasObjectPermission(action, user, membership) <==>
      action in {Retrieve, Children} ||
      (user.authenticated &&
        ((action == Destroy && HasPerm(user, DELETE_CLUB)) ||
         (action in {Update, PartialUpdate} && HasPerm(user, APPROVE_CLUB)) ||
         (membership.Some? && membership.value.role <= (if action == Destroy then ROLE_OWNER else ROLE_OFFICER))))
    ensures AtLeastAsStrong(stronger, membership) && ClubHasObjectPermission(action, user, membership) ==>
      ClubHasObjectPermission(action, user, stronger)
  {
  }

  /** Every officer-gated write is allowed only to an authenticated officer of the club named in the URL. */
  lemma OfficerGatedWrites(action: Action, user: User, hasClubCode: bool, membership: Option<Membership>)
    ensures action in WRITE_ACTIONS ==>
      (ClubItemHasPermission(action, user, hasClubCode, membership) <==> OfficerGate(user, hasClubCode, membership))
    ensures MembershipRequestHasPermission(user, hasClubCode, membership) <==> OfficerGate(user, hasClubCode, membership)
    ensures action == Create ==>
      (MemberHasPermission(action, user, hasClubCode, membership) <==> OfficerGate(user, hasClubCode, membership))
    ensures action !in {Retrieve, Update, PartialUpdate} ==>
      (InviteHasPermission(action, user, hasClubCode, membership) <==> OfficerGate(user, hasClubCode, membership))
    ensures action !in {List, Retrieve} ==>
      (AssetHasPermission(action, user, hasClubCode, membership) <==> OfficerGate(user, hasClubCode, membership))
  {
  }

  /**
   * MemberPermission: anyone with a membership may retrieve; a member may update their
   * own membership and delete it unless they are an owner; any other action on someone
   * else's membership passes exactly for an officer-level caller with at least that
   * membership's authority.
   */
  lemma MemberObjectPermissionRules(action: Action, m: Membership, obj: Membership)
    ensures MemberHasObjectPermission(Retrieve, Some(m), obj) <==> m.role <= ROLE_MEMBER
    ensures SameRow(obj, m) && action in {Update, PartialUpdate} ==> MemberHasObjectPermission(action, Some(m), obj)
    ensures SameRow(obj, m) && action == Destroy ==>
      (MemberHasObjectPermission(action, Some(m), obj) <==> m.role > ROLE_OWNER)
    ensures !SameRow(obj, m) && action != Retrieve ==>
      (MemberHasObjectPermission(action, Some(m), obj) <==> m.role < ROLE_MEMBER && m.role <= obj.role)
    ensures !MemberHasObjectPermission(action, None, obj)
  {
  }

  /** EventPermission: an update keeps an event inside or outside FAIR; every other action passes. */
  lemma EventTypeTransitions(action: Action, fairType: int, oldType: int, requestedType: TypeEntry)
    ensures EventHasObjectPermission(action, fairType, oldType, requestedType) <==>
      action !in {Update, PartialUpdate} ||
      (oldType == fairType <==> requestedType == TypeGiven(fairType) || (requestedType.TypeAbsent? && oldType == fairType))
    ensures action in {Update, PartialUpdate} && oldType == fairType && requestedType.TypeNull? ==>
      !EventHasObjectPermission(action, fairType, oldType, requestedType)
  {
  }

  /** NotePermission: creation needs the level, a membership, and a role at least that level's authority. */
  lemma NoteCreationRule(user: User, creatingClubPermission: Option<int>, membership: Option<Membership>)
    ensures NoteHasPermission(Create, user, creatingClubPermission, membership) <==>
      creatingClubPermission.Some? && membership.Some? && membership.value.role <= creatingClubPermission.value
  {
  }

  /** QuestionAnswerPermission: the author may edit an unanswered question; otherwise officers only. */
  lemma QuestionAnswerRules(action: Action, user: User, author: Option<nat>, answered: bool, membership: Option<Membership>)
    ensures action !in EDIT_ACTIONS ==> QuestionAnswerHasObjectPermission(action, user, author, answered, membership)
    ensures action in EDIT_ACTIONS ==>
      (QuestionAnswerHasObjectPermission(action, user, author, answered, membership) <==>
        user.authenticated && ((author == Some(user.id) && !answered) || IsOfficer(membership)))
  {
  }

  /** The membership found has the least role among the user's memberships in the whole family tree. */
  lemma FoundMembershipIsStrongest(memberships: seq<Membership>, person: nat, family: Json, m: Membership)
    requires m in memberships && m.person == person && AStr(m.club) in Extracted(family, "code")
    ensures var r := FindMembershipHelper(memberships, person, family);
      r.Some? && r.value.role <= m.role && r.value.person == person
  {
    assert m.club in RelatedCodes(family);
  }
}
