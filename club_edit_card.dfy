/**
 * The data handling of frontend/components/ClubEditPage/ClubEditCard.tsx: the
 * whitelist filter applied to a club before editing, the set of editable field
 * names, the form's initial values, and the image removal before submitting.
 *
 * A JavaScript object is a map from keys to values; its key order does not
 * affect any of these results.
 */
module ClubEditCard {
  import opened Strings

  /** The JavaScript values the card distinguishes. */
  datatype JsValue = Null | Undefined | Bool(b: bool) | Num(n: int) | Text(s: string) | Composite(id: nat)

  type JsObject = map<string, JsValue>

  /** A key passes the whitelist itself, or as `<field>_url` for a whitelisted field; a helper of `FieldAttributes`. */
  predicate IsFieldKey(key: string, validFields: set<string>) {
    key in validFields || (EndsWith(key, "_url") && key[..|key| - 4] in validFields)
  }

  /** What `removeNonFieldAttributes(object, validFields)` returns. */
  function FieldAttributes(obj: JsObject, validFields: set<string>): (r: JsObject)
    ensures r.Keys <= obj.Keys
    ensures forall k :: k in r ==> r[k] == obj[k]
    ensures forall k :: k in obj ==> (k in r <==> IsFieldKey(k, validFields))
  {
    map k | k in obj && IsFieldKey(k, validFields) :: obj[k]
  }

  /** `removeNonFieldAttributes`: a reduce that copies each whitelisted entry into an accumulator. */
  method RemoveNonFieldAttributes(obj: JsObject, validFields: set<string>) returns (acc: JsObject)
    ensures acc == FieldAttributes(obj, validFields)
  {
    acc := map[];
    var remaining := obj.Keys;
    while remaining != {}
      invariant remaining <= obj.Keys
      invariant acc == map k | k in obj.Keys - remaining && IsFieldKey(k, validFields) :: obj[k]
      decreases |remaining|
    {
      var key :| key in remaining;
      if IsFieldKey(key, validFields) {
        acc := acc[key := obj[key]];
      }
      remaining := remaining - {key};
    }
  }

  /** Filtering twice is filtering once. */
  lemma FieldAttributesIdempotent(obj: JsObject, validFields: set<string>)
    ensures FieldAttributes(FieldAttributes(obj, validFields), validFields) == FieldAttributes(obj, validFields)
  {
  }

  /** Filtering keeps an object made only of whitelisted keys as it is. */
  lemma FieldAttributesKeepsFieldObjects(obj: JsObject, validFields: set<string>)
    requires forall k :: k in obj ==> IsFieldKey(k, validFields)
    ensures FieldAttributes(obj, validFields) == obj
  {
  }

  /** A group of the edit form: a category and the names of its fields. */
  datatype FieldGroup = FieldGroup(name: string, fieldNames: seq<string>)

  /** Whether some group of the form has a field named `name`; a helper of `EditingFields`. */
  predicate InSomeGroup(groups: seq<FieldGroup>, name: string) {
    exists i, j :: 0 <= i < |groups| && 0 <= j < |groups[i].fieldNames| && groups[i].fieldNames[j] == name
  }

  /** `editingFields`: the nested `forEach` that adds every field name of every group to a set. */
  method EditingFields(groups: seq<FieldGroup>) returns (names: set<string>)
    ensures forall name :: name in names <==> InSomeGroup(groups, name)
  {
    names := {};
    for i := 0 to |groups|
      invariant forall name :: name in names <==>
        exists i', j :: 0 <= i' < i && 0 <= j < |groups[i'].fieldNames| && groups[i'].fieldNames[j] == name
    {
      var group := groups[i];
      for j := 0 to |group.fieldNames|
        invariant forall name :: name in names <==>
          (exists i', j' :: 0 <= i' < i && 0 <= j' < |groups[i'].fieldNames| && groups[i'].fieldNames[j'] == name) ||
          (exists j' :: 0 <= j' < j && group.fieldNames[j'] == name)
      {
        names := names + {group.fieldNames[j]};
      }
    }
  }

  /** `creationDefaults` */
  const CREATION_DEFAULTS: JsObject :=
    map["subtitle" := Text("Your Subtitle Here"), "email_public" := Bool(true), "accepting_members" := Bool(false)]

  /**
   * Formik's `initialValues`: the creation defaults for an empty club, otherwise the
   * whitelisted club attributes passed through `fixes` (`doFormikInitialValueFixes`).
   */
  function InitialValues(club: JsObject, editingFields: set<string>, fixes: JsObject -> JsObject): (v: JsObject)
    ensures club == map[] ==> v == CREATION_DEFAULTS
    ensures club != map[] ==> v == fixes(FieldAttributes(club, editingFields))
  {
    if |club.Keys| != 0 then fixes(FieldAttributes(club, editingFields)) else CREATION_DEFAULTS
  }

  /** The payload after `submit`'s image handling. */
  function WithoutImage(data: JsObject): (r: JsObject)
    ensures "image" in data && data["image"] == Null ==> r == data
    ensures !("image" in data && data["image"] == Null) ==> "image" !in r
    ensures forall k :: k != "image" ==> (k in r <==> k in data) && (k in r ==> r[k] == data[k])
  {
    var photo := if "image" in data then data["image"] else Undefined;
    if photo != Null then data - {"image"} else data
  }

  /** The form data object `submit` receives and mutates. */
  class SubmitData {
    var data: JsObject

    constructor (initial: JsObject)
      ensures data == initial
    {
      data := initial;
    }

    /** `const photo = data.image; if (photo !== null) delete data.image` */
    method DropImage()
      modifies this
      ensures data == WithoutImage(old(data))
    {
      var photo := if "image" in data then data["image"] else Undefined;
      if photo != Null {
        data := data - {"image"};
      }
    }
  }
}
