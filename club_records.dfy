/**
 * The Club record as the serializers see it: a row of attribute values keyed by
 * field, and the same shape for the `validated_data` dictionary a save edits.
 */
module ClubRecords {

  /** The club attributes the approval workflow reads or writes; every other attribute is `OtherField`. */
  datatype Field =
    | Name | Code | Image | Description
    | Approved | ApprovedBy | ApprovedOn | Ghost | Active
    | OtherField(attribute: string)

  /**
   * An attribute value. `approved` is tri-state: Null (pending), Flag(true)
   * (approved) or Flag(false) (rejected).
   */
  datatype Value =
    | Null
    | Str(s: string)
    | Flag(b: bool)
    | UserRef(id: nat)
    | Stamp(time: int)
    | File(fileId: nat)

  type Row = map<Field, Value>

  /** `getattr(obj, field, None)` / `dict.get(field)`: Null when the field is absent. */
  function Get(row: Row, f: Field): (v: Value)
    ensures v != Null ==> f in row && row[f] == v
  {
    if f in row then row[f] else Null
  }

  /** Python truthiness of a value. */
  predicate Truthy(v: Value) {
    match v
    case Null => false
    case Str(s) => s != ""
    case Flag(b) => b
    case _ => true
  }

  /** The club's code as a string ("" when it has none). */
  function CodeOf(row: Row): string {
    if Get(row, Code).Str? then Get(row, Code).s else ""
  }
}
