/**
 * `ClubEventSerializer.validate` and `update` (backend/clubs/serializers.py):
 * the start/end order check and the freeze on a fair event's times.
 * Times are instants as integers.
 */
module Events {
  import opened Wrappers
  import opened Roles

  /** The event row fields the checks read. */
  datatype EventRow = EventRow(eventType: int, startTime: int, endTime: int)

  /**
   * `validate(data)`: the submitted times, or the instance's when not submitted;
   * refused only when both are known and the start is after the end.
   */
  function ValidateTimes(instance: Option<EventRow>, startTime: Option<int>, endTime: Option<int>): (ok: bool)
  {
    var start := if startTime.Some? then startTime else if instance.Some? then Some(instance.value.startTime) else None;
    var end := if endTime.Some? then endTime else if instance.Some? then Some(instance.value.endTime) else None;
    !(start.Some? && end.Some? && start.value > end.value)
  }

  /** The check is exactly "the effective start is not after the effective end". */
  lemma ValidateTimesMeaning(instance: Option<EventRow>, startTime: Option<int>, endTime: Option<int>)
    ensures instance.None? ==> (ValidateTimes(instance, startTime, endTime) <==>
      startTime.None? || endTime.None? || startTime.value <= endTime.value)
    ensures instance.Some? ==> (ValidateTimes(instance, startTime, endTime) <==>
      startTime.GetOr(instance.value.startTime) <= endTime.GetOr(instance.value.endTime))
  {
  }

  const FROZEN_FAIR_FIELDS: set<string> := {"start_time", "end_time"}

  /** The value `getattr(self.instance, field, None)` gives for a frozen field. */
  function StoredTime(instance: EventRow, field: string): int
    requires field in FROZEN_FAIR_FIELDS
  {
    if field == "start_time" then instance.startTime else instance.endTime
  }

  /** Whether an update changes a frozen time. */
  predicate ChangesFrozenTime(instance: EventRow, data: map<string, int>) {
    exists f :: f in FROZEN_FAIR_FIELDS && f in data && data[f] != StoredTime(instance, f)
  }

  /**
   * `update(instance, validated_data)`'s check: without `see_fair_status`, neither
   * time of a fair event may change. `data` holds the submitted time fields.
   */
  method CheckFairUpdate(user: User, fairType: int, instance: EventRow, data: map<string, int>) returns (allowed: bool)
    ensures allowed <==> (user.authenticated && HasPerm(user, SEE_FAIR_STATUS)) || instance.eventType != fairType
                         || !ChangesFrozenTime(instance, data)
  {
    allowed := true;
    if !(user.authenticated && HasPerm(user, SEE_FAIR_STATUS)) && instance.eventType == fairType {
      var remaining := FROZEN_FAIR_FIELDS;
      while remaining != {}
        invariant remaining <= FROZEN_FAIR_FIELDS
        invariant forall f :: f in FROZEN_FAIR_FIELDS - remaining && f in data ==> data[f] == StoredTime(instance, f)
        decreases |remaining|
      {
        var field :| field in remaining;
        if field in data && data[field] != StoredTime(instance, field) {
          allowed := false;
          return;
        }
        remaining := remaining - {field};
      }
    }
  }
}
