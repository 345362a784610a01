/** `UserSerializer.validate_graduation_year` (backend/clubs/serializers.py). */
module Users {
  import opened Wrappers

  datatype YearError = TooEarly(minYear: int) | TooLate(maxYear: int)

  /**
   * A graduation year must lie between two years before and ten years after the
   * current year; a missing or zero year is stored as None.
   */
  function ValidateGraduationYear(value: Option<int>, currentYear: int): (r: Result<Option<int>, YearError>)
    ensures value.None? || value.value == 0 ==> r == Ok(None)
    ensures value.Some? && value.value != 0 ==>
      (r.Ok? <==> currentYear - 2 <= value.value <= currentYear + 10)
    ensures r.Ok? && r.value.Some? ==> r.value == value && currentYear - 2 <= r.value.value <= currentYear + 10
    ensures r.Err? ==> (r.error.TooEarly? <==> value.value < currentYear - 2)
  {
    if value.None? || value.value == 0 then Ok(None)
    else
      var minYear := currentYear - 2;
      var maxYear := currentYear + 10;
      if value.value < minYear then Err(TooEarly(minYear))
      else if value.value > maxYear then Err(TooLate(maxYear))
      else Ok(value)
  }
}
