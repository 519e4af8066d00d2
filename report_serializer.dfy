/**
 * Validation of a submitted report. Each field first runs the check of the
 * field the model serializer generates for its column - a primary key that
 * must name an existing category, and decimals with at most six places and
 * three whole digits - and then the serializer's own `validate_<field>`
 * method: the category must exist and the coordinates must lie in range.
 * `id`, `citizen` and `created_at` are read-only and whatever the request
 * says about them is ignored. Coordinates are the exact decimals given.
 */
module ReportSerializer {
  import opened Wrappers
  import opened Text
  import opened Records

  const InvalidCategory: string := "Invalid category selected."
  const LatitudeOutOfRange: string := "Latitude must be between -90 and 90 degrees."
  const LongitudeOutOfRange: string := "Longitude must be between -180 and 180 degrees."

  function ValidateReportType(categories: seq<Category>, id: nat): Result<nat, string> {
    if exists i :: 0 <= i < |categories| && categories[i].id == id then Ok(id) else Err(InvalidCategory)
  }

  function ValidateLatitude(value: real): Result<real, string> {
    if value < -90.0 || value > 90.0 then Err(LatitudeOutOfRange) else Ok(value)
  }

  function ValidateLongitude(value: real): Result<real, string> {
    if value < -180.0 || value > 180.0 then Err(LongitudeOutOfRange) else Ok(value)
  }

  /** Each field check accepts exactly its valid values (inclusive bounds)
      and then returns the value unchanged. */
  lemma FieldValidatorsSpec(categories: seq<Category>, id: nat, lat: real, lon: real)
    ensures ValidateReportType(categories, id).Ok? <==> exists c :: c in categories && c.id == id
    ensures ValidateLatitude(lat).Ok? <==> -90.0 <= lat <= 90.0
    ensures ValidateLongitude(lon).Ok? <==> -180.0 <= lon <= 180.0
    ensures ValidateReportType(categories, id).Ok? ==> ValidateReportType(categories, id).value == id
    ensures ValidateLatitude(lat).Ok? ==> ValidateLatitude(lat).value == lat
    ensures ValidateLongitude(lon).Ok? ==> ValidateLongitude(lon).value == lon
  {
    if exists c :: c in categories && c.id == id {
      var c :| c in categories && c.id == id;
      var i :| 0 <= i < |categories| && categories[i] == c;
    }
  }

  /** The request body of a report submission, with the read-only fields a client may send. */
  datatype ReportInput = ReportInput(
    id: Option<nat>,
    citizen: Option<nat>,
    reportType: nat,
    latitude: real,
    longitude: real,
    description: Option<string>,
    createdAt: Option<int>)

  /** The writable fields that survive validation. */
  datatype ValidatedReport = ValidatedReport(reportType: nat, latitude: real, longitude: real, description: Option<string>)

  // ---------------------------------------------------------------------
  // The checks of the generated fields

  const TooManyDecimalPlaces: string := "Ensure that there are no more than 6 decimal places."
  const TooManyWholeDigits: string := "Ensure that there are no more than 3 digits before the decimal point."

  /** The primary-key field's answer to an id no category has. */
  function PkDoesNotExist(id: nat): string {
    "Invalid pk \"" + NatToDecimal(id) + "\" - object does not exist."
  }

  predicate CategoryExists(categories: seq<Category>, id: nat) {
    exists c :: c in categories && c.id == id
  }

  /** `decimal_places=6`: the value is a whole number of millionths. */
  predicate AtMostSixDecimals(x: real) {
    (x * 1000000.0).Floor as real == x * 1000000.0
  }

  /** `max_digits=9` less the six places: at most three digits before the point. */
  predicate AtMostThreeWholeDigits(x: real) {
    -1000.0 < x < 1000.0
  }

  /** The `DecimalField(max_digits=9, decimal_places=6)` check. */
  function CheckDecimal(x: real): Option<string> {
    if !AtMostSixDecimals(x) then Some(TooManyDecimalPlaces)
    else if !AtMostThreeWholeDigits(x) then Some(TooManyWholeDigits)
    else None
  }

  /** The error of `report_type`: the primary-key field rejects an unknown
      id first, so `validate_report_type` only ever sees an existing one. */
  function ReportTypeError(categories: seq<Category>, id: nat): Option<string> {
    if !CategoryExists(categories, id) then Some(PkDoesNotExist(id))
    else if ValidateReportType(categories, id).Err? then Some(InvalidCategory)
    else None
  }

  /** The error of a coordinate: the decimal check, then the range check
      of its `validate_<field>` method. */
  function CoordinateError(x: real, inRange: Result<real, string>): Option<string> {
    if CheckDecimal(x).Some? then CheckDecimal(x)
    else if inRange.Err? then Some(inRange.error)
    else None
  }

  /** A coordinate is accepted: six places at most and within the bound. */
  predicate CoordinateAccepted(x: real, bound: real) {
    AtMostSixDecimals(x) && -bound <= x <= bound
  }

  /** The field errors, keyed by field name. */
  function FieldErrors(categories: seq<Category>, input: ReportInput): map<string, string> {
    var e1 := ReportTypeError(categories, input.reportType);
    var e2 := CoordinateError(input.latitude, ValidateLatitude(input.latitude));
    var e3 := CoordinateError(input.longitude, ValidateLongitude(input.longitude));
    var m1 := if e1.Some? then map["report_type" := e1.value] else map[];
    var m2 := if e2.Some? then m1["latitude" := e2.value] else m1;
    if e3.Some? then m2["longitude" := e3.value] else m2
  }

  /** `is_valid()`: every field check runs and all errors are reported together. */
  function Validate(categories: seq<Category>, input: ReportInput): Result<ValidatedReport, map<string, string>> {
    var errors := FieldErrors(categories, input);
    if errors == map[] then Ok(ValidatedReport(input.reportType, input.latitude, input.longitude, input.description))
    else Err(errors)
  }

  /** Each field's error, as a condition on its value: an unknown category
      is named by its id; a coordinate with more than six places is refused
      for that before its range is looked at; one out of range is refused
      with the range message when it has at most three whole digits. The
      serializer's own category message is never reported, because the
      primary-key field has already refused every id it would refuse. */
  lemma FieldErrorSpec(categories: seq<Category>, id: nat, x: real)
    ensures ReportTypeError(categories, id).Some? <==> !CategoryExists(categories, id)
    ensures ReportTypeError(categories, id).Some? ==> ReportTypeError(categories, id).value == PkDoesNotExist(id)
    ensures ReportTypeError(categories, id) != Some(InvalidCategory)
    ensures CoordinateError(x, ValidateLatitude(x)).None? <==> CoordinateAccepted(x, 90.0)
    ensures CoordinateError(x, ValidateLongitude(x)).None? <==> CoordinateAccepted(x, 180.0)
    ensures !AtMostSixDecimals(x) ==>
      CoordinateError(x, ValidateLatitude(x)) == Some(TooManyDecimalPlaces) &&
      CoordinateError(x, ValidateLongitude(x)) == Some(TooManyDecimalPlaces)
    ensures AtMostSixDecimals(x) && -1000.0 < x < 1000.0 && !(-90.0 <= x <= 90.0) ==>
      CoordinateError(x, ValidateLatitude(x)) == Some(LatitudeOutOfRange)
    ensures AtMostSixDecimals(x) && -1000.0 < x < 1000.0 && !(-180.0 <= x <= 180.0) ==>
      CoordinateError(x, ValidateLongitude(x)) == Some(LongitudeOutOfRange)
  {
    FieldValidatorsSpec(categories, id, x, x);
    PkMessageIsNotCategoryMessage(id);
  }

  /** The two messages differ in their first letter already. */
  lemma PkMessageIsNotCategoryMessage(id: nat)
    ensures PkDoesNotExist(id) != InvalidCategory
  {
    assert PkDoesNotExist(id)[0] == 'I' && PkDoesNotExist(id)[1] == 'n';
    assert PkDoesNotExist(id)[8] == 'p' != InvalidCategory[8];
  }

  /** A latitude given to seven places, such as 11.5594123, is refused for
      its precision even though it lies in range. */
  lemma SevenPlacesRefused(categories: seq<Category>, input: ReportInput)
    requires input.latitude == 11.5594123
    ensures Validate(categories, input).Err?
    ensures Validate(categories, input).error["latitude"] == TooManyDecimalPlaces
  {
    assert input.latitude * 1000000.0 == 11559412.3;
    assert (input.latitude * 1000000.0).Floor == 11559412;
    assert !AtMostSixDecimals(input.latitude);
    FieldErrorSpec(categories, input.reportType, input.latitude);
    assert "latitude" in FieldErrors(categories, input);
  }

  /** A submission is valid exactly when its category exists and both
      coordinates are accepted; otherwise every failing field, and only
      those, is reported. The read-only fields play no part: changing them
      never changes the outcome. */
  lemma ValidateSpec(categories: seq<Category>, input: ReportInput, id: Option<nat>, citizen: Option<nat>, createdAt: Option<int>)
    ensures Validate(categories, input).Ok? <==>
      CategoryExists(categories, input.reportType) &&
      CoordinateAccepted(input.latitude, 90.0) && CoordinateAccepted(input.longitude, 180.0)
    ensures Validate(categories, input).Err? ==>
      ("report_type" in Validate(categories, input).error <==> !CategoryExists(categories, input.reportType)) &&
      ("latitude" in Validate(categories, input).error <==> !CoordinateAccepted(input.latitude, 90.0)) &&
      ("longitude" in Validate(categories, input).error <==> !CoordinateAccepted(input.longitude, 180.0))
    ensures Validate(categories, input).Ok? ==>
      var v := Validate(categories, input).value;
      v.reportType == input.reportType && v.latitude == input.latitude && v.longitude == input.longitude &&
      v.description == input.description
    ensures Validate(categories, input.(id := id, citizen := citizen, createdAt := createdAt)) == Validate(categories, input)
  {
    FieldErrorSpec(categories, input.reportType, input.latitude);
    FieldErrorSpec(categories, input.reportType, input.longitude);
    var e := FieldErrors(categories, input);
    if !CoordinateAccepted(input.longitude, 180.0) {
      assert "longitude" in e;
    } else if !CoordinateAccepted(input.latitude, 90.0) {
      assert "latitude" in e;
    } else if !CategoryExists(categories, input.reportType) {
      assert "report_type" in e;
    }
  }
}
