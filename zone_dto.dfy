/** The body of a "create safe zone" request and the field constraints its
    class declares: `name` a string, `latitude` and `longitude` numbers with no
    range, `radius` a number in [10, 10000], both ends included. */
module ZoneDto {
  import opened Common

  /** A field of a request body as it arrives. `JNumber` is a finite number
      (`@IsNumber` refuses NaN and the infinities by default); `JOther` is any
      other JSON value or a missing field. */
  datatype JsonValue = JString(s: string) | JNumber(n: real) | JOther

  datatype ZoneBody = ZoneBody(name: JsonValue, latitude: JsonValue, longitude: JsonValue, radius: JsonValue)

  /** The typed body: what `Validate` yields on success, and what
      `ZonesService.Create` stores without checking. */
  datatype CreateSafeZoneDto = CreateSafeZoneDto(name: string, latitude: real, longitude: real, radius: real)

  datatype Field = Name | Latitude | Longitude | Radius
  datatype Constraint = IsString | IsNumber | Min | Max
  datatype Violation = Violation(field: Field, constraint: Constraint)

  const MinRadius: real := 10.0
  const MaxRadius: real := 10000.0

  /** `@IsNumber()` holds of finite numbers only. */
  predicate NumberOk(v: JsonValue) { v.JNumber? }

  /** `@Min(m)` holds of a number that is at least `m`; any non-number fails. */
  predicate AtLeast(v: JsonValue, m: real) { v.JNumber? && v.n >= m }

  /** `@Max(m)` holds of a number that is at most `m`; any non-number fails. */
  predicate AtMost(v: JsonValue, m: real) { v.JNumber? && v.n <= m }

  /** Every constraint the body breaks, per field. */
  function Violations(b: ZoneBody): (r: set<Violation>)
    ensures Violation(Name, IsString) in r <==> !b.name.JString?
    ensures Violation(Latitude, IsNumber) in r <==> !b.latitude.JNumber?
    ensures Violation(Longitude, IsNumber) in r <==> !b.longitude.JNumber?
    ensures Violation(Radius, IsNumber) in r <==> !b.radius.JNumber?
    ensures Violation(Radius, Min) in r <==> !(b.radius.JNumber? && b.radius.n >= MinRadius)
    ensures Violation(Radius, Max) in r <==> !(b.radius.JNumber? && b.radius.n <= MaxRadius)
    ensures r <= {Violation(Name, IsString), Violation(Latitude, IsNumber), Violation(Longitude, IsNumber),
                  Violation(Radius, IsNumber), Violation(Radius, Min), Violation(Radius, Max)}
  {
    (if b.name.JString? then {} else {Violation(Name, IsString)})
    + (if NumberOk(b.latitude) then {} else {Violation(Latitude, IsNumber)})
    + (if NumberOk(b.longitude) then {} else {Violation(Longitude, IsNumber)})
    + (if NumberOk(b.radius) then {} else {Violation(Radius, IsNumber)})
    + (if AtLeast(b.radius, MinRadius) then {} else {Violation(Radius, Min)})
    + (if AtMost(b.radius, MaxRadius) then {} else {Violation(Radius, Max)})
  }

  /** Validates a body: the typed dto when no constraint is broken, otherwise
      the set of broken constraints. */
  function Validate(b: ZoneBody): (r: Result<CreateSafeZoneDto, set<Violation>>)
    ensures r.Ok? <==> && b.name.JString? && b.latitude.JNumber? && b.longitude.JNumber?
                       && b.radius.JNumber? && MinRadius <= b.radius.n <= MaxRadius
    ensures r.Ok? ==> r.value == CreateSafeZoneDto(b.name.s, b.latitude.n, b.longitude.n, b.radius.n)
    ensures r.Err? ==> r.error != {}
    ensures r.Err? ==> (Violation(Radius, Min) in r.error <==> !(b.radius.JNumber? && b.radius.n >= MinRadius))
    ensures r.Err? ==> (Violation(Radius, Max) in r.error <==> !(b.radius.JNumber? && b.radius.n <= MaxRadius))
    ensures r.Err? ==> (Violation(Name, IsString) in r.error <==> !b.name.JString?)
    ensures r.Err? ==> (Violation(Latitude, IsNumber) in r.error <==> !b.latitude.JNumber?)
    ensures r.Err? ==> (Violation(Longitude, IsNumber) in r.error <==> !b.longitude.JNumber?)
    ensures r.Err? ==> (Violation(Radius, IsNumber) in r.error <==> !b.radius.JNumber?)
  {
    var v := Violations(b);
    if v == {} then
      Ok(CreateSafeZoneDto(b.name.s, b.latitude.n, b.longitude.n, b.radius.n))
    else
      Err(v)
  }

  /** Latitude and longitude have no range: any number passes. */
  lemma CoordinatesUnbounded(b: ZoneBody, lat: real, lng: real)
    requires b.latitude == JNumber(lat) && b.longitude == JNumber(lng)
    ensures forall c :: Violation(Latitude, c) !in Violations(b) && Violation(Longitude, c) !in Violations(b)
  {
  }

  /** The radius bounds are inclusive at both ends, and a radius just outside
      either end is refused. */
  lemma RadiusBoundsInclusive(name: string, lat: real, lng: real)
    ensures Validate(ZoneBody(JString(name), JNumber(lat), JNumber(lng), JNumber(10.0))).Ok?
    ensures Validate(ZoneBody(JString(name), JNumber(lat), JNumber(lng), JNumber(10000.0))).Ok?
    ensures Validate(ZoneBody(JString(name), JNumber(lat), JNumber(lng), JNumber(9.99)))
            == Err({Violation(Radius, Min)})
    ensures Validate(ZoneBody(JString(name), JNumber(lat), JNumber(lng), JNumber(10000.01)))
            == Err({Violation(Radius, Max)})
  {
    assert Violations(ZoneBody(JString(name), JNumber(lat), JNumber(lng), JNumber(9.99)))
           == {Violation(Radius, Min)};
    assert Violations(ZoneBody(JString(name), JNumber(lat), JNumber(lng), JNumber(10000.01)))
           == {Violation(Radius, Max)};
  }

  /** A radius that is not a number breaks all three of its constraints. */
  lemma NonNumericRadius(b: ZoneBody)
    requires b.radius.JString? || b.radius.JOther?
    ensures {Violation(Radius, IsNumber), Violation(Radius, Min), Violation(Radius, Max)} <= Violations(b)
  {
  }
}
