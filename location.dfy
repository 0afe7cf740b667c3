/** The location table and the location service: kids report positions,
    parents read the latest one per kid. */
module Locations {
  import opened Common
  import opened Users
  import opened Zones

  /** A row of the location table. Rows are only ever appended. */
  datatype Location = Location(id: Id, kidId: Id, latitude: real, longitude: real, createdAt: int)

  /** The body of a location report. */
  datatype CreateLocationDto = CreateLocationDto(latitude: real, longitude: real)

  /** A latest location extended with the kid's display name. */
  datatype LocatedKid = LocatedKid(location: Location, fullName: string)

  datatype SaveError =
    | KidNotFound                 // 'Kid not found'
    | NoParentAssigned(kidId: Id) // 'Kid with id … does not have a parent assigned'

  function LocationId(l: Location): Id { l.id }

  /** `getLatestLocation`: none when the kid has no rows, otherwise a row of
      that kid whose `createdAt` is the largest. Among rows with equal
      timestamps the earliest stored one is taken. */
  function GetLatestLocation(rows: seq<Location>, kidId: Id): (r: Option<Location>)
    ensures r.None? <==> forall l :: l in rows ==> l.kidId != kidId
    ensures r.Some? ==> && r.value in rows && r.value.kidId == kidId
                        && forall l :: l in rows && l.kidId == kidId ==> l.createdAt <= r.value.createdAt
  {
    if rows == [] then None
    else
      var later := GetLatestLocation(rows[1..], kidId);
      assert forall l :: l in rows ==> l == rows[0] || l in rows[1..];
      if rows[0].kidId != kidId then later
      else if later.Some? && later.value.createdAt > rows[0].createdAt then later
      else Some(rows[0])
  }

  /** One entry of `getLatestLocationsForParent`: none when the kid has no
      location or no user record. */
  function LatestForKid(rows: seq<Location>, users: seq<User>, kidId: Id): (r: Option<LocatedKid>)
    ensures r.Some? <==> GetLatestLocation(rows, kidId).Some? && FindById(users, kidId).Some?
    ensures r.Some? ==> && r.value.location == GetLatestLocation(rows, kidId).value
                        && r.value.fullName == FindById(users, kidId).value.fullName
  {
    match GetLatestLocation(rows, kidId)
    case None => None
    case Some(location) =>
      match FindById(users, kidId)
      case None => None
      case Some(kid) => Some(LocatedKid(location, kid.fullName))
  }

  /** `getLatestLocationsForParent`: for each kid in order, its latest
      location with its name; kids lacking either are dropped. */
  function GetLatestLocationsForParent(rows: seq<Location>, users: seq<User>, kidIds: seq<Id>): (r: seq<LocatedKid>)
    ensures |r| <= |kidIds|
    ensures forall e :: e in r ==> exists k :: k in kidIds && LatestForKid(rows, users, k) == Some(e)
    ensures forall k :: k in kidIds && LatestForKid(rows, users, k).Some? ==>
              LatestForKid(rows, users, k).value in r
  {
    if kidIds == [] then []
    else
      var rest := GetLatestLocationsForParent(rows, users, kidIds[1..]);
      assert forall k :: k in kidIds ==> k == kidIds[0] || k in kidIds[1..];
      match LatestForKid(rows, users, kidIds[0])
      case None => rest
      case Some(e) => [e] + rest
  }

  /** The result for a concatenation of kid lists is the concatenation of the
      results: entries keep the order of the kids. */
  lemma {:induction false} LatestLocationsKeepOrder(rows: seq<Location>, users: seq<User>, a: seq<Id>, b: seq<Id>)
    ensures GetLatestLocationsForParent(rows, users, a + b)
            == GetLatestLocationsForParent(rows, users, a) + GetLatestLocationsForParent(rows, users, b)
  {
    if a == [] {
      assert a + b == b;
    } else {
      assert (a + b)[1..] == a[1..] + b;
      LatestLocationsKeepOrder(rows, users, a[1..], b);
    }
  }

  /** A report strictly newer than every stored report of its kid becomes
      that kid's latest location. */
  lemma NewestReportIsLatest(rows: seq<Location>, loc: Location)
    requires forall l :: l in rows && l.kidId == loc.kidId ==> l.createdAt < loc.createdAt
    ensures GetLatestLocation(rows + [loc], loc.kidId) == Some(loc)
  {
    assert loc in rows + [loc];
    assert forall l :: l in rows + [loc] ==> l in rows || l == loc;
  }

  /** The location service with the table it owns. */
  class LocationService {
    var rows: seq<Location>
    var nextId: Id

    ghost predicate Valid()
      reads this
    {
      KeysFresh(rows, LocationId, nextId)
    }

    constructor ()
      ensures Valid() && rows == []
    {
      rows, nextId := [], 0;
    }

    /** `saveLocation`. An unknown kid is refused before anything is stored.
        Otherwise the report is stored first; a kid without a parent is then
        refused although its report stays. For a kid with a parent the zone
        verdict is computed and only logged (`outsideLogged`): no alert is
        written, and the stored row is returned. */
    method SaveLocation(users: UsersService, zones: ZonesService, kidId: Id, dto: CreateLocationDto,
                        now: int, distance: Distance)
      returns (r: Result<Location, SaveError>, outsideLogged: bool)
      requires Valid()
      modifies this
      ensures Valid()
      ensures FindById(users.rows, kidId).None? ==>
                && r == Err(KidNotFound) && !outsideLogged
                && rows == old(rows) && nextId == old(nextId)
      ensures FindById(users.rows, kidId).Some? ==>
                var stored := Location(old(nextId), kidId, dto.latitude, dto.longitude, now);
                && rows == old(rows) + [stored] && nextId == old(nextId) + 1
                && match FindById(users.rows, kidId).value.parentId
                   case None => r == Err(NoParentAssigned(kidId)) && !outsideLogged
                   case Some(p) =>
                     && r == Ok(stored)
                     && (outsideLogged <==> FirstZoneVerdict(FindAllForParent(zones.zones, p),
                                                             dto.latitude, dto.longitude, distance)
                                            == Some(ZoneCheck(false, None)))
    {
      outsideLogged := false;
      var kid := FindById(users.rows, kidId);
      if kid.None? {
        return Err(KidNotFound), false;
      }

      var location := Location(nextId, kidId, dto.latitude, dto.longitude, now);
      AppendKeepsKeysFresh(rows, LocationId, nextId, location);
      rows := rows + [location];
      nextId := nextId + 1;

      if kid.value.parentId.None? {
        return Err(NoParentAssigned(kidId)), false;
      }

      var check := zones.CheckIfInZone(dto.latitude, dto.longitude, kid.value.parentId.value, distance);
      if check.Some? && !check.value.inside {
        outsideLogged := true;
      }
      r := Ok(location);
    }
  }
}
