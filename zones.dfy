/** The safe-zone table and the zones service: create, list, owner-scoped
    delete, and the geofence decision made on a kid's reported position. */
module Zones {
  import opened Common
  import opened ZoneDto

  /** A row of the safe-zone table: a named circle owned by a parent. The
      `createdAt` column is not modelled. */
  datatype SafeZone = SafeZone(id: Id, parentId: Id, name: string, latitude: real, longitude: real, radius: real)

  /** What `checkIfInZone` returns when it returns at all. */
  datatype ZoneCheck = ZoneCheck(inside: bool, zone: Option<SafeZone>)

  /** The distance in meters between (lat1, lon1) and (lat2, lon2). The
      service computes it with the haversine formula in floating point; here
      it is whatever function the caller supplies. */
  type Distance = (real, real, real, real) -> real

  function ZoneId(z: SafeZone): Id { z.id }

  /** `findAllForParent`: exactly the zones owned by that parent. */
  function FindAllForParent(zones: seq<SafeZone>, parentId: Id): (r: seq<SafeZone>)
    ensures forall z :: z in r <==> z in zones && z.parentId == parentId
    ensures forall z :: multiset(r)[z] == if z.parentId == parentId then multiset(zones)[z] else 0
  {
    Filter(zones, (z: SafeZone) => z.parentId == parentId)
  }

  /** The table after deleting by primary key. */
  function Deleted(zones: seq<SafeZone>, id: Id): (r: seq<SafeZone>)
    ensures forall z :: z in r <==> z in zones && z.id != id
    ensures forall z :: multiset(r)[z] == if z.id != id then multiset(zones)[z] else 0
  {
    Filter(zones, (z: SafeZone) => z.id != id)
  }

  /** The verdict of `checkIfInZone` on the zones it fetched: the loop
      returns during its first iteration, so only the first zone is ever
      measured. No zones: no verdict (`undefined`). An inside verdict names
      the first zone, which contains the point, boundary included; an
      outside verdict names no zone, and the first zone does not contain the
      point, whatever the later zones are. */
  function FirstZoneVerdict(zones: seq<SafeZone>, lat: real, lng: real, distance: Distance): (v: Option<ZoneCheck>)
    ensures v.None? <==> zones == []
    ensures v.Some? && v.value.inside ==>
              && v.value.zone == Some(zones[0])
              && distance(lat, lng, zones[0].latitude, zones[0].longitude) <= zones[0].radius
    ensures v.Some? && !v.value.inside ==>
              && v.value.zone == None
              && distance(lat, lng, zones[0].latitude, zones[0].longitude) > zones[0].radius
  {
    if zones == [] then None
    else if distance(lat, lng, zones[0].latitude, zones[0].longitude) <= zones[0].radius then
      Some(ZoneCheck(true, Some(zones[0])))
    else
      Some(ZoneCheck(false, None))
  }

  /** Once the first zone does not contain the point, no later zone can
      change the verdict: a point inside the second zone only is reported
      as outside. */
  lemma LaterZonesIgnored(first: SafeZone, rest: seq<SafeZone>, lat: real, lng: real, distance: Distance)
    requires distance(lat, lng, first.latitude, first.longitude) > first.radius
    ensures FirstZoneVerdict([first] + rest, lat, lng, distance) == Some(ZoneCheck(false, None))
  {
  }

  /** A created zone is listed for its owner after the owner's older zones,
      and for no other parent. */
  lemma CreatedZoneListed(zones: seq<SafeZone>, zone: SafeZone, parentId: Id)
    ensures FindAllForParent(zones + [zone], parentId)
            == FindAllForParent(zones, parentId) + (if zone.parentId == parentId then [zone] else [])
  {
    FilterAppend(zones, [zone], (z: SafeZone) => z.parentId == parentId);
    assert Filter([zone], (z: SafeZone) => z.parentId == parentId)
           == (if zone.parentId == parentId then [zone] else []) by {
      assert [zone][1..] == [];
    }
  }

  /** For a parent without zones, the first zone it creates is the one the
      geofence decision measures. */
  lemma FirstCreatedZoneDecides(zones: seq<SafeZone>, zone: SafeZone, lat: real, lng: real, distance: Distance)
    requires forall z :: z in zones ==> z.parentId != zone.parentId
    ensures FirstZoneVerdict(FindAllForParent(zones + [zone], zone.parentId), lat, lng, distance)
            == Some(if distance(lat, lng, zone.latitude, zone.longitude) <= zone.radius
                    then ZoneCheck(true, Some(zone)) else ZoneCheck(false, None))
  {
    CreatedZoneListed(zones, zone, zone.parentId);
    assert FindAllForParent(zones, zone.parentId) == [] by {
      assert multiset(FindAllForParent(zones, zone.parentId)) == multiset{};
    }
  }

  /** The zones service with the table it owns. */
  class ZonesService {
    var zones: seq<SafeZone>
    var nextId: Id

    ghost predicate Valid()
      reads this
    {
      KeysFresh(zones, ZoneId, nextId)
    }

    constructor ()
      ensures Valid() && zones == []
    {
      zones, nextId := [], 0;
    }

    /** `create`: appends one zone carrying the caller's parent and the
        dto's fields; existing zones are untouched. The dto is stored as
        given: nothing here re-checks its constraints. */
    method Create(parentId: Id, dto: CreateSafeZoneDto) returns (zone: SafeZone)
      requires Valid()
      modifies this
      ensures Valid()
      ensures zones == old(zones) + [zone] && zone.id == old(nextId) && nextId == old(nextId) + 1
      ensures && zone.parentId == parentId && zone.name == dto.name
              && zone.latitude == dto.latitude && zone.longitude == dto.longitude
              && zone.radius == dto.radius
    {
      zone := SafeZone(nextId, parentId, dto.name, dto.latitude, dto.longitude, dto.radius);
      AppendKeepsKeysFresh(zones, ZoneId, nextId, zone);
      zones := zones + [zone];
      nextId := nextId + 1;
    }

    /** `remove`: deletes the zone with key `id` only when `parentId` owns
        it; otherwise returns none and changes nothing. */
    method Remove(id: Id, parentId: Id) returns (r: Option<SafeZone>)
      requires Valid()
      modifies this
      ensures Valid() && nextId == old(nextId)
      ensures r.None? <==> forall z :: z in old(zones) ==> !(z.id == id && z.parentId == parentId)
      ensures r.None? ==> zones == old(zones)
      ensures r.Some? ==> && r.value in old(zones) && r.value.id == id && r.value.parentId == parentId
                          && zones == Deleted(old(zones), id)
                          && multiset(zones) == multiset(old(zones)) - multiset{r.value}
    {
      r := FindFirst(zones, (z: SafeZone) => z.id == id && z.parentId == parentId);
      if r.None? {
        return;
      }
      var gone := r.value;
      var after := Deleted(zones, id);
      forall z ensures multiset(after)[z] == (multiset(zones) - multiset{gone})[z] {
        if z.id == id && z in zones {
          KeyDeterminesRow(zones, ZoneId, nextId, z, gone);
          KeysFreshOccursOnce(zones, ZoneId, nextId, z);
        }
      }
      assert multiset(after) == multiset(zones) - multiset{gone};
      FilterKeepsKeysFresh(zones, (z: SafeZone) => z.id != id, ZoneId, nextId);
      zones := after;
    }

    /** `checkIfInZone`: the verdict on the parent's zones, in table order,
        for the kid's position. Reads the table and changes nothing. */
    method CheckIfInZone(kidLat: real, kidLng: real, parentId: Id, distance: Distance)
      returns (r: Option<ZoneCheck>)
      ensures r == FirstZoneVerdict(FindAllForParent(zones, parentId), kidLat, kidLng, distance)
      ensures r.None? <==> forall z :: z in zones ==> z.parentId != parentId
      ensures r.Some? && r.value.inside ==>
                && r.value.zone.Some? && r.value.zone.value in zones
                && r.value.zone.value.parentId == parentId
    {
      var owned := FindAllForParent(zones, parentId);
      for i := 0 to |owned|
        invariant i == 0
      {
        var zone := owned[i];
        var dist := distance(kidLat, kidLng, zone.latitude, zone.longitude);
        if dist <= zone.radius {
          return Some(ZoneCheck(true, Some(zone)));
        }
        return Some(ZoneCheck(false, None));
      }
      return None;
    }
  }
}
