/** `getZones`: the UTM zone of a position, with the two irregular areas
    of the UTM grid (the widened zone 32V over south-western Norway and
    the four widened zones over Svalbard). */
module Zones {

  /** The regular grid: six-degree bands numbered eastwards from 180W. */
  function StandardZone(lon: real): int
  {
    ((lon + 180.0) / 6.0).Floor + 1
  }

  predicate InSvalbard(lon: real, lat: real)
  {
    72.0 <= lat < 84.0 && 0.0 <= lon < 42.0
  }

  predicate InSouthernNorway(lon: real, lat: real)
  {
    56.0 <= lat < 64.0 && 3.0 <= lon <= 12.0
  }

  function GetZones(lon: real, lat: real): int
  {
    if 72.0 <= lat < 84.0 && 0.0 <= lon < 9.0 then 31
    else if 72.0 <= lat < 84.0 && 9.0 <= lon < 21.0 then 33
    else if 72.0 <= lat < 84.0 && 21.0 <= lon < 33.0 then 35
    else if 72.0 <= lat < 84.0 && 33.0 <= lon < 42.0 then 37
    else if 56.0 <= lat < 64.0 && 3.0 <= lon <= 12.0 then 32
    else StandardZone(lon)
  }

  /** Zone z of the regular grid is the band [6(z-1) - 180, 6z - 180). */
  lemma StandardZoneCovers(lon: real)
    ensures var z := StandardZone(lon);
      6.0 * (z - 1) as real - 180.0 <= lon < 6.0 * z as real - 180.0
  {
    var q := (lon + 180.0) / 6.0;
    assert q.Floor as real <= q < q.Floor as real + 1.0;
  }

  /** Every longitude of [-180, 180) lies in a zone numbered 1 to 60,
      whatever the latitude. */
  lemma ZoneInRange(lon: real, lat: real)
    requires -180.0 <= lon < 180.0
    ensures 1 <= GetZones(lon, lat) <= 60
  {
    StandardZoneCovers(lon);
  }

  /** Outside the two irregular areas the zone is the regular one; inside
      them it is one of the widened zones and never more than one zone
      away from the regular one. */
  lemma ZoneNearStandard(lon: real, lat: real)
    ensures !InSvalbard(lon, lat) && !InSouthernNorway(lon, lat) ==>
      GetZones(lon, lat) == StandardZone(lon)
    ensures InSvalbard(lon, lat) ==> GetZones(lon, lat) in {31, 33, 35, 37}
    ensures InSouthernNorway(lon, lat) ==> GetZones(lon, lat) == 32
    ensures StandardZone(lon) - 1 <= GetZones(lon, lat) <= StandardZone(lon) + 1
  {
    StandardZoneCovers(lon);
  }
}
