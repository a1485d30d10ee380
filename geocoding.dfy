/**
 * Enrichment of the raw table with coordinates (mmp.py:35-51).
 *
 * The Nominatim geocoder behind its rate limiter is a network service; here it
 * is a total function from a query string to the outcome of one call: a
 * location, no match (the call returned None), or an exception.
 */
module Geocoding {
  import opened Wrappers
  import opened Frames

  datatype Location = Location(latitude: Coordinate, longitude: Coordinate)

  datatype GeocodeOutcome = Found(location: Location) | NoMatch | Raised

  const NameColumn := "Nombre"
  const RegionColumn := "Región"
  const LocationColumn := "Ubicación"
  const CountrySuffix := ", Perú"

  /** The geocoding query of a facility: its name, ", ", its region, ", Perú". */
  function LocationQuery(name: string, region: string): (q: string)
    ensures |q| == |name| + 2 + |region| + |CountrySuffix|
    ensures q[..|name|] == name
    ensures q[|name|..|name| + 2] == ", "
    ensures q[|name| + 2..|q| - |CountrySuffix|] == region
    ensures q[|q| - |CountrySuffix|..] == CountrySuffix
  {
    name + ", " + region + CountrySuffix
  }

  /** The `Ubicación` column: one query per row, in row order. */
  function Queries(t: Table): (qs: seq<string>)
    requires WellFormed(t) && NameColumn in t.columns && RegionColumn in t.columns
    ensures |qs| == |t.rows|
    ensures forall i :: 0 <= i < |t.rows| ==>
              qs[i] == LocationQuery(t.rows[i].cells[NameColumn], t.rows[i].cells[RegionColumn])
  {
    seq(|t.rows|, i requires 0 <= i < |t.rows| =>
      LocationQuery(t.rows[i].cells[NameColumn], t.rows[i].cells[RegionColumn]))
  }

  /** The latitude recorded for one geocoder call: a value on a match, NaN otherwise. */
  function LatitudeOf(o: GeocodeOutcome): (lat: Option<Coordinate>)
    ensures lat.Some? <==> o.Found?
    ensures o.Found? ==> lat.value == o.location.latitude
  {
    match o
    case Found(loc) => Some(loc.latitude)
    case NoMatch => None
    case Raised => None
  }

  /** The longitude recorded for one geocoder call: a value on a match, NaN otherwise. */
  function LongitudeOf(o: GeocodeOutcome): (lon: Option<Coordinate>)
    ensures lon.Some? <==> o.Found?
    ensures o.Found? ==> lon.value == o.location.longitude
  {
    match o
    case Found(loc) => Some(loc.longitude)
    case NoMatch => None
    case Raised => None
  }

  /**
   * The enrichment loop: one geocoder call per query, in order, appending
   * exactly one latitude and one longitude per query. A match gives both
   * coordinates; no match and an exception both give NaN for both.
   */
  method GeocodeAll(queries: seq<string>, geocode: string -> GeocodeOutcome)
    returns (latitudes: seq<Option<Coordinate>>, longitudes: seq<Option<Coordinate>>)
    ensures |latitudes| == |queries| && |longitudes| == |queries|
    ensures forall i :: 0 <= i < |queries| ==>
              latitudes[i] == LatitudeOf(geocode(queries[i])) &&
              longitudes[i] == LongitudeOf(geocode(queries[i]))
    ensures forall i :: 0 <= i < |queries| ==>
              (latitudes[i].Some? <==> geocode(queries[i]).Found?) &&
              (latitudes[i].Some? <==> longitudes[i].Some?)
  {
    latitudes, longitudes := [], [];
    var k := 0;
    while k < |queries|
      invariant 0 <= k <= |queries|
      invariant |latitudes| == k && |longitudes| == k
      invariant forall i :: 0 <= i < k ==>
                  latitudes[i] == LatitudeOf(geocode(queries[i])) &&
                  longitudes[i] == LongitudeOf(geocode(queries[i]))
    {
      var outcome := geocode(queries[k]);
      match outcome {
        case Found(loc) =>
          latitudes := latitudes + [Some(loc.latitude)];
          longitudes := longitudes + [Some(loc.longitude)];
        case NoMatch =>
          latitudes := latitudes + [None];
          longitudes := longitudes + [None];
        case Raised =>
          latitudes := latitudes + [None];
          longitudes := longitudes + [None];
      }
      k := k + 1;
    }
  }

  /**
   * The raw table after enrichment: the `Ubicación` column holds each row's
   * query and the coordinates are those the geocoder gave for that query.
   */
  function Enrich(t: Table, geocode: string -> GeocodeOutcome): (u: Table)
    requires WellFormed(t) && NameColumn in t.columns && RegionColumn in t.columns
    ensures WellFormed(u) && u.columns == t.columns + {LocationColumn} && |u.rows| == |t.rows|
    ensures forall i :: 0 <= i < |u.rows| ==>
              var q := LocationQuery(t.rows[i].cells[NameColumn], t.rows[i].cells[RegionColumn]);
              u.rows[i].cells[LocationColumn] == q &&
              u.rows[i].latitude == LatitudeOf(geocode(q)) &&
              u.rows[i].longitude == LongitudeOf(geocode(q))
    ensures forall i, c :: 0 <= i < |u.rows| && c in t.columns && c != LocationColumn ==>
              u.rows[i].cells[c] == t.rows[i].cells[c]
  {
    var qs := Queries(t);
    WithCoordinates(WithColumn(t, LocationColumn, qs),
                    seq(|qs|, i requires 0 <= i < |qs| => LatitudeOf(geocode(qs[i]))),
                    seq(|qs|, i requires 0 <= i < |qs| => LongitudeOf(geocode(qs[i]))))
  }
}
