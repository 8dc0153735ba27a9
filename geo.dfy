/**
 * Coordinates and the two geometric quantities the server uses. The
 * haversine distance and the forward-azimuth bearing are floating-point
 * trigonometry; they stay uninterpreted here and enter the model as
 * function values (see `Server.Registry`), so every property proved holds
 * whatever the geometry returns.
 */
module Geo {
  import opened Options

  /** A `{lat, lng}` pair in degrees, as the clients send it. */
  datatype Coord = Coord(lat: real, lng: real)

  /** `Math.trunc` of a bearing normalised into [0, 360). */
  type Degrees = d: int | 0 <= d < 360

  /** `calculateDistance(a, b)`: the great-circle distance rounded to two
      decimals, counted here in hundredths of a kilometre. */
  type DistanceFn = (Coord, Coord) -> int

  /** The truncated initial bearing from the first coordinate towards the
      second, as computed inside `calculateHeading`. */
  type BearingFn = (Coord, Coord) -> Degrees

  /** The "nearby" radius, 5 km, in hundredths of a kilometre. The distance
      is a two-decimal string compared with `< 5`, so a driver is near
      exactly when the rounded hundredths are below 500. */
  const NearRadius: int := 500

  /** `calculateHeading(cur, prev)`: 0 on a driver's first report, otherwise
      the bearing from the new position to the previous one turned by 180
      degrees. The sentinel 0 lies outside the range of computed headings. */
  function Heading(bearing: BearingFn, cur: Coord, prev: Option<Coord>): (rotation: int)
    ensures rotation == 0 <==> prev.None?
    ensures prev.Some? ==> 180 <= rotation < 540 && rotation - 180 == bearing(cur, prev.value)
  {
    match prev
    case None => 0
    case Some(p) => bearing(cur, p) + 180
  }
}
