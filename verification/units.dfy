/** Unit conversion and the fixed parameters of the scripts. */
module Units {

  /** The conversion factor every script uses. */
  const MetresPerMile: real := 1609.34

  /** Miles to metres, exactly as written: `miles * 1609.34`. */
  function MilesToMetres(miles: real): (metres: real)
    ensures metres / MetresPerMile == miles
    ensures miles > 0.0 <==> metres > 0.0
  {
    miles * MetresPerMile
  }

  /** The interactive search radius: the slider offers whole miles from 1 to 50. */
  function SearchRadius(radiusMiles: int): (metres: real)
    requires 1 <= radiusMiles <= 50
    ensures metres / MetresPerMile == radiusMiles as real
    ensures 1609.34 <= metres <= 80467.0
  {
    MilesToMetres(radiusMiles as real)
  }

  /** The interactive grid spacing: the slider offers 5 to 50 miles in steps of 5. */
  function GridSpacing(spacingMiles: int): (metres: real)
    requires 5 <= spacingMiles <= 50 && spacingMiles % 5 == 0
    ensures metres / MetresPerMile == spacingMiles as real
    ensures 8046.7 <= metres <= 80467.0
  {
    MilesToMetres(spacingMiles as real)
  }

  /** The batch report's grid step, in degrees of the native frame. */
  const BatchStep: real := 0.2

  /** The batch report's fixed search radius in metres (about ten miles). */
  const BatchRadius: real := 16093.0

  /** The download area's radius around Pittsburgh: 100 miles. */
  const DownloadRadius: real := MilesToMetres(100.0)
}
