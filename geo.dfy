/**
 * `clampLatLng` of lib/geo.ts: despite its name it does not clamp; it throws
 * when a coordinate is out of range and otherwise returns nothing.
 */
module Geo {
  import opened Js

  const LatitudeError: string := "Latitude inválida"
  const LongitudeError: string := "Longitude inválida"

  /** The outcome of the call: `None` when it returns, the error message when it throws. */
  function ClampLatLng(lat: JsNum, lng: JsNum): (thrown: Option<string>)
    ensures thrown == Some(LatitudeError) <==> Less(lat, Finite(-90.0)) || Less(Finite(90.0), lat)
    ensures thrown == Some(LongitudeError) <==>
              !(Less(lat, Finite(-90.0)) || Less(Finite(90.0), lat))
              && (Less(lng, Finite(-180.0)) || Less(Finite(180.0), lng))
    ensures thrown.None? || thrown == Some(LatitudeError) || thrown == Some(LongitudeError)
  {
    if Less(lat, Finite(-90.0)) || Less(Finite(90.0), lat) then Some(LatitudeError)
    else if Less(lng, Finite(-180.0)) || Less(Finite(180.0), lng) then Some(LongitudeError)
    else None
  }

  /** For finite coordinates the call returns exactly when both lie in their closed ranges. */
  lemma FiniteInRange(lat: real, lng: real)
    ensures ClampLatLng(Finite(lat), Finite(lng)).None? <==> -90.0 <= lat <= 90.0 && -180.0 <= lng <= 180.0
  {
  }

  /** The bounds themselves are accepted. */
  lemma BoundsInclusive()
    ensures ClampLatLng(Finite(-90.0), Finite(-180.0)).None?
    ensures ClampLatLng(Finite(90.0), Finite(180.0)).None?
  {
  }

  /** When both coordinates are out of range the latitude error is the one thrown. */
  lemma LatitudeFirst(lat: real, lng: real)
    requires lat > 90.0 || lat < -90.0
    ensures ClampLatLng(Finite(lat), Finite(lng)) == Some(LatitudeError)
  {
  }

  /** NaN fails every comparison, so a NaN coordinate is let through; infinities are not. */
  lemma NotANumberPasses()
    ensures ClampLatLng(NaN, NaN).None?
    ensures ClampLatLng(Infinity, Finite(0.0)) == Some(LatitudeError)
    ensures ClampLatLng(Finite(0.0), NegInfinity) == Some(LongitudeError)
  {
  }
}
