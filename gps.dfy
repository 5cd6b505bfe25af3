/** Reading the GPS position out of decoded EXIF data: degrees, minutes and
    seconds become decimal degrees, negated in the southern and western
    hemispheres. */
module Gps {
  import opened Text

  /** A value of the GPS dictionary: a sequence of numbers (the rationals of
      a coordinate, as floats) or a text (a hemisphere reference). */
  datatype GpsValue = Numbers(xs: seq<real>) | Word(w: string)

  /** A value of the EXIF dictionary: the GPS sub-dictionary, or any other
      tag's value. */
  datatype ExifEntry = GpsInfo(tags: map<string, GpsValue>) | OtherTag

  /** Why reading the position raised: the GPS dictionary lacks a key, a
      coordinate is not three numbers, or the GPS entry is not a dictionary. */
  datatype GpsError = MissingKey(key: string) | NotThreeNumbers(key: string) | NotADictionary

  datatype Result<T> = Success(value: T) | Failure(error: GpsError)

  /** `float(d) + float(m)/60 + float(s)/3600` */
  function ToDegrees(d: real, m: real, s: real): real
  {
    d + m / 60.0 + s / 3600.0
  }

  /** `convert_to_degrees(gps_info[key])`: the value must be there and unpack
      into three numbers. */
  function Coordinate(gps: map<string, GpsValue>, key: string): (r: Result<real>)
    ensures r.Success? <==> key in gps && gps[key].Numbers? && |gps[key].xs| == 3
    ensures r.Success? ==> r.value == ToDegrees(gps[key].xs[0], gps[key].xs[1], gps[key].xs[2])
  {
    if key !in gps then Failure(MissingKey(key))
    else match gps[key]
      case Numbers(xs) => if |xs| == 3 then Success(ToDegrees(xs[0], xs[1], xs[2])) else Failure(NotThreeNumbers(key))
      case Word(_) => Failure(NotThreeNumbers(key))
  }

  /** `gps_info.get(key) == value` */
  predicate RefIs(gps: map<string, GpsValue>, key: string, value: string)
  {
    key in gps && gps[key] == Word(value)
  }

  /** `get_lat_lon`: `Success(None)` is `(None, None)`. The latitude is read
      before the longitude, so a missing latitude is the error reported. */
  function GetLatLon(exif: Option<map<string, ExifEntry>>): Result<Option<(real, real)>>
  {
    if exif.None? || exif.value == map[] || "GPSInfo" !in exif.value then Success(None)
    else match exif.value["GPSInfo"]
      case OtherTag => Failure(NotADictionary)
      case GpsInfo(gps) =>
        match (Coordinate(gps, "GPSLatitude"), Coordinate(gps, "GPSLongitude"))
        case (Failure(e), _) => Failure(e)
        case (_, Failure(e)) => Failure(e)
        case (Success(lat), Success(lon)) =>
          Success(Some((if RefIs(gps, "GPSLatitudeRef", "S") then -lat else lat,
                        if RefIs(gps, "GPSLongitudeRef", "W") then -lon else lon)))
  }

  /** No position is reported exactly when there is no EXIF data, it is
      empty, or it has no GPS entry. */
  lemma NoPosition(exif: Option<map<string, ExifEntry>>)
    ensures GetLatLon(exif) == Success(None) <==> exif.None? || exif.value == map[] || "GPSInfo" !in exif.value
  {
  }

  /** When the GPS entry is there, reading succeeds exactly when both
      coordinates are present as three numbers, and the result is the two
      decimal-degree values, negated for "S" and "W" only. */
  lemma PositionRead(exif: map<string, ExifEntry>, gps: map<string, GpsValue>)
    requires "GPSInfo" in exif && exif["GPSInfo"] == GpsInfo(gps)
    ensures GetLatLon(Some(exif)).Success? <==>
      && "GPSLatitude" in gps && gps["GPSLatitude"].Numbers? && |gps["GPSLatitude"].xs| == 3
      && "GPSLongitude" in gps && gps["GPSLongitude"].Numbers? && |gps["GPSLongitude"].xs| == 3
    ensures GetLatLon(Some(exif)).Success? ==>
      var lat, lon := gps["GPSLatitude"].xs, gps["GPSLongitude"].xs;
      && GetLatLon(Some(exif)).value.Some?
      && GetLatLon(Some(exif)).value.value.0
         == (if RefIs(gps, "GPSLatitudeRef", "S") then -1.0 else 1.0) * ToDegrees(lat[0], lat[1], lat[2])
      && GetLatLon(Some(exif)).value.value.1
         == (if RefIs(gps, "GPSLongitudeRef", "W") then -1.0 else 1.0) * ToDegrees(lon[0], lon[1], lon[2])
  {
    assert exif != map[];
  }

  /** With non-negative components, minutes and seconds below 60, a
      coordinate lies in [d, d + 1 + 1/60): the degrees dominate. */
  lemma DegreesBounds(d: real, m: real, s: real)
    requires 0.0 <= m < 60.0 && 0.0 <= s < 60.0
    ensures d <= ToDegrees(d, m, s) < d + 1.0 + 1.0 / 60.0
  {
  }

  /** With non-negative components, the sign of the result is the
      hemisphere: negative exactly for a non-zero southern latitude. */
  lemma LatitudeSign(exif: map<string, ExifEntry>, gps: map<string, GpsValue>)
    requires "GPSInfo" in exif && exif["GPSInfo"] == GpsInfo(gps)
    requires GetLatLon(Some(exif)).Success?
    requires forall k :: 0 <= k < |gps["GPSLatitude"].xs| ==> gps["GPSLatitude"].xs[k] >= 0.0
    ensures GetLatLon(Some(exif)).value.Some?
    ensures GetLatLon(Some(exif)).value.value.0 < 0.0
        <==> RefIs(gps, "GPSLatitudeRef", "S") && ToDegrees(gps["GPSLatitude"].xs[0], gps["GPSLatitude"].xs[1], gps["GPSLatitude"].xs[2]) > 0.0
  {
    PositionRead(exif, gps);
  }

  /** Likewise the longitude is negative exactly for a non-zero western one. */
  lemma LongitudeSign(exif: map<string, ExifEntry>, gps: map<string, GpsValue>)
    requires "GPSInfo" in exif && exif["GPSInfo"] == GpsInfo(gps)
    requires GetLatLon(Some(exif)).Success?
    requires forall k :: 0 <= k < |gps["GPSLongitude"].xs| ==> gps["GPSLongitude"].xs[k] >= 0.0
    ensures GetLatLon(Some(exif)).value.Some?
    ensures GetLatLon(Some(exif)).value.value.1 < 0.0
        <==> RefIs(gps, "GPSLongitudeRef", "W") && ToDegrees(gps["GPSLongitude"].xs[0], gps["GPSLongitude"].xs[1], gps["GPSLongitude"].xs[2]) > 0.0
  {
    PositionRead(exif, gps);
  }
}
