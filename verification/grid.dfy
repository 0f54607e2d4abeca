/** The grid model: a decoded message's description, its extent and the
    per-axis spacing that the nearest-point lookup indexes with. */
module Grid {
  import opened Results

  /** A closed coordinate interval from a first to a last grid point, in degrees. */
  datatype Bounds = Bounds(first: real, last: real) {
    predicate Contains(x: real) {
      first <= x <= last
    }
  }

  /** The grid extent `[lastLon - firstLon, lastLat - firstLat]`: longitude first. */
  datatype Span = Span(lon: real, lat: real)

  /** The two spacing components, in the order `calcDistPontos` in read.py
      returns them. `lonStep` (index 0)
      is the longitude span over `Nj`; `latStep` (index 1) is the latitude
      span over `Ni`. */
  datatype Spacing = Spacing(lonStep: real, latStep: real)

  /** The attributes the extractor reads from one decoded message, held
      immutable for the whole sweep. `iIncrement` and `jIncrement` are the
      message's `iDirectionIncrementInDegrees` and
      `jDirectionIncrementInDegrees`; `values` is the flat field array. */
  datatype Message = Message(
    lats: Bounds,
    lons: Bounds,
    ni: int,
    nj: int,
    iIncrement: real,
    jIncrement: real,
    numberOfValues: int,
    values: seq<real>)

  /** The grid extent. Adding it to the first corner gives the last corner on
      each axis, with longitude in the first component. */
  function GridSpan(lats: Bounds, lons: Bounds): (s: Span)
    ensures lons.first + s.lon == lons.last
    ensures lats.first + s.lat == lats.last
    ensures s.lon >= 0.0 <==> lons.first <= lons.last
    ensures s.lat >= 0.0 <==> lats.first <= lats.last
  {
    Span(lons.last - lons.first, lats.last - lats.first)
  }

  /** The spacing of the grid points. It divides the longitude span by `Nj`
      and the latitude span by `Ni` (the counts are crossed over), and fails
      with a float division by zero when either count is zero. */
  function PointSpacing(s: Span, ni: int, nj: int): (r: Result<Spacing>)
    ensures r.Err? <==> ni == 0 || nj == 0
    ensures r.Err? ==> r.error == ZeroDivision
    ensures r.Ok? ==> r.value.lonStep * (nj as real) == s.lon
    ensures r.Ok? ==> r.value.latStep * (ni as real) == s.lat
  {
    if nj == 0 || ni == 0 then Err(ZeroDivision)
    else Ok(Spacing(s.lon / (nj as real), s.lat / (ni as real)))
  }

  /** With positive counts the spacing has the sign of the span it divides. */
  lemma SpacingSign(s: Span, ni: int, nj: int)
    requires ni > 0 && nj > 0
    ensures PointSpacing(s, ni, nj).Ok?
    ensures PointSpacing(s, ni, nj).value.lonStep > 0.0 <==> s.lon > 0.0
    ensures PointSpacing(s, ni, nj).value.latStep > 0.0 <==> s.lat > 0.0
  {
  }

  /** The counts are crossed over: when `Ni` and `Nj` differ and the spans are
      non-zero, neither component equals the straight pairing `lonSpan / Ni`,
      `latSpan / Nj`. */
  lemma SpacingIsCrossPaired(s: Span, ni: int, nj: int)
    requires ni != 0 && nj != 0 && ni != nj
    requires s.lon != 0.0 && s.lat != 0.0
    ensures PointSpacing(s, ni, nj).Ok?
    ensures PointSpacing(s, ni, nj).value.lonStep != s.lon / (ni as real)
    ensures PointSpacing(s, ni, nj).value.latStep != s.lat / (nj as real)
  {
  }

  /** Dividing a span by its own spacing gives back the count it was divided
      by: the last grid point lies `Nj` longitude steps and `Ni` latitude
      steps from the first. */
  lemma SpanOverSpacing(s: Span, ni: int, nj: int)
    requires ni != 0 && nj != 0
    requires s.lon != 0.0 && s.lat != 0.0
    ensures PointSpacing(s, ni, nj).Ok?
    ensures s.lon / PointSpacing(s, ni, nj).value.lonStep == nj as real
    ensures s.lat / PointSpacing(s, ni, nj).value.latStep == ni as real
  {
    var d := PointSpacing(s, ni, nj).value;
    assert d.lonStep != 0.0;
    assert d.latStep != 0.0;
  }
}
