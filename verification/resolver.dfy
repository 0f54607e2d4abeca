/** The nearest-point resolver: for one query (lat, lon) it finds the four
    candidate grid points around the query, picks the nearest and reads the
    field value at that candidate's position. */
module Resolver {
  import opened Results
  import opened Rounding
  import opened Grid

  /** Two candidates on one axis, in list order. */
  datatype Pair<T> = Pair(first: T, second: T)

  /** Element `k` (0 or 1) of a pair. */
  function Pick<T>(p: Pair<T>, k: int): (x: T) {
    if k == 0 then p.first else p.second
  }

  /** The shape of every candidate index pair: the first is at least 1 and
      the second is the first or the one just below it, never negative. */
  predicate Bracketing(p: Pair<int>) {
    1 <= p.first && 0 <= p.second <= p.first <= p.second + 1
  }

  /** Candidate indices per axis, longitude first. */
  datatype Indices = Indices(lon: Pair<int>, lat: Pair<int>)

  /** Candidate coordinates per axis, longitude first. */
  datatype Points = Points(lon: Pair<real>, lat: Pair<real>)

  /** One entry of the distance list: the squared distance from the query,
      the candidate's coordinates and its position in the value array. */
  datatype Candidate = Candidate(dist: real, lat: real, lon: real, pos: int)

  /** What the extractor emits for one query point. */
  datatype Record = Record(latitude: real, longitude: real, value: real)

  /** Real multiplication with its sign rules stated as a contract. It adds
      nothing to `*`; it exists so that the solver, which does not find these
      non-linear facts on its own, gets them wherever `Sq` is used. */
  function Product(a: real, b: real): (r: real)
    ensures a > 0.0 && b > 0.0 ==> r > 0.0
    ensures a < 0.0 && b < 0.0 ==> r > 0.0
    ensures a == 0.0 || b == 0.0 ==> r == 0.0
  {
    a * b
  }

  /** The square of a coordinate difference (`** 2`): never negative, and
      zero only for a zero difference. */
  function Sq(x: real): (r: real)
    ensures r >= 0.0
    ensures x != 0.0 ==> r > 0.0
    ensures x == 0.0 ==> r == 0.0
  {
    Product(x, x)
  }

  /** The bounds check and raw index of one axis. A coordinate outside the
      bounds aborts the run; inside, the index is the coordinate's offset from
      the first grid point measured in steps and rounded to the nearest
      integer. A zero step is a float division by zero. */
  function RawIndex(coord: real, b: Bounds, step: real): (r: Result<int>)
    ensures r == Err(OutOfBounds) <==> !b.Contains(coord)
    ensures r == Err(ZeroDivision) <==> b.Contains(coord) && step == 0.0
    ensures r.Ok? <==> b.Contains(coord) && step != 0.0
    ensures r.Ok? ==> step != 0.0 && IsRounding((coord - b.first) / step, r.value)
    ensures r.Ok? && step > 0.0 ==> 0 <= r.value <= Round((b.last - b.first) / step)
  {
    if b.first <= coord && coord <= b.last then
      if step == 0.0 then Err(ZeroDivision)
      else
        RawIndexBounds(coord, b, step);
        Ok(Round((coord - b.first) / step))
    else
      Err(OutOfBounds)
  }

  /** With a positive step, the rounded offset of an in-bounds coordinate is
      at least 0 and at most the rounded offset of the last grid point. */
  lemma RawIndexBounds(coord: real, b: Bounds, step: real)
    requires b.Contains(coord) && step != 0.0
    ensures step > 0.0 ==> 0 <= Round((coord - b.first) / step) <= Round((b.last - b.first) / step)
  {
    if step > 0.0 {
      assert 0.0 <= (coord - b.first) / step <= (b.last - b.first) / step;
      RoundMonotone(0.0, (coord - b.first) / step);
      RoundMonotone((coord - b.first) / step, (b.last - b.first) / step);
    }
  }

  /** The two candidates of one axis. A raw index of zero or less is clamped
      to the pair (1, 1); any other gives the raw index and the one below it.
      So a candidate is never negative and is 0 only for a raw index of 1. */
  function CandidatePair(raw: int): (p: Pair<int>)
    ensures Bracketing(p)
    ensures raw <= 0 ==> p == Pair(1, 1)
    ensures raw >= 1 ==> p == Pair(raw, raw - 1)
    ensures p.first == p.second <==> raw <= 0
    ensures p.second == 0 <==> raw == 1
  {
    if raw <= 0 then Pair(1, 1) else Pair(raw, raw - 1)
  }

  /** How the candidates sit around a non-negative offset `x` (measured in
      steps) whose rounding is `raw`: the offset never lies more than half a
      step past the first candidate; from a raw index of 1 on it lies within
      half a step of the pair `raw, raw - 1`; and when it rounds to 0 the
      clamped pair lies more than half a step beyond it. */
  lemma {:induction false} CandidatePairAroundOffset(x: real, raw: int)
    requires x >= 0.0 && IsRounding(x, raw)
    ensures x <= (CandidatePair(raw).first as real) + 0.5
    ensures raw >= 1 ==> (CandidatePair(raw).second as real) + 0.5 <= x
    ensures raw <= 0 ==> x < (CandidatePair(raw).first as real) - 0.5
    ensures raw >= 0
  {
    var p := CandidatePair(raw);
    if raw <= 0 {
      assert x - (raw as real) < 0.5;
      assert raw == 0;
      assert p == Pair(1, 1);
    } else {
      assert p == Pair(raw, raw - 1);
      assert (p.second as real) + 0.5 == (raw as real) - 0.5;
    }
  }

  /** The candidate indices of a query. Longitude is indexed with the
      longitude step and checked first, so its failure takes precedence; the
      run fails exactly when a coordinate is out of bounds or a step is zero. */
  function CandidateIndices(lats: Bounds, lons: Bounds, lat: real, lon: real, d: Spacing): (r: Result<Indices>)
    ensures r.Ok? <==> lons.Contains(lon) && lats.Contains(lat) && d.lonStep != 0.0 && d.latStep != 0.0
    ensures r == Err(OutOfBounds) <==> !lons.Contains(lon) || (d.lonStep != 0.0 && !lats.Contains(lat))
    ensures r == Err(ZeroDivision) <==>
      lons.Contains(lon) && (d.lonStep == 0.0 || (lats.Contains(lat) && d.latStep == 0.0))
    ensures r.Ok? ==> Bracketing(r.value.lon) && Bracketing(r.value.lat)
    ensures r.Ok? ==> r.value == Indices(CandidatePair(Round((lon - lons.first) / d.lonStep)),
                                         CandidatePair(Round((lat - lats.first) / d.latStep)))
  {
    var lonRaw :- RawIndex(lon, lons, d.lonStep);
    var latRaw :- RawIndex(lat, lats, d.latStep);
    Ok(Indices(CandidatePair(lonRaw), CandidatePair(latRaw)))
  }

  /** With positive steps, the candidate indices of an in-bounds query
      surround its offsets: on each axis the offset in steps lies at most
      half a step past the first candidate and, unless the clamp applied, at
      least half a step past the second. */
  lemma CandidateIndicesAroundQuery(lats: Bounds, lons: Bounds, lat: real, lon: real, d: Spacing)
    requires lats.Contains(lat) && lons.Contains(lon)
    requires d.lonStep > 0.0 && d.latStep > 0.0
    ensures CandidateIndices(lats, lons, lat, lon, d).Ok?
    ensures var idx := CandidateIndices(lats, lons, lat, lon, d).value;
      && (lon - lons.first) / d.lonStep <= (idx.lon.first as real) + 0.5
      && (lat - lats.first) / d.latStep <= (idx.lat.first as real) + 0.5
      && (idx.lon.first != idx.lon.second ==> (idx.lon.second as real) + 0.5 <= (lon - lons.first) / d.lonStep)
      && (idx.lat.first != idx.lat.second ==> (idx.lat.second as real) + 0.5 <= (lat - lats.first) / d.latStep)
  {
    var x, y := (lon - lons.first) / d.lonStep, (lat - lats.first) / d.latStep;
    assert x >= 0.0 && y >= 0.0;
    CandidatePairAroundOffset(x, Round(x));
    CandidatePairAroundOffset(y, Round(y));
  }

  /** The coordinates of the candidates. Each axis places its indices with
      the OTHER axis's step: longitude candidates are spaced by the latitude
      step and latitude candidates by the longitude step. With a non-negative
      step, both candidates lie at or beyond the first grid point, the first
      candidate at or beyond the second, at most one step apart. */
  function CandidatePoints(idx: Indices, d: Spacing, lats: Bounds, lons: Bounds): (p: Points)
    ensures forall k :: 0 <= k < 2 ==> Pick(p.lon, k) - lons.first == (Pick(idx.lon, k) as real) * d.latStep
    ensures forall k :: 0 <= k < 2 ==> Pick(p.lat, k) - lats.first == (Pick(idx.lat, k) as real) * d.lonStep
    ensures Bracketing(idx.lon) && d.latStep >= 0.0 ==>
      && lons.first <= p.lon.second <= p.lon.first
      && (p.lon.first == p.lon.second || p.lon.first - p.lon.second == d.latStep)
    ensures Bracketing(idx.lat) && d.lonStep >= 0.0 ==>
      && lats.first <= p.lat.second <= p.lat.first
      && (p.lat.first == p.lat.second || p.lat.first - p.lat.second == d.lonStep)
  {
    ScaledPair(idx.lon, d.latStep);
    ScaledPair(idx.lat, d.lonStep);
    Points(
      Pair(lons.first + (idx.lon.first as real) * d.latStep, lons.first + (idx.lon.second as real) * d.latStep),
      Pair(lats.first + (idx.lat.first as real) * d.lonStep, lats.first + (idx.lat.second as real) * d.lonStep))
  }

  /** Scaling a bracketing pair by a non-negative step keeps it ordered,
      non-negative and at most one step apart. */
  lemma ScaledPair(p: Pair<int>, step: real)
    ensures Bracketing(p) && step >= 0.0 ==>
      && 0.0 <= (p.second as real) * step <= (p.first as real) * step
      && ((p.first as real) * step == (p.second as real) * step
          || (p.first as real) * step - (p.second as real) * step == step)
  {
    if Bracketing(p) && step >= 0.0 {
      assert (p.first as real) * step - (p.second as real) * step == ((p.first - p.second) as real) * step;
      if p.first == p.second + 1 {
        assert ((p.first - p.second) as real) * step == step;
      }
    }
  }

  /** A non-zero index scaled by two different steps lands on two different
      coordinates from the same origin. */
  lemma ScaleByDifferentSteps(origin: real, i: int, s: real, t: real)
    requires i != 0 && s != t
    ensures origin + (i as real) * s != origin + (i as real) * t
  {
    var x := i as real;
    assert x * s - x * t == x * (s - t);
    if x > 0.0 {
      if s > t { assert x * (s - t) > 0.0; } else { assert x * (s - t) < 0.0; }
    } else {
      if s > t { assert x * (s - t) < 0.0; } else { assert x * (s - t) > 0.0; }
    }
  }

  /** The spacing swap is visible: when the two steps differ, a non-zero
      longitude candidate index does not land on the longitude that index
      denotes with the longitude step. */
  lemma CandidateLonSwapsSteps(idx: Indices, d: Spacing, lats: Bounds, lons: Bounds)
    requires d.lonStep != d.latStep && idx.lon.first != 0
    ensures CandidatePoints(idx, d, lats, lons).lon.first != lons.first + (idx.lon.first as real) * d.lonStep
  {
    var x := CandidatePoints(idx, d, lats, lons).lon.first;
    var own := lons.first + (idx.lon.first as real) * d.lonStep;
    assert x == lons.first + (idx.lon.first as real) * d.latStep;
    ScaleByDifferentSteps(lons.first, idx.lon.first, d.latStep, d.lonStep);
    assert x != own;
  }

  /** Likewise a non-zero latitude candidate index does not land on the
      latitude that index denotes with the latitude step. */
  lemma CandidateLatSwapsSteps(idx: Indices, d: Spacing, lats: Bounds, lons: Bounds)
    requires d.lonStep != d.latStep && idx.lat.first != 0
    ensures CandidatePoints(idx, d, lats, lons).lat.first != lats.first + (idx.lat.first as real) * d.latStep
  {
    var x := CandidatePoints(idx, d, lats, lons).lat.first;
    var own := lats.first + (idx.lat.first as real) * d.latStep;
    assert x == lats.first + (idx.lat.first as real) * d.lonStep;
    ScaleByDifferentSteps(lats.first, idx.lat.first, d.lonStep, d.latStep);
    assert x != own;
  }

  /** One distance record of `calcDistancia` in read.py for the candidate at
      (`candLat`, `candLon`) with position `pos`. */
  function MakeCandidate(lat: real, lon: real, candLat: real, candLon: real, pos: int): (c: Candidate)
    ensures c.lat == candLat && c.lon == candLon && c.pos == pos
    ensures c.dist == Sq(lon - candLon) + Sq(lat - candLat)
    ensures 0.0 <= c.dist && (c.dist == 0.0 <==> candLat == lat && candLon == lon)
  {
    Candidate(Sq(lon - candLon) + Sq(lat - candLat), candLat, candLon, pos)
  }

  /** The distance list: exactly four records, longitude candidate in the
      outer position and latitude candidate in the inner one, so record `k`
      pairs longitude candidate `k / 2` with latitude candidate `k % 2`. Each
      distance is the squared distance from the query, zero exactly at the
      query itself, and each position is the PRODUCT of the record's latitude
      and longitude indices. */
  function CandidateDistances(lat: real, lon: real, pts: Points, idx: Indices): (r: seq<Candidate>)
    ensures |r| == 4
    ensures forall k :: 0 <= k < 4 ==> r[k].lon == Pick(pts.lon, k / 2) && r[k].lat == Pick(pts.lat, k % 2)
    ensures forall k :: 0 <= k < 4 ==> r[k].pos == Pick(idx.lat, k % 2) * Pick(idx.lon, k / 2)
    ensures forall k :: 0 <= k < 4 ==> r[k].dist == Sq(lon - r[k].lon) + Sq(lat - r[k].lat)
    ensures forall k :: 0 <= k < 4 ==> 0.0 <= r[k].dist && (r[k].dist == 0.0 <==> r[k].lat == lat && r[k].lon == lon)
  {
    [ MakeCandidate(lat, lon, pts.lat.first, pts.lon.first, idx.lat.first * idx.lon.first),
      MakeCandidate(lat, lon, pts.lat.second, pts.lon.first, idx.lat.second * idx.lon.first),
      MakeCandidate(lat, lon, pts.lat.first, pts.lon.second, idx.lat.first * idx.lon.second),
      MakeCandidate(lat, lon, pts.lat.second, pts.lon.second, idx.lat.second * idx.lon.second) ]
  }

  /** `k` is where the minimum distance of `cs` first occurs. */
  predicate IsFirstNearest(cs: seq<Candidate>, k: int) {
    && 0 <= k < |cs|
    && (forall j :: 0 <= j < |cs| ==> cs[k].dist <= cs[j].dist)
    && (forall j :: 0 <= j < k ==> cs[j].dist > cs[k].dist)
  }

  /** At most one index is the first occurrence of the minimum, so ties are
      resolved deterministically. */
  lemma FirstNearestUnique(cs: seq<Candidate>, a: int, b: int)
    requires IsFirstNearest(cs, a) && IsFirstNearest(cs, b)
    ensures a == b
  {
    assert cs[a].dist == cs[b].dist;
  }

  /** The selection as a left-to-right scan that replaces the current best
      only on a strictly smaller distance: the result is the first index at
      which the minimum distance occurs. */
  function NearestIndex(cs: seq<Candidate>): (k: nat)
    requires |cs| > 0
    ensures IsFirstNearest(cs, k)
    decreases |cs|
  {
    if |cs| == 1 then 0
    else
      var k := NearestIndex(cs[..|cs| - 1]);
      if cs[|cs| - 1].dist < cs[k].dist then |cs| - 1 else k
  }

  /** The selection loop itself: it keeps the first record and replaces it
      only by a record with a strictly smaller distance. */
  method Nearest(cs: seq<Candidate>) returns (best: Candidate)
    requires |cs| > 0
    ensures best in cs
    ensures forall j :: 0 <= j < |cs| ==> best.dist <= cs[j].dist
    ensures best == cs[NearestIndex(cs)]
  {
    best := cs[0];
    for i := 1 to |cs|
      invariant best == cs[NearestIndex(cs[..i])]
    {
      assert cs[..i + 1][..i] == cs[..i];
      if cs[i].dist < best.dist {
        best := cs[i];
      }
    }
    assert cs[..|cs|] == cs;
  }

  /** The value read for a position: `values[pos - 1]` under Python
      indexing, so a position is a 1-based ordinal, position 0 reads the last
      value, and only indices outside `-|values| .. |values| - 1` fail. */
  function ValueAt(values: seq<real>, pos: int): (r: Result<real>)
    ensures r.Ok? <==> 1 - |values| <= pos <= |values|
    ensures 1 <= pos <= |values| ==> r == Ok(values[pos - 1])
    ensures pos <= 0 && r.Ok? ==> r == Ok(values[|values| + pos - 1])
    ensures r.Ok? ==> r.value in values
    ensures r.Err? ==> r.error == IndexError
  {
    var i := pos - 1;
    if 0 <= i < |values| then Ok(values[i])
    else if -|values| <= i < 0 then Ok(values[|values| + i])
    else Err(IndexError)
  }

  /** The four candidates of a query, or the error that aborts before them. */
  function Candidates(lats: Bounds, lons: Bounds, d: Spacing, lat: real, lon: real): (r: Result<seq<Candidate>>)
    ensures r.Ok? <==> CandidateIndices(lats, lons, lat, lon, d).Ok?
    ensures r.Err? ==> r.error == CandidateIndices(lats, lons, lat, lon, d).error
    ensures r.Ok? ==> |r.value| == 4
  {
    var idx :- CandidateIndices(lats, lons, lat, lon, d);
    Ok(CandidateDistances(lat, lon, CandidatePoints(idx, d, lats, lons), idx))
  }

  /** One query resolved: the first nearest of its four candidates, with the
      field value read at that candidate's position. With non-zero steps the
      run aborts as out of bounds exactly when the query leaves the grid; an
      in-bounds query can still fail on the value read, and only there. */
  function Resolve(lats: Bounds, lons: Bounds, d: Spacing, values: seq<real>, lat: real, lon: real): (r: Result<Record>)
    ensures d.lonStep != 0.0 && d.latStep != 0.0 ==>
      (r == Err(OutOfBounds) <==> !(lons.Contains(lon) && lats.Contains(lat)))
    ensures Candidates(lats, lons, d, lat, lon).Err? ==> r == Err(Candidates(lats, lons, d, lat, lon).error)
    ensures r.Err? ==> (r.error == IndexError <==> Candidates(lats, lons, d, lat, lon).Ok?)
    ensures r.Ok? ==> r.value.value in values
    ensures r.Ok? ==>
      && Candidates(lats, lons, d, lat, lon).Ok?
      && var cs := Candidates(lats, lons, d, lat, lon).value;
         exists k :: IsFirstNearest(cs, k)
           && r.value.latitude == cs[k].lat && r.value.longitude == cs[k].lon
           && ValueAt(values, cs[k].pos) == Ok(r.value.value)
    ensures Candidates(lats, lons, d, lat, lon).Ok? ==>
      var cs := Candidates(lats, lons, d, lat, lon).value;
      (r.Ok? <==> ValueAt(values, cs[NearestIndex(cs)].pos).Ok?)
  {
    var cs :- Candidates(lats, lons, d, lat, lon);
    var best := cs[NearestIndex(cs)];
    var v :- ValueAt(values, best.pos);
    Ok(Record(best.lat, best.lon, v))
  }

  /** The resolution is determined by the selection rule alone: whenever
      the candidate at `k` is the first nearest and the value at its
      position can be read, the query resolves to that candidate and that
      value. */
  lemma ResolveIsFirstNearest(lats: Bounds, lons: Bounds, d: Spacing, values: seq<real>, lat: real, lon: real)
    requires Candidates(lats, lons, d, lat, lon).Ok?
    ensures var cs := Candidates(lats, lons, d, lat, lon).value;
      forall k :: IsFirstNearest(cs, k) && ValueAt(values, cs[k].pos).Ok? ==>
        Resolve(lats, lons, d, values, lat, lon) == Ok(Record(cs[k].lat, cs[k].lon, ValueAt(values, cs[k].pos).value))
  {
    var cs := Candidates(lats, lons, d, lat, lon).value;
    forall k | IsFirstNearest(cs, k) && ValueAt(values, cs[k].pos).Ok?
      ensures Resolve(lats, lons, d, values, lat, lon) == Ok(Record(cs[k].lat, cs[k].lon, ValueAt(values, cs[k].pos).value))
    {
      FirstNearestUnique(cs, k, NearestIndex(cs));
    }
  }

  /** Products of bounded non-negative integers are bounded by the product of the bounds. */
  lemma ProductBound(a: int, b: int, m: int, n: int)
    requires 0 <= a <= m && 0 <= b <= n
    ensures 0 <= a * b <= m * n
  {
    assert a * b <= m * b;
    assert m * b <= m * n;
  }

  /** On a complete grid (both spans positive, `Ni` and `Nj` at least 1 and
      `Ni * Nj` values) every in-bounds query resolves. The raw indices stay
      within `0 .. Nj` for longitude and `0 .. Ni` for latitude, so every
      position lies in `0 .. Ni * Nj`, and `values[pos - 1]` can read each. */
  lemma ResolveTotalOnCompleteGrid(lats: Bounds, lons: Bounds, ni: int, nj: int, values: seq<real>, lat: real, lon: real)
    requires lats.first < lats.last && lons.first < lons.last
    requires ni >= 1 && nj >= 1 && |values| == ni * nj
    requires lats.Contains(lat) && lons.Contains(lon)
    ensures PointSpacing(GridSpan(lats, lons), ni, nj).Ok?
    ensures Resolve(lats, lons, PointSpacing(GridSpan(lats, lons), ni, nj).value, values, lat, lon).Ok?
  {
    var s := GridSpan(lats, lons);
    var d := PointSpacing(s, ni, nj).value;
    SpacingSign(s, ni, nj);
    SpanOverSpacing(s, ni, nj);
    RoundOfInt(nj);
    RoundOfInt(ni);
    var lonRaw := RawIndex(lon, lons, d.lonStep).value;
    var latRaw := RawIndex(lat, lats, d.latStep).value;
    assert 0 <= lonRaw <= nj;
    assert 0 <= latRaw <= ni;
    var idx := CandidateIndices(lats, lons, lat, lon, d).value;
    assert idx == Indices(CandidatePair(lonRaw), CandidatePair(latRaw));
    var cs := Candidates(lats, lons, d, lat, lon).value;
    var k := NearestIndex(cs);
    ProductBound(Pick(idx.lat, k % 2), Pick(idx.lon, k / 2), ni, nj);
    assert 0 <= cs[k].pos <= ni * nj;
  }
}
