/** The sweep driver: the loop that walks latitude and longitude from the
    first grid point in increment-sized steps, resolving every point it
    visits and collecting one record per point. Coordinates are exact reals,
    so the loop's exact-equality test behaves as it would without rounding
    error. */
module Driver {
  import opened Results
  import opened Grid
  import opened Resolver

  /** A point visited by the sweep. */
  datatype Query = Query(lat: real, lon: real)

  /** Increments with which the loop is known to terminate. */
  predicate PositiveIncrements(m: Message) {
    m.iIncrement > 0.0 && m.jIncrement > 0.0
  }

  /** The loop condition `lat <= l_lat and lon <= l_lon`. */
  predicate InSweep(m: Message, q: Query) {
    q.lat <= m.lats.last && q.lon <= m.lons.last
  }

  /** The update at the end of an iteration. Latitude advances by the
      i-direction increment while it is below the last latitude; exactly at
      the last latitude, longitude advances by the j-direction increment and
      latitude restarts from the first. */
  function Advance(m: Message, q: Query): (next: Query)
    requires q.lat <= m.lats.last
  {
    if q.lat < m.lats.last then Query(q.lat + m.iIncrement, q.lon)
    else Query(m.lats.first, q.lon + m.jIncrement)
  }

  /** How many values `x, x + inc, x + 2 * inc, ...` are at most `hi`. */
  function StepsLeft(x: real, hi: real, inc: real): (n: nat)
    requires inc > 0.0
  {
    if x <= hi then ((hi - x) / inc).Floor + 1 else 0
  }

  /** Taking one step uses up one of the steps left. */
  lemma StepsLeftDecreases(x: real, hi: real, inc: real)
    requires inc > 0.0 && x <= hi
    ensures StepsLeft(x + inc, hi, inc) < StepsLeft(x, hi, inc)
  {
    var a := hi - x;
    assert (a - inc) / inc == a / inc - inc / inc;
    assert inc / inc == 1.0;
    assert hi - (x + inc) == a - inc;
  }

  /** `qs` is the trace of the loop started at `q`: it visits `q` first if
      `q` satisfies the loop condition, each later point is the update of the
      one before, every point satisfies the loop condition, and the update of
      the last point does not. */
  predicate IsTrace(m: Message, q: Query, qs: seq<Query>) {
    && (|qs| == 0 <==> !InSweep(m, q))
    && (|qs| > 0 ==> qs[0] == q)
    && (forall i :: 0 <= i < |qs| ==> InSweep(m, qs[i]))
    && (forall i :: 0 <= i < |qs| - 1 ==> qs[i + 1] == Advance(m, qs[i]))
    && (|qs| > 0 ==> !InSweep(m, Advance(m, qs[|qs| - 1])))
  }

  /** The points visited by the loop from `q` on, in visiting order. */
  function Visit(m: Message, q: Query): (qs: seq<Query>)
    requires PositiveIncrements(m)
    decreases StepsLeft(q.lon, m.lons.last, m.jIncrement), StepsLeft(q.lat, m.lats.last, m.iIncrement)
  {
    if InSweep(m, q) then
      StepsLeftDecreases(q.lat, m.lats.last, m.iIncrement);
      StepsLeftDecreases(q.lon, m.lons.last, m.jIncrement);
      [q] + Visit(m, Advance(m, q))
    else
      []
  }

  /** `Visit` follows the loop's rules: it is a trace of the loop from `q`. */
  lemma {:induction false} VisitIsTrace(m: Message, q: Query)
    requires PositiveIncrements(m)
    ensures IsTrace(m, q, Visit(m, q))
    decreases StepsLeft(q.lon, m.lons.last, m.jIncrement), StepsLeft(q.lat, m.lats.last, m.iIncrement)
  {
    if InSweep(m, q) {
      StepsLeftDecreases(q.lat, m.lats.last, m.iIncrement);
      StepsLeftDecreases(q.lon, m.lons.last, m.jIncrement);
      var next := Advance(m, q);
      VisitIsTrace(m, next);
      var rest := Visit(m, next);
      var qs := Visit(m, q);
      assert qs == [q] + rest;
      forall i | 0 <= i < |qs| - 1
        ensures qs[i + 1] == Advance(m, qs[i])
      {
        if i > 0 {
          assert qs[i + 1] == rest[i] && qs[i] == rest[i - 1];
        }
      }
    }
  }

  /** The points visited by the whole sweep, which starts at the first grid point. */
  function Sweep(m: Message): (qs: seq<Query>)
    requires PositiveIncrements(m)
  {
    Visit(m, Query(m.lats.first, m.lons.first))
  }

  /** The loop has exactly one trace: whatever sequence obeys the loop's
      rules from `q` is the one `Visit` computes. */
  lemma {:induction false} TraceUnique(m: Message, q: Query, qs: seq<Query>)
    requires PositiveIncrements(m)
    requires IsTrace(m, q, qs)
    ensures qs == Visit(m, q)
    decreases |qs|
  {
    if |qs| > 0 {
      var rest := qs[1..];
      var next := Advance(m, q);
      if |rest| > 0 {
        assert rest[0] == qs[1] == next;
        forall i | 0 <= i < |rest| - 1
          ensures rest[i + 1] == Advance(m, rest[i])
        {
          assert rest[i + 1] == qs[i + 2] && rest[i] == qs[i + 1];
        }
        assert IsTrace(m, next, rest);
      } else {
        assert !InSweep(m, next);
      }
      TraceUnique(m, next, rest);
      assert qs == [q] + rest;
    }
  }

  /** A sweep that starts at or beyond the first grid point on both axes
      stays inside the grid's bounds. */
  lemma {:induction false} VisitInBounds(m: Message, q: Query)
    requires PositiveIncrements(m)
    requires m.lats.first <= q.lat && m.lons.first <= q.lon
    ensures forall i :: 0 <= i < |Visit(m, q)| ==>
      m.lats.Contains(Visit(m, q)[i].lat) && m.lons.Contains(Visit(m, q)[i].lon)
    decreases StepsLeft(q.lon, m.lons.last, m.jIncrement), StepsLeft(q.lat, m.lats.last, m.iIncrement)
  {
    if InSweep(m, q) {
      StepsLeftDecreases(q.lat, m.lats.last, m.iIncrement);
      StepsLeftDecreases(q.lon, m.lons.last, m.jIncrement);
      var next := Advance(m, q);
      VisitInBounds(m, next);
      var qs := Visit(m, q);
      assert qs == [q] + Visit(m, next);
      forall i | 0 <= i < |qs|
        ensures m.lats.Contains(qs[i].lat) && m.lons.Contains(qs[i].lon)
      {
        if i > 0 {
          assert qs[i] == Visit(m, next)[i - 1];
        }
      }
    }
  }

  /** Every point of the sweep lies in `[firstLat, lastLat] x [firstLon, lastLon]`. */
  lemma SweepInBounds(m: Message)
    requires PositiveIncrements(m)
    ensures forall i :: 0 <= i < |Sweep(m)| ==>
      m.lats.Contains(Sweep(m)[i].lat) && m.lons.Contains(Sweep(m)[i].lon)
  {
    VisitInBounds(m, Query(m.lats.first, m.lons.first));
  }

  /** How the sweep moves between consecutive points: longitude changes
      exactly when the latitude is the last latitude, and then latitude
      restarts from the first; otherwise latitude advances by one increment.
      A latitude step that overshoots the last latitude ends the sweep. */
  lemma SweepStepRules(m: Message)
    requires PositiveIncrements(m)
    ensures forall i :: 0 <= i < |Sweep(m)| - 1 ==>
      (Sweep(m)[i + 1].lon != Sweep(m)[i].lon <==> Sweep(m)[i].lat == m.lats.last)
    ensures forall i :: 0 <= i < |Sweep(m)| - 1 && Sweep(m)[i].lat == m.lats.last ==>
      Sweep(m)[i + 1] == Query(m.lats.first, Sweep(m)[i].lon + m.jIncrement)
    ensures forall i :: 0 <= i < |Sweep(m)| - 1 && Sweep(m)[i].lat < m.lats.last ==>
      Sweep(m)[i + 1] == Query(Sweep(m)[i].lat + m.iIncrement, Sweep(m)[i].lon)
    ensures forall i :: (0 <= i < |Sweep(m)| && Sweep(m)[i].lat < m.lats.last
                         && Sweep(m)[i].lat + m.iIncrement > m.lats.last) ==> i == |Sweep(m)| - 1
  {
    var qs := Sweep(m);
    VisitIsTrace(m, Query(m.lats.first, m.lons.first));
    forall i | 0 <= i < |qs| - 1 && qs[i].lat < m.lats.last
      ensures qs[i].lat + m.iIncrement <= m.lats.last
    {
      assert qs[i + 1] == Advance(m, qs[i]);
      assert InSweep(m, qs[i + 1]);
    }
  }

  /** The resolution of one visited point against the message. */
  function ResolveQuery(m: Message, d: Spacing, q: Query): (r: Result<Record>) {
    Resolve(m.lats, m.lons, d, m.values, q.lat, q.lon)
  }

  /** Resolves the points in order and stops at the first failure, so a run
      yields either one record per point, in order, or the first error. */
  function ResolveAll(m: Message, d: Spacing, qs: seq<Query>): (r: Result<seq<Record>>) {
    MapAll((q: Query) => ResolveQuery(m, d, q), qs)
  }

  /** The whole extraction: the spacing, then every point of the sweep
      resolved in sweep order. A zero `Ni` or `Nj` fails before the sweep. */
  function Extract(m: Message): (r: Result<seq<Record>>)
    requires PositiveIncrements(m)
    ensures m.ni == 0 || m.nj == 0 ==> r == Err(ZeroDivision)
    ensures r.Ok? ==> PointSpacing(GridSpan(m.lats, m.lons), m.ni, m.nj).Ok?
    ensures r.Ok? ==> |r.value| == |Sweep(m)|
    ensures r.Ok? ==> forall i :: 0 <= i < |Sweep(m)| ==>
      ResolveQuery(m, PointSpacing(GridSpan(m.lats, m.lons), m.ni, m.nj).value, Sweep(m)[i]) == Ok(r.value[i])
    ensures PointSpacing(GridSpan(m.lats, m.lons), m.ni, m.nj).Ok? ==>
      var d := PointSpacing(GridSpan(m.lats, m.lons), m.ni, m.nj).value;
      (r.Ok? <==> forall i :: 0 <= i < |Sweep(m)| ==> ResolveQuery(m, d, Sweep(m)[i]).Ok?)
    ensures PointSpacing(GridSpan(m.lats, m.lons), m.ni, m.nj).Ok? && r.Err? ==>
      var d := PointSpacing(GridSpan(m.lats, m.lons), m.ni, m.nj).value;
      exists i :: && 0 <= i < |Sweep(m)|
                  && ResolveQuery(m, d, Sweep(m)[i]) == Err(r.error)
                  && forall j :: 0 <= j < i ==> ResolveQuery(m, d, Sweep(m)[j]).Ok?
    ensures r != Err(OutOfBounds)
  {
    var d :- PointSpacing(GridSpan(m.lats, m.lons), m.ni, m.nj);
    SweepInBounds(m);
    ResolveAll(m, d, Sweep(m))
  }

  /** A well-formed message always extracts: positive spans, `Ni` and `Nj`
      at least 1 and `Ni * Nj` values give one record per sweep point. */
  lemma ExtractTotalOnCompleteGrid(m: Message)
    requires PositiveIncrements(m)
    requires m.lats.first < m.lats.last && m.lons.first < m.lons.last
    requires m.ni >= 1 && m.nj >= 1 && |m.values| == m.ni * m.nj
    ensures Extract(m).Ok?
    ensures |Extract(m).value| == |Sweep(m)|
  {
    var d := PointSpacing(GridSpan(m.lats, m.lons), m.ni, m.nj).value;
    var qs := Sweep(m);
    SweepInBounds(m);
    forall i | 0 <= i < |qs|
      ensures ResolveQuery(m, d, qs[i]).Ok?
    {
      ResolveTotalOnCompleteGrid(m.lats, m.lons, m.ni, m.nj, m.values, qs[i].lat, qs[i].lon);
    }
  }

  /** The coordinate update at the end of an iteration, as `pegarValores` in
      read.py writes it: an `if` on `lat < l_lat` and an `elif` on `lat == l_lat`. Inside the
      loop one of the two always applies, and the pair moves to the point
      `Advance` gives. */
  method Step(m: Message, lat: real, lon: real) returns (lat': real, lon': real)
    requires lat <= m.lats.last
    ensures Query(lat', lon') == Advance(m, Query(lat, lon))
    ensures lon' != lon ==> lat == m.lats.last && lat' == m.lats.first
  {
    lat', lon' := lat, lon;
    if lat < m.lats.last {
      lat' := lat + m.iIncrement;
    } else if lat == m.lats.last {
      lon' := lon + m.jIncrement;
      lat' := m.lats.first;
    }
  }

  /** The collection loop of `pegarValores` in read.py, for any per-point
      resolution `f`: walk `(lat, lon)` from the first grid point, resolve
      each point and append its record, then update the coordinates by the
      loop's rule. A failing point ends the run with its error. */
  method CollectWith(m: Message, f: Query -> Result<Record>) returns (r: Result<seq<Record>>)
    requires PositiveIncrements(m)
    ensures r == MapAll(f, Sweep(m))
  {
    var data: seq<Record> := [];
    ghost var done: seq<Query> := [];
    var lat, lon := m.lats.first, m.lons.first;
    while lat <= m.lats.last && lon <= m.lons.last
      invariant done + Visit(m, Query(lat, lon)) == Sweep(m)
      invariant MapAll(f, done) == Ok(data)
      decreases StepsLeft(lon, m.lons.last, m.jIncrement), StepsLeft(lat, m.lats.last, m.iIncrement)
    {
      var q := Query(lat, lon);
      var next := Advance(m, q);
      assert Visit(m, q) == [q] + Visit(m, next);
      var rec := f(q);
      if rec.Err? {
        MapAllFirstFailure(f, done, Visit(m, q), data);
        return Err(rec.error);
      }
      MapAllSnoc(f, done, q, data, rec.value);
      assert done + [q] + Visit(m, next) == done + Visit(m, q);
      data := data + [rec.value];
      done := done + [q];
      StepsLeftDecreases(lat, m.lats.last, m.iIncrement);
      StepsLeftDecreases(lon, m.lons.last, m.jIncrement);
      lat, lon := Step(m, lat, lon);
    }
    assert done == Sweep(m);
    r := Ok(data);
  }

  /** The extraction as `pegarValores` in read.py runs it: the spacing first, then the
      collection loop resolving every point against the message. It returns
      exactly what `Extract` describes. */
  method CollectValues(m: Message) returns (r: Result<seq<Record>>)
    requires PositiveIncrements(m)
    ensures r == Extract(m)
  {
    var spacing := PointSpacing(GridSpan(m.lats, m.lons), m.ni, m.nj);
    if spacing.Err? {
      return Err(spacing.error);
    }
    var d := spacing.value;
    r := CollectWith(m, (q: Query) => ResolveQuery(m, d, q));
  }
}
