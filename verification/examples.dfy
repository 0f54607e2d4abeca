/** Worked cases on small grids: what the lookup and the sweep produce for
    concrete messages. */
module Examples {
  import opened Results
  import opened Rounding
  import opened Grid
  import opened Resolver
  import opened Driver
  import opened Lattice

  /** A two-degree square from (0, 0) to (2, 2) with `Ni = Nj = 2`, one-degree
      increments and four values. */
  function Square(): Message {
    Message(Bounds(0.0, 2.0), Bounds(0.0, 2.0), 2, 2, 1.0, 1.0, 4, [10.0, 11.0, 12.0, 13.0])
  }

  /** The square's spacing is one degree on each axis. */
  lemma SquareSpacing()
    ensures PointSpacing(GridSpan(Square().lats, Square().lons), 2, 2) == Ok(Spacing(1.0, 1.0))
  {
  }

  /** The query at the first corner (0, 0), with the square's spacing of
      `SquareSpacing`, rounds to index 0 on both axes,
      which the candidate clamp turns into index 1: every candidate is the
      vertex (1, 1), and the value read is the first one. The corner vertex
      itself is never selected. */
  lemma CornerQueryResolvesToInnerVertex()
    ensures Resolve(Square().lats, Square().lons, Spacing(1.0, 1.0), Square().values, 0.0, 0.0)
         == Ok(Record(1.0, 1.0, 10.0))
  {
    var m := Square();
    var d := Spacing(1.0, 1.0);
    RoundOfInt(0);
    var idx := Indices(Pair(1, 1), Pair(1, 1));
    assert CandidateIndices(m.lats, m.lons, 0.0, 0.0, d) == Ok(idx);
    var cs := Candidates(m.lats, m.lons, d, 0.0, 0.0).value;
    assert cs == CandidateDistances(0.0, 0.0, CandidatePoints(idx, d, m.lats, m.lons), idx);
    assert cs[0].lat == 1.0 && cs[0].lon == 1.0 && cs[0].pos == 1;
    assert IsFirstNearest(cs, 0);
    ResolveIsFirstNearest(m.lats, m.lons, d, m.values, 0.0, 0.0);
    assert ValueAt(m.values, cs[0].pos) == Ok(10.0);
  }

  /** Halfway between latitudes 0 and 1 on longitude 1, the candidates at
      latitude 1 and latitude 0 are equally near; the one enumerated first,
      latitude 1, is chosen. The spacing is the square's, as `SquareSpacing`
      computes it. */
  lemma TieGoesToFirstCandidate()
    ensures Resolve(Square().lats, Square().lons, Spacing(1.0, 1.0), Square().values, 0.5, 1.0)
         == Ok(Record(1.0, 1.0, 10.0))
  {
    var m := Square();
    var d := Spacing(1.0, 1.0);
    RoundUnique(0.5, 1);
    RoundOfInt(1);
    var idx := Indices(Pair(1, 0), Pair(1, 0));
    assert CandidateIndices(m.lats, m.lons, 0.5, 1.0, d) == Ok(idx);
    var cs := Candidates(m.lats, m.lons, d, 0.5, 1.0).value;
    assert cs == CandidateDistances(0.5, 1.0, CandidatePoints(idx, d, m.lats, m.lons), idx);
    assert cs[0].dist == 0.25 && cs[1].dist == 0.25;
    assert cs[0].lat == 1.0 && cs[1].lat == 0.0 && cs[0].lon == 1.0 && cs[0].pos == 1;
    assert IsFirstNearest(cs, 0);
    ResolveIsFirstNearest(m.lats, m.lons, d, m.values, 0.5, 1.0);
    assert ValueAt(m.values, cs[0].pos) == Ok(10.0);
  }

  /** With the square's spacing of `SquareSpacing`, a query below the first
      latitude is out of bounds. */
  lemma OutsideQueryFails()
    ensures Resolve(Square().lats, Square().lons, Spacing(1.0, 1.0), Square().values, -1.0, 1.0)
         == Err(OutOfBounds)
  {
  }

  /** With `Ni = 2` and `Nj = 4` over a 4-by-6 degree extent, the longitude
      spacing is 4 / 4 and the latitude spacing 6 / 2, not the straight
      pairing 4 / 2 and 6 / 4. */
  lemma CrossPairedSpacing()
    ensures PointSpacing(Span(4.0, 6.0), 2, 4) == Ok(Spacing(1.0, 3.0))
    ensures PointSpacing(Span(4.0, 6.0), 2, 4) != Ok(Spacing(2.0, 1.5))
  {
  }

  /** The sweep over the square visits its nine one-degree lattice points,
      latitude first within each longitude band. */
  lemma SquareSweep()
    ensures Sweep(Square()) == [
      Query(0.0, 0.0), Query(1.0, 0.0), Query(2.0, 0.0),
      Query(0.0, 1.0), Query(1.0, 1.0), Query(2.0, 1.0),
      Query(0.0, 2.0), Query(1.0, 2.0), Query(2.0, 2.0)]
  {
    var m := Square();
    assert Steps(2.0, 1.0) == 2;
    SweepIsLattice(m);
    assert Band(m, 2, 0, 0) == [Query(0.0, 0.0), Query(1.0, 0.0), Query(2.0, 0.0)];
    assert Band(m, 2, 1, 0) == [Query(0.0, 1.0), Query(1.0, 1.0), Query(2.0, 1.0)];
    assert Band(m, 2, 2, 0) == [Query(0.0, 2.0), Query(1.0, 2.0), Query(2.0, 2.0)];
    assert Bands(m, 2, 2, 2) == Band(m, 2, 2, 0);
    assert Bands(m, 2, 2, 1) == Band(m, 2, 1, 0) + Band(m, 2, 2, 0);
  }

  /** A one-degree square of latitude by one and a half degrees of longitude:
      the half-step of longitude left over after the second band is never
      visited, so the sweep holds two whole bands. */
  lemma PartialLongitudeSweep()
    ensures Sweep(Message(Bounds(0.0, 1.0), Bounds(0.0, 1.5), 1, 1, 1.0, 1.0, 1, [10.0]))
         == [Query(0.0, 0.0), Query(1.0, 0.0), Query(0.0, 1.0), Query(1.0, 1.0)]
  {
    var m := Message(Bounds(0.0, 1.0), Bounds(0.0, 1.5), 1, 1, 1.0, 1.0, 1, [10.0]);
    assert Steps(1.0, 1.0) == 1;
    assert Steps(1.5, 1.0) == 1;
    SweepIsLattice(m);
    assert Band(m, 1, 0, 0) == [Query(0.0, 0.0), Query(1.0, 0.0)];
    assert Band(m, 1, 1, 0) == [Query(0.0, 1.0), Query(1.0, 1.0)];
    assert Bands(m, 1, 1, 1) == Band(m, 1, 1, 0);
  }

  /** The grid of the outside-candidate case: latitudes 0..4 and longitudes
      0..6 with `Ni = 4` and `Nj = 3`, so the longitude step is 6 / 3 = 2 and
      the latitude step 4 / 4 = 1. */
  lemma WideGridSpacing()
    ensures PointSpacing(GridSpan(Bounds(0.0, 4.0), Bounds(0.0, 6.0)), 4, 3) == Ok(Spacing(2.0, 1.0))
  {
  }

  /** The query (2.5, 3.0) rounds to longitude index 2 (3 / 2 = 1.5) and
      latitude index 3 (2.5 / 1), giving the pairs (2, 1) and (3, 2). */
  lemma WideGridIndices()
    ensures CandidateIndices(Bounds(0.0, 4.0), Bounds(0.0, 6.0), 2.5, 3.0, Spacing(2.0, 1.0))
         == Ok(Indices(Pair(2, 1), Pair(3, 2)))
  {
    RoundUnique(1.5, 2);
    RoundUnique(2.5, 3);
  }

  /** The four candidates of the query (2.5, 3.0): the latitude indices 3 and
      2 are spaced by the longitude step 2, so the first latitude candidate
      is 6, past the last latitude 4. A candidate need not lie in the grid. */
  lemma WideGridCandidates()
    ensures Candidates(Bounds(0.0, 4.0), Bounds(0.0, 6.0), Spacing(2.0, 1.0), 2.5, 3.0)
         == Ok([Candidate(13.25, 6.0, 2.0, 6), Candidate(3.25, 4.0, 2.0, 4),
                Candidate(16.25, 6.0, 1.0, 3), Candidate(6.25, 4.0, 1.0, 2)])
  {
    var lats, lons, d := Bounds(0.0, 4.0), Bounds(0.0, 6.0), Spacing(2.0, 1.0);
    var idx := Indices(Pair(2, 1), Pair(3, 2));
    WideGridIndices();
    var pts := CandidatePoints(idx, d, lats, lons);
    assert pts == Points(Pair(2.0, 1.0), Pair(6.0, 4.0));
    assert Candidates(lats, lons, d, 2.5, 3.0) == Ok(CandidateDistances(2.5, 3.0, pts, idx));
  }

  /** Of the four candidates of the query (2.5, 3.0), the second, at (4, 2),
      is the first nearest. */
  lemma WideGridNearest(cs: seq<Candidate>)
    requires cs == [Candidate(13.25, 6.0, 2.0, 6), Candidate(3.25, 4.0, 2.0, 4),
                    Candidate(16.25, 6.0, 1.0, 3), Candidate(6.25, 4.0, 1.0, 2)]
    ensures IsFirstNearest(cs, 1)
  {
  }

  /** The query (2.5, 3.0) resolves to the nearest candidate (4, 2), at
      position 2 * 2 = 4, with the fourth value. */
  lemma WideGridResolve(lats: Bounds, lons: Bounds, d: Spacing, values: seq<real>)
    requires lats == Bounds(0.0, 4.0) && lons == Bounds(0.0, 6.0) && d == Spacing(2.0, 1.0)
    requires values == [0.0, 1.0, 2.0, 3.0]
    ensures Resolve(lats, lons, d, values, 2.5, 3.0) == Ok(Record(4.0, 2.0, 3.0))
  {
    var cs := [Candidate(13.25, 6.0, 2.0, 6), Candidate(3.25, 4.0, 2.0, 4),
               Candidate(16.25, 6.0, 1.0, 3), Candidate(6.25, 4.0, 1.0, 2)];
    assert Candidates(lats, lons, d, 2.5, 3.0) == Ok(cs) by { WideGridCandidates(); }
    assert IsFirstNearest(cs, 1) by { WideGridNearest(cs); }
    assert ValueAt(values, cs[1].pos) == Ok(3.0) by { assert values[3] == 3.0; }
    ResolveIsFirstNearest(lats, lons, d, values, 2.5, 3.0);
  }
}
