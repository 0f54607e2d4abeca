/** The sweep described without the loop. In exact arithmetic, when the
    latitude span is a whole number of increments, the loop visits the
    Cartesian lattice of increment-spaced points band by band, one band per
    longitude step that does not pass the last longitude; when the latitude
    span is not, the first latitude step past the last latitude ends the
    loop inside the first longitude band. */
module Lattice {
  import opened Grid
  import opened Driver

  /** The latitude `r` increments from the first. */
  function LatAt(m: Message, r: int): (lat: real) {
    m.lats.first + (r as real) * m.iIncrement
  }

  /** The longitude `c` increments from the first. */
  function LonAt(m: Message, c: int): (lon: real) {
    m.lons.first + (c as real) * m.jIncrement
  }

  /** The number of whole increments that fit in a span. */
  function Steps(span: real, inc: real): (n: int)
    requires inc > 0.0
  {
    (span / inc).Floor
  }

  /** The span is a whole number of increments. */
  predicate IsWholeSteps(span: real, inc: real)
    requires inc > 0.0
  {
    (Steps(span, inc) as real) == span / inc
  }

  /** Rows `r` to `a` of longitude band `c`, in increasing latitude. */
  function Band(m: Message, a: nat, c: int, r: nat): (qs: seq<Query>)
    decreases a + 1 - r
  {
    if r > a then [] else [Query(LatAt(m, r), LonAt(m, c))] + Band(m, a, c, r + 1)
  }

  /** Longitude bands `c` to `b`, each with rows `0` to `a`. */
  function Bands(m: Message, a: nat, b: nat, c: nat): (qs: seq<Query>)
    decreases b + 1 - c
  {
    if c > b then [] else Band(m, a, c, 0) + Bands(m, a, b, c + 1)
  }

  /** The lattice of `a + 1` latitudes by `b + 1` longitudes, band by band. */
  function BandByBand(m: Message, a: nat, b: nat): (qs: seq<Query>) {
    Bands(m, a, b, 0)
  }

  /** Scaling by a positive increment keeps and reflects the order of integers. */
  lemma ScaleMonotone(r: int, a: int, inc: real)
    requires inc > 0.0
    ensures r <= a <==> (r as real) * inc <= (a as real) * inc
    ensures r == a <==> (r as real) * inc == (a as real) * inc
  {
    if r < a {
      assert ((a - r) as real) * inc > 0.0;
    } else if r > a {
      assert ((r - a) as real) * inc > 0.0;
    }
  }

  /** `r` increments fit in `x` exactly when `r` is at most `x / inc`. */
  lemma ScaleBelow(r: int, x: real, inc: real)
    requires inc > 0.0
    ensures (r as real) * inc <= x <==> (r as real) <= x / inc
  {
    assert x / inc * inc == x;
  }

  /** One more increment adds one increment to the offset. */
  lemma ScaleStep(r: int, inc: real)
    ensures ((r + 1) as real) * inc == (r as real) * inc + inc
  {
  }

  /** A positive multiple of `n` is at least `n`. */
  lemma MulAtLeast(x: int, n: int)
    requires x >= 1 && n > 0
    ensures x * n >= n
  {
  }

  /** Quotient and remainder of `c * n + r` for `0 <= r < n`. */
  lemma DivModOf(c: int, r: int, n: int)
    requires n > 0 && 0 <= r < n
    ensures (c * n + r) / n == c && (c * n + r) % n == r
  {
    var k := c * n + r;
    var q, s := k / n, k % n;
    assert k == q * n + s;
    assert (c - q) * n == s - r;
    if q < c {
      MulAtLeast(c - q, n);
    } else if q > c {
      MulAtLeast(q - c, n);
    }
  }

  /** A band holds its rows in order. */
  lemma {:induction false} BandIndex(m: Message, a: nat, c: int, r: nat, i: int)
    requires r <= a + 1
    requires 0 <= i < a + 1 - r
    ensures |Band(m, a, c, r)| == a + 1 - r
    ensures Band(m, a, c, r)[i] == Query(LatAt(m, r + i), LonAt(m, c))
    decreases a + 1 - r
  {
    if i > 0 {
      BandIndex(m, a, c, r + 1, i - 1);
    } else if r + 1 <= a {
      BandIndex(m, a, c, r + 1, 0);
    }
  }

  /** Adding one divisor to `j` adds one to its quotient and keeps its remainder. */
  lemma DivModShift(j: int, n: int)
    requires n > 0 && j >= 0
    ensures (j + n) / n == j / n + 1 && (j + n) % n == j % n
  {
    DivModOf(j / n + 1, j % n, n);
    assert j + n == (j / n + 1) * n + j % n;
  }

  /** Past its first band, point `j` of the bands from `c` on is point
      `j - (a + 1)` of the bands from `c + 1` on. */
  lemma BandsTail(m: Message, a: nat, b: nat, c: nat, j: int)
    requires c <= b
    requires a + 1 <= j < |Bands(m, a, b, c)|
    ensures 0 <= j - (a + 1) < |Bands(m, a, b, c + 1)|
    ensures Bands(m, a, b, c)[j] == Bands(m, a, b, c + 1)[j - (a + 1)]
  {
    var band, rest := Band(m, a, c, 0), Bands(m, a, b, c + 1);
    BandLength(m, a, c, 0);
    assert Bands(m, a, b, c) == band + rest;
  }

  /** A band from row `r` holds the rows `r` to `a`. */
  lemma {:induction false} BandLength(m: Message, a: nat, c: int, r: nat)
    requires r <= a + 1
    ensures |Band(m, a, c, r)| == a + 1 - r
    decreases a + 1 - r
  {
    if r <= a {
      BandLength(m, a, c, r + 1);
    }
  }

  /** Point `j` of the bands from `c` on is in row `j % (a + 1)` of band
      `c + j / (a + 1)`: the lattice is ordered band by band. */
  lemma {:induction false} BandsIndex(m: Message, a: nat, b: nat, c: nat, j: int)
    requires c <= b
    requires 0 <= j < |Bands(m, a, b, c)|
    ensures Bands(m, a, b, c)[j] == Query(LatAt(m, j % (a + 1)), LonAt(m, c + j / (a + 1)))
    decreases b - c
  {
    if j < a + 1 {
      BandIndex(m, a, c, 0, j);
      DivModOf(0, j, a + 1);
    } else {
      var j' := j - (a + 1);
      BandsTail(m, a, b, c, j);
      BandsIndex(m, a, b, c + 1, j');
      DivModShift(j', a + 1);
    }
  }

  /** The bands from `c` on hold `a + 1` points per band. */
  lemma {:induction false} BandsLength(m: Message, a: nat, b: nat, c: nat)
    requires c <= b + 1
    ensures |Bands(m, a, b, c)| == (a + 1) * (b + 1 - c)
    decreases b + 1 - c
  {
    if c <= b {
      BandIndex(m, a, c, 0, 0);
      BandsLength(m, a, b, c + 1);
      assert (a + 1) * (b + 1 - c) == (a + 1) + (a + 1) * (b + 1 - (c + 1));
    }
  }

  /** A lattice point satisfies the loop condition, and the loop's update
      takes it to the next row of its band, or from the last row to the
      first row of the next band, or out of the loop after the last point. */
  lemma LatticeStep(m: Message, a: nat, b: nat, c: nat, r: nat)
    requires PositiveIncrements(m)
    requires m.lats.last - m.lats.first == (a as real) * m.iIncrement
    requires (b as real) * m.jIncrement <= m.lons.last - m.lons.first < ((b + 1) as real) * m.jIncrement
    requires r <= a && c <= b
    ensures InSweep(m, Query(LatAt(m, r), LonAt(m, c)))
    ensures r < a ==> Advance(m, Query(LatAt(m, r), LonAt(m, c))) == Query(LatAt(m, r + 1), LonAt(m, c))
    ensures r == a ==> Advance(m, Query(LatAt(m, r), LonAt(m, c))) == Query(LatAt(m, 0), LonAt(m, c + 1))
    ensures r == a && c == b ==> !InSweep(m, Advance(m, Query(LatAt(m, r), LonAt(m, c))))
  {
    var q := Query(LatAt(m, r), LonAt(m, c));
    assert InSweep(m, q) by {
      WithinSpan(m.lats.first, m.lats.last, r, a, m.iIncrement);
      WithinSpan(m.lons.first, m.lons.last, c, b, m.jIncrement);
    }
    if r < a {
      assert LatAt(m, r) < m.lats.last by {
        ScaleMonotone(r, a, m.iIncrement);
      }
      ScaleStep(r, m.iIncrement);
    } else {
      assert LatAt(m, r) == m.lats.last;
      ScaleStep(c, m.jIncrement);
    }
  }

  /** A point at most `b` increments from `first` lies at or before `last`
      when `b` increments fit in the span. */
  lemma WithinSpan(first: real, last: real, c: int, b: int, inc: real)
    requires inc > 0.0 && c <= b
    requires (b as real) * inc <= last - first
    ensures first + (c as real) * inc <= last
  {
    ScaleMonotone(c, b, inc);
  }

  /** From the lattice point in row `r` of band `c`, the loop visits the rest
      of that band and then every later band. */
  lemma {:induction false} VisitFromLatticePoint(m: Message, a: nat, b: nat, c: nat, r: nat)
    requires PositiveIncrements(m)
    requires m.lats.last - m.lats.first == (a as real) * m.iIncrement
    requires (b as real) * m.jIncrement <= m.lons.last - m.lons.first < ((b + 1) as real) * m.jIncrement
    requires r <= a && c <= b
    ensures Visit(m, Query(LatAt(m, r), LonAt(m, c))) == Band(m, a, c, r) + Bands(m, a, b, c + 1)
    decreases b - c, a - r
  {
    var q := Query(LatAt(m, r), LonAt(m, c));
    LatticeStep(m, a, b, c, r);
    var next := Advance(m, q);
    assert Visit(m, q) == [q] + Visit(m, next);
    if r < a {
      VisitFromLatticePoint(m, a, b, c, r + 1);
    } else if c < b {
      VisitFromLatticePoint(m, a, b, c + 1, 0);
    }
  }

  /** When the latitude span is a whole number of increments, the sweep
      visits exactly the lattice of increment-spaced points from the first
      grid point, longitude band by longitude band, with one band for every
      longitude step that does not pass the last longitude. */
  lemma SweepIsLattice(m: Message)
    requires PositiveIncrements(m)
    requires m.lats.first <= m.lats.last && m.lons.first <= m.lons.last
    requires IsWholeSteps(m.lats.last - m.lats.first, m.iIncrement)
    ensures Steps(m.lats.last - m.lats.first, m.iIncrement) >= 0
    ensures Steps(m.lons.last - m.lons.first, m.jIncrement) >= 0
    ensures Sweep(m) == BandByBand(m, Steps(m.lats.last - m.lats.first, m.iIncrement),
                                      Steps(m.lons.last - m.lons.first, m.jIncrement))
    ensures |Sweep(m)| == (Steps(m.lats.last - m.lats.first, m.iIncrement) + 1)
                        * (Steps(m.lons.last - m.lons.first, m.jIncrement) + 1)
    ensures forall j :: 0 <= j < |Sweep(m)| ==>
      Sweep(m)[j] == Query(LatAt(m, j % (Steps(m.lats.last - m.lats.first, m.iIncrement) + 1)),
                           LonAt(m, j / (Steps(m.lats.last - m.lats.first, m.iIncrement) + 1)))
  {
    var latSpan, lonSpan := m.lats.last - m.lats.first, m.lons.last - m.lons.first;
    var a, b := Steps(latSpan, m.iIncrement), Steps(lonSpan, m.jIncrement);
    assert latSpan / m.iIncrement * m.iIncrement == latSpan;
    ScaleBelow(b, lonSpan, m.jIncrement);
    ScaleBelow(b + 1, lonSpan, m.jIncrement);
    VisitFromLatticePoint(m, a, b, 0, 0);
    assert LatAt(m, 0) == m.lats.first && LonAt(m, 0) == m.lons.first;
    BandsLength(m, a, b, 0);
    forall j | 0 <= j < |Sweep(m)|
      ensures Sweep(m)[j] == Query(LatAt(m, j % (a + 1)), LonAt(m, j / (a + 1)))
    {
      BandsIndex(m, a, b, 0, j);
    }
  }

  /** Below the last row of the first band, the loop walks the remaining rows
      of that band and stops after the row whose next step overshoots. */
  lemma {:induction false} VisitOvershoot(m: Message, top: nat, r: nat)
    requires PositiveIncrements(m)
    requires m.lons.first <= m.lons.last
    requires (top as real) * m.iIncrement < m.lats.last - m.lats.first
    requires m.lats.last - m.lats.first < ((top + 1) as real) * m.iIncrement
    requires r <= top
    ensures Visit(m, Query(LatAt(m, r), m.lons.first)) == seq(top + 1 - r, i => Query(LatAt(m, r + i), m.lons.first))
    decreases top - r
  {
    var q := Query(LatAt(m, r), m.lons.first);
    var expected := seq(top + 1 - r, i => Query(LatAt(m, r + i), m.lons.first));
    ScaleMonotone(r, top, m.iIncrement);
    assert q.lat < m.lats.last;
    var next := Advance(m, q);
    ScaleStep(r, m.iIncrement);
    assert next == Query(LatAt(m, r + 1), m.lons.first);
    assert Visit(m, q) == [q] + Visit(m, next);
    if r < top {
      VisitOvershoot(m, top, r + 1);
      assert expected == [q] + seq(top + 1 - (r + 1), i => Query(LatAt(m, r + 1 + i), m.lons.first));
    } else {
      assert !InSweep(m, next);
      assert expected == [q];
    }
  }

  /** When the latitude span is not a whole number of increments, the
      latitude never equals the last latitude, so longitude never advances:
      the sweep visits only the first longitude band, from the first latitude
      up to the last one that does not pass the last grid latitude. */
  lemma SweepOvershootEnds(m: Message)
    requires PositiveIncrements(m)
    requires m.lats.first <= m.lats.last && m.lons.first <= m.lons.last
    requires !IsWholeSteps(m.lats.last - m.lats.first, m.iIncrement)
    ensures Steps(m.lats.last - m.lats.first, m.iIncrement) >= 0
    ensures |Sweep(m)| == Steps(m.lats.last - m.lats.first, m.iIncrement) + 1
    ensures forall i :: 0 <= i < |Sweep(m)| ==> Sweep(m)[i] == Query(LatAt(m, i), m.lons.first)
  {
    var span := m.lats.last - m.lats.first;
    var top := Steps(span, m.iIncrement);
    ScaleBelow(top, span, m.iIncrement);
    ScaleBelow(top + 1, span, m.iIncrement);
    assert (top as real) * m.iIncrement != span by {
      assert span / m.iIncrement * m.iIncrement == span;
      ScaleMonotone(top, top, m.iIncrement);
    }
    VisitOvershoot(m, top, 0);
    assert LatAt(m, 0) == m.lats.first;
  }
}
