# grib_read: nearest-point lookup and grid sweep

`read.py` reads one message of a GRIB file. It walks a regular latitude/longitude
lattice from the first grid point to the last in increment-sized steps. For
every point it visits, it picks the nearest of four candidate points built
from rounded offsets and reads that candidate's field value. The candidate
need not be the nearest grid point, and it can even lie outside the grid.
The lookup works in four steps:

1. Compute the grid extent and a per-axis spacing.
2. Round the query's offset into a raw index on each axis.
3. Turn each raw index into two candidate indices, which gives four candidate
   points.
4. Pick the candidate with the smallest squared distance and read
   `values[Pos - 1]`, where `Pos` is the product of the candidate's latitude
   and longitude indices.

This project models that core:

- `results.dfy` has the run's errors as a `Result` type. It also has `MapAll`,
  the "one record per point, or the first error" collection.
- `rounding.dfy` has Python 2 `int(round(x))`.
- `grid.dfy` has the message, the extent and the spacing. The spacing divides
  the longitude span by `Nj` and the latitude span by `Ni`; the code crosses
  the counts over, and the model keeps that.
- `resolver.dfy` has the bounds check, the candidates, the distance list, the
  first-minimum selection, the value read and the whole per-query resolution.
- `driver.dfy` has the sweep loop:
  - the points it visits, as a recursive trace;
  - the loop itself, as a method;
  - the whole extraction.
- `lattice.dfy` describes the sweep without the loop. When the latitude span
  is a whole number of increments, the sweep visits the Cartesian lattice
  band by band, one longitude band for every longitude step that does not
  pass the last longitude. When the latitude span is not a whole number of
  increments, the sweep stops inside the first longitude band.
- `examples.dfy` has worked cases on small grids.

Coordinates are exact reals. A call to `exit(1)`, a float division by zero and
an out-of-range list index each abort the run, so each one becomes an `Err` of
the `Result`. The run produces all of its records or none of them.

Two consequences of `calcIndices` (read.py:51-60) shape every lookup near
the first grid point:

- A raw index of zero or less becomes the candidate pair (1, 1), so index 0
  is a candidate only through a raw index of 1.
- A query at the first corner (0, 0) of a 2-by-2 grid (`Ni = Nj = 2`) therefore
  resolves to the vertex (1, 1) with `values[0]`.
  `Examples.CornerQueryResolvesToInnerVertex` proves this.

## Model

| member | source | states |
|---|---|---|
| Results.MapAll | read.py:146-153 | collecting per point succeeds iff every point succeeds, giving one record per point in order; otherwise it yields the error of the first failing point, after which nothing else is collected |
| Rounding.Round | read.py:42 | `int(round(x))` gives an integer nearest to `x`, and of two equally near integers the one farther from zero |
| Rounding.RoundUnique | read.py:42 | exactly one integer satisfies the rounding rule, so the rule determines the index |
| Rounding.RoundMonotone | read.py:42 | rounding preserves order, so a larger offset never gets a smaller raw index |
| Rounding.RoundOfInt | read.py:42 | an offset that is a whole number of steps rounds to itself |
| Grid.GridSpan | read.py:20-28 | the extent, with longitude first, is what carries the first corner to the last one on each axis; it is non-negative exactly when the bounds are ordered |
| Grid.PointSpacing | read.py:31-37 | fails with a division by zero exactly when `Ni` or `Nj` is zero; otherwise the longitude step times `Nj` is the longitude span and the latitude step times `Ni` is the latitude span |
| Grid.SpacingSign | read.py:31-37 | with positive counts, each step is positive exactly when its span is |
| Grid.SpacingIsCrossPaired | read.py:31-37 | when `Ni` differs from `Nj` and both spans are non-zero, neither step equals the straight pairing (longitude span over `Ni`, latitude span over `Nj`) |
| Grid.SpanOverSpacing | read.py:31-37 | the last grid point lies exactly `Nj` longitude steps and `Ni` latitude steps from the first |
| Resolver.Sq | read.py:78-81 | the squared coordinate difference is never negative and is zero only for equal coordinates |
| Resolver.RawIndex | read.py:40-44 | aborts exactly when the coordinate is outside the bounds; inside, a zero step is a division by zero, and otherwise it always succeeds, with the index the offset in steps rounded; with a positive step it lies between 0 and the rounded offset of the last grid point |
| Resolver.RawIndexBounds | read.py:40-44 | with a positive step, the raw index of an in-bounds coordinate is at least 0 and at most that of the last grid point |
| Resolver.CandidatePair | read.py:51-60 | the candidate pair is the raw index and the one below it, except that a raw index of zero or less gives (1, 1); a candidate is never negative, and it is 0 only when the raw index is 1 |
| Resolver.CandidatePairAroundOffset | read.py:51-60 | for a non-negative offset in steps, the offset lies at most half a step past the first candidate; from a raw index of 1 on, it lies at least half a step past the second; when it rounds to 0, the clamped pair lies more than half a step beyond it |
| Resolver.CandidateIndices | read.py:47-60 | succeeds exactly when both coordinates are in bounds and both steps are non-zero, with the longitude check first; it fails with a division by zero exactly when the longitude is in bounds and its step is zero, or the longitude passes and the latitude is in bounds with a zero step; the pairs are the candidate pairs of the rounded offsets of longitude over the longitude step and latitude over the latitude step |
| Resolver.CandidateIndicesAroundQuery | read.py:47-60 | with positive steps, every in-bounds query has candidate indices, and on each axis they surround the query's offset to within half a step, except where the clamp applies |
| Resolver.CandidatePoints | read.py:63-70 | longitude candidates are placed with the latitude step and latitude candidates with the longitude step; for candidate pairs as `calcIndices` builds them and a non-negative step, the two candidates are ordered, lie at or past the first grid point and are at most one step apart |
| Resolver.CandidateLonSwapsSteps | read.py:68 | when the steps differ, a non-zero longitude index does not land on the longitude its own step denotes |
| Resolver.CandidateLatSwapsSteps | read.py:69 | when the steps differ, a non-zero latitude index does not land on the latitude its own step denotes |
| Resolver.MakeCandidate | read.py:78 | a distance record holds the squared distance to the query, which is zero exactly at the query itself |
| Resolver.CandidateDistances | read.py:73-82 | exactly four records in the order (lat0,lon0), (lat1,lon0), (lat0,lon1), (lat1,lon1); each position is the product of the latitude and longitude indices, and each distance is the squared Euclidean distance |
| Resolver.FirstNearestUnique | read.py:85-90 | the first position of the minimum distance is unique, so the selection is deterministic |
| Resolver.NearestIndex | read.py:85-90 | a left-to-right scan that replaces the best only on a strictly smaller distance ends at the first position of the minimum |
| Resolver.Nearest | read.py:85-90 | the selection loop returns a record of the list with the least distance, namely the first such record |
| Resolver.ValueAt | read.py:108 | reading `values[pos - 1]` succeeds exactly when `pos` is in `1 - len .. len`; a positive position is a 1-based ordinal, and a position of zero or less reads from the end; other positions raise an index error |
| Resolver.Candidates | read.py:147-149 | the four candidates exist exactly when the candidate indices do; otherwise the run fails with the same error |
| Resolver.Resolve | read.py:147-153 | with non-zero steps, aborts as out of bounds exactly when the query leaves the grid; once the candidates exist, it succeeds exactly when the value at the first nearest candidate's position can be read; a success is that candidate's coordinates with that value |
| Resolver.ResolveIsFirstNearest | read.py:147-153 | whenever a candidate is the first nearest and its value can be read, the query resolves to that candidate's coordinates and value, so the selection rule alone determines the record |
| Resolver.ResolveTotalOnCompleteGrid | read.py:40-108 | on a grid with positive spans, `Ni`, `Nj` at least 1 and `Ni * Nj` values, every in-bounds query resolves, because every candidate position lies in `0 .. Ni * Nj` |
| Driver.Advance | read.py:155-159 | the `if`/`elif` update inside the loop; it has no contract of its own, and its meaning is fixed by Driver.SweepStepRules and Driver.Step |
| Driver.Visit | read.py:146-159 | the points the while loop visits from a given point, in order; it has no contract of its own, and its meaning is fixed by Driver.VisitIsTrace and Driver.TraceUnique |
| Driver.Sweep | read.py:144-159 | the loop started at the first grid point; it has no contract of its own, and its meaning is fixed by Driver.SweepStepRules, Driver.SweepInBounds and Lattice.SweepIsLattice |
| Driver.StepsLeftDecreases | read.py:155-159 | each positive step uses up one of the finitely many steps left before the last coordinate, so the loop terminates |
| Driver.VisitIsTrace | read.py:146-159 | the visited points obey the loop: the first is the start point, each later one is the update of the one before, all meet the loop condition, and the update of the last does not |
| Driver.TraceUnique | read.py:146-159 | any sequence that obeys the loop's rules from a point is the sequence of visited points |
| Driver.VisitInBounds | read.py:146-147 | a sweep that starts at or past the first grid point visits only points within the grid's bounds |
| Driver.SweepInBounds | read.py:144-147 | every point of the sweep lies within the grid's bounds, so the bounds check never aborts a sweep |
| Driver.SweepStepRules | read.py:155-159 | longitude changes between consecutive points exactly when the latitude is the last one, and latitude then restarts; otherwise latitude advances by one increment; a latitude step past the last latitude ends the sweep |
| Driver.Extract | read.py:139-161 | a zero `Ni` or `Nj` fails before the sweep; otherwise the run succeeds exactly when every sweep point resolves, giving one record per sweep point in order, and a failure carries the error of the first point that fails; the run never aborts as out of bounds |
| Driver.ExtractTotalOnCompleteGrid | read.py:139-161 | a complete grid always extracts, with one record per sweep point |
| Driver.Step | read.py:155-159 | the `if`/`elif` update moves the pair to the next point of the sweep, and longitude changes only from the last latitude, with latitude reset to the first |
| Driver.CollectWith | read.py:144-161 | the loop collects exactly the per-point results along the sweep, stopping at the first failure |
| Driver.CollectValues | read.py:139-161 | the spacing, then the loop, give exactly the extraction result |
| Lattice.BandIndex | read.py:155-156 | within one longitude band, the latitudes advance by one increment per point |
| Lattice.BandLength | read.py:155-156 | a band from row `r` holds the rows `r` to `a` |
| Lattice.BandsIndex | read.py:155-159 | point `j` of the lattice is in row `j mod (a+1)` of longitude band `j div (a+1)` |
| Lattice.BandsLength | read.py:155-159 | every longitude band holds `a + 1` points |
| Lattice.LatticeStep | read.py:146-159 | a lattice point meets the loop condition, and the update takes it to the next row, to the first row of the next band, or out of the loop after the last point |
| Lattice.VisitFromLatticePoint | read.py:146-159 | from a lattice point, the loop visits the rest of that band and then every later band |
| Lattice.SweepIsLattice | read.py:144-159 | when the latitude span is `a` whole increments and `b` whole longitude increments fit in the longitude span, the sweep visits exactly the `(a+1)(b+1)` lattice points, latitude first within each longitude band |
| Lattice.VisitOvershoot | read.py:155-159 | when the latitude steps overshoot the last latitude, the loop visits the remaining rows of the first band and then stops |
| Lattice.SweepOvershootEnds | read.py:155-159 | when the latitude span is not a whole number of increments, longitude never advances and the sweep visits only the first band's rows up to the last latitude |
| Examples.SquareSpacing | read.py:31-37 | the two-degree square with `Ni = Nj = 2` has a spacing of one degree on each axis, the spacing the square examples below use |
| Examples.CornerQueryResolvesToInnerVertex | read.py:51-60 | on the 2-by-2 grid, the query (0, 0) resolves to the vertex (1, 1) with the first value |
| Examples.TieGoesToFirstCandidate | read.py:85-90 | of two equally near candidates, the one enumerated first is chosen |
| Examples.OutsideQueryFails | read.py:40-44 | a query below the first latitude aborts as out of bounds |
| Examples.CrossPairedSpacing | read.py:31-37 | with `Ni = 2`, `Nj = 4` over a 4-by-6 degree extent, the steps are 1 and 3, not 2 and 1.5 |
| Examples.SquareSweep | read.py:144-159 | the sweep of the 2-by-2 grid with one-degree increments visits its nine lattice points in band order |
| Examples.WideGridSpacing | read.py:31-37 | latitudes 0..4 and longitudes 0..6 with `Ni = 4`, `Nj = 3` give a longitude step of 2 and a latitude step of 1 |
| Examples.WideGridIndices | read.py:40-60 | on that grid, the query (2.5, 3.0) rounds to longitude index 2 and latitude index 3, giving the pairs (2, 1) and (3, 2) |
| Examples.WideGridCandidates | read.py:63-82 | the four candidates of that query, with the latitude candidates placed by the longitude step at 6 and 4, so the first lies past the last latitude 4 |
| Examples.WideGridResolve | read.py:85-108 | the query (2.5, 3.0) resolves to the candidate (4, 2) at position 4, with the fourth value |
| Examples.PartialLongitudeSweep | read.py:144-159 | with a one-degree latitude span and a longitude span of one and a half degrees, the sweep visits two whole bands of two points each |

## Left out

- Reading the GRIB file (read.py:95-107, 115-137) is not modelled. This covers opening the file, scanning messages with ecCodes, picking the message by position and releasing handles. A message becomes an immutable `Message` value that holds the attributes the code reads.
- The value array is read once per message. The code instead re-decodes the file for every point, which changes nothing observable.
- A missing message (the code then fails with a `NameError` on undefined variables) is not modelled, because that path lies in the file reading.
- Command-line parsing, timing, printing and JSON output (read.py:164-189) are left out. This includes the output key spelled `longitute`. They are I/O.
- Floating-point arithmetic is not modelled; coordinates are exact reals. The loop's exact `lat == l_lat` test behaves as it would without rounding error. Under float drift the real program may miss the last latitude and stop early, and the model does not show that.
- `exit(1)` is modelled as the error `OutOfBounds`, which propagates and ends the run with no records. Process termination itself is not modelled.
- Driver.Extract: requires positive increments. With a zero or negative increment the loop at read.py:146-159 may not terminate, and a non-terminating loop is not modelled. read.py returns `[]` for any increments when `Ni` and `Nj` are non-zero and the first latitude is past the last or the first longitude is past the last; the model covers that case only for positive increments.
- Driver.CollectWith: requires positive increments, for the same reason as `Extract`.
- Driver.CollectValues: requires positive increments, for the same reason as `Extract`.
- Positive increments are also required by the functions `Visit` and `Sweep`, which describe the visited points, and so by every lemma about them in `driver.dfy` and `lattice.dfy`.
- `numberOfValues` is read by the code but never used. It is kept in `Message` for fidelity and plays no part.
