/**
 * The coverage-lattice generator of Grid.py over exact reals.
 *
 * The cosine of the centre latitude is taken as a parameter `cosLat` in (0, 1];
 * `np.arange` is modelled exactly: the points `start + i*step` for every
 * natural `i` whose point lies strictly before `stop` in the direction of `step`.
 */
module Grid {
  import opened Wrappers

  /** A (latitude, longitude) pair in decimal degrees. */
  datatype GeoPoint = GeoPoint(lat: real, lon: real)

  /** `np.arange` raises (division by zero) when its step is zero. */
  datatype GridError = ZeroStep

  /** The fixed approximation of kilometres per degree of latitude. */
  const KmPerDegreeLat: real := 111.0

  /** The least integer not below `x`. */
  function Ceil(x: real): (n: int)
    ensures x <= n as real < x + 1.0
  {
    -((-x).Floor)
  }

  /** The `i`-th point of an arithmetic progression. */
  function Point(start: real, step: real, i: int): real {
    start + i as real * step
  }

  /** True when `x` lies strictly before `stop`, walking in the direction of `step`. */
  predicate Before(x: real, stop: real, step: real) {
    if step > 0.0 then x < stop else x > stop
  }

  /** The number of values `np.arange(start, stop, step)` produces. */
  function ArangeLength(start: real, stop: real, step: real): nat
    requires step != 0.0
  {
    var q := (stop - start) / step;
    if q <= 0.0 then 0 else Ceil(q)
  }

  /**
   * `np.arange(start, stop, step)` with exact arithmetic: exactly the points
   * `start + i*step` that lie before `stop`, in order of `i`.
   */
  function Arange(start: real, stop: real, step: real): (r: seq<real>)
    requires step != 0.0
    ensures forall i: nat :: i < |r| ==> r[i] == Point(start, step, i)
    ensures forall i: nat :: i < |r| <==> Before(Point(start, step, i), stop, step)
  {
    PointsBefore(start, stop, step);
    seq(ArangeLength(start, stop, step), i => Point(start, step, i))
  }

  /** Multiplying by a positive factor preserves strict order, and division undoes it. */
  lemma ScaledBefore(x: real, d: real, y: real)
    requires d != 0.0
    ensures d > 0.0 ==> (x * d < y <==> x < y / d)
    ensures d < 0.0 ==> (x * d > y <==> x < y / d)
  {
    assert y / d * d == y;
    if d > 0.0 {
      if x < y / d { assert x * d < y / d * d; }
      if x * d < y { assert x * d < y / d * d; }
    } else {
      if x < y / d { assert x * d > y / d * d; }
      if x * d > y { assert x * d > y / d * d; }
    }
  }

  /** Point `i` lies before `stop` exactly when `i` is below `(stop - start) / step`. */
  lemma PointsBefore(start: real, stop: real, step: real)
    requires step != 0.0
    ensures forall i: nat :: Before(Point(start, step, i), stop, step) <==> (i as real) < (stop - start) / step
  {
    forall i: nat
      ensures Before(Point(start, step, i), stop, step) <==> (i as real) < (stop - start) / step
    {
      ScaledBefore(i as real, step, stop - start);
      if step > 0.0 {
        assert Before(Point(start, step, i), stop, step) <==> i as real * step < stop - start;
      } else {
        assert Before(Point(start, step, i), stop, step) <==> i as real * step > stop - start;
      }
    }
  }

  /** Dividing by a product is dividing by each factor in turn. */
  lemma DivTwice(a: real, b: real, c: real)
    requires b != 0.0 && c != 0.0
    ensures a / (b * c) == a / b / c
  {
    var x := a / b / c;
    assert x * c == a / b;
    assert x * c * b == a;
    assert x * (b * c) == a;
  }

  /** Dividing by a factor in (0, 1] never shrinks a non-negative value. */
  lemma DivByAtMostOne(a: real, c: real)
    requires 0.0 < c <= 1.0
    ensures a >= 0.0 ==> a / c >= a
  {
    if a >= 0.0 {
      assert a / c * c == a;
      assert a * c <= a;
    }
  }

  /** Division distributes over a sum. */
  lemma DivSum(a: real, b: real, d: real)
    requires d != 0.0
    ensures (a + b) / d == a / d + b / d
  {
    assert (a / d + b / d) * d == a + b;
  }

  /** Comparing a quotient by a positive `d` is comparing after multiplying by `d`. */
  lemma CompareQuotient(y: real, d: real, z: real)
    requires d > 0.0
    ensures y / d < z ==> y < z * d
    ensures z <= y / d ==> z * d <= y
  {
    assert y / d * d == y;
    if y / d < z { assert y / d * d < z * d; }
    if z <= y / d { assert z * d <= y / d * d; }
  }

  /**
   * Latitude half-extent of the square, in degrees: converted back at
   * `KmPerDegreeLat` kilometres per degree, twice it is the side.
   */
  function LatAdjustment(sideKm: real): (a: real)
    ensures 2.0 * a * KmPerDegreeLat == sideKm
    ensures sideKm > 0.0 ==> a > 0.0
  {
    sideKm / 2.0 / KmPerDegreeLat
  }

  /** Longitude half-extent: the latitude one stretched by 1 / cos(latitude). */
  function LonAdjustment(sideKm: real, cosLat: real): (a: real)
    requires 0.0 < cosLat <= 1.0
    ensures a == LatAdjustment(sideKm) / cosLat
    ensures sideKm >= 0.0 ==> a >= LatAdjustment(sideKm)
  {
    DivTwice(sideKm / 2.0, KmPerDegreeLat, cosLat);
    DivByAtMostOne(LatAdjustment(sideKm), cosLat);
    sideKm / 2.0 / (KmPerDegreeLat * cosLat)
  }

  /**
   * Latitude step between rows: the circle diameter in degrees, so that
   * converted back to kilometres it is twice the radius.
   */
  function LatSpacing(radiusKm: real): (s: real)
    ensures s * KmPerDegreeLat == 2.0 * radiusKm
    ensures radiusKm > 0.0 ==> s > 0.0
  {
    radiusKm * 2.0 / KmPerDegreeLat
  }

  /** Longitude step between columns: the latitude one stretched by 1 / cos(latitude). */
  function LonSpacing(radiusKm: real, cosLat: real): (s: real)
    requires 0.0 < cosLat <= 1.0
    ensures s == LatSpacing(radiusKm) / cosLat
    ensures radiusKm >= 0.0 ==> s >= LatSpacing(radiusKm)
  {
    DivTwice(radiusKm * 2.0, KmPerDegreeLat, cosLat);
    DivByAtMostOne(LatSpacing(radiusKm), cosLat);
    radiusKm * 2.0 / (KmPerDegreeLat * cosLat)
  }

  /**
   * One axis of the lattice, `np.arange(center - adj, center + adj + spacing, spacing)`:
   * the points `center - adj + i*spacing` lying before the stop one spacing past
   * `center + adj`.
   */
  function Axis(center: real, adj: real, spacing: real): (pts: seq<real>)
    requires spacing != 0.0
    ensures forall i :: 0 <= i < |pts| ==> pts[i] == center - adj + i as real * spacing
  {
    Arange(center - adj, center + adj + spacing, spacing)
  }

  /**
   * The latitude rows: from `centerLat - LatAdjustment` in steps of
   * `LatSpacing`; for a non-negative side and positive radius there are
   * `ceil(side / diameter) + 1` of them.
   */
  function LatPoints(centerLat: real, sideKm: real, radiusKm: real): (pts: seq<real>)
    requires radiusKm != 0.0
    ensures forall i :: 0 <= i < |pts| ==>
      pts[i] == centerLat - LatAdjustment(sideKm) + i as real * LatSpacing(radiusKm)
    ensures sideKm >= 0.0 && radiusKm > 0.0 ==> |pts| == Ceil(sideKm / (2.0 * radiusKm)) + 1
  {
    if sideKm >= 0.0 && radiusKm > 0.0 then
      AxisCount(centerLat, sideKm, radiusKm, 1.0);
      Axis(centerLat, LatAdjustment(sideKm), LatSpacing(radiusKm))
    else
      Axis(centerLat, LatAdjustment(sideKm), LatSpacing(radiusKm))
  }

  /**
   * The longitude columns: the latitude construction with half-extent and
   * step stretched by `1 / cosLat`, hence as many columns as there are rows.
   */
  function LonPoints(centerLon: real, sideKm: real, radiusKm: real, cosLat: real): (pts: seq<real>)
    requires radiusKm != 0.0 && 0.0 < cosLat <= 1.0
    ensures forall i :: 0 <= i < |pts| ==>
      pts[i] == centerLon - LatAdjustment(sideKm) / cosLat + i as real * (LatSpacing(radiusKm) / cosLat)
    ensures sideKm >= 0.0 && radiusKm > 0.0 ==> |pts| == Ceil(sideKm / (2.0 * radiusKm)) + 1
  {
    if sideKm >= 0.0 && radiusKm > 0.0 then
      AxisCount(centerLon, sideKm, radiusKm, cosLat);
      Axis(centerLon, LonAdjustment(sideKm, cosLat), LonSpacing(radiusKm, cosLat))
    else
      Axis(centerLon, LonAdjustment(sideKm, cosLat), LonSpacing(radiusKm, cosLat))
  }

  /** An axis whose half-extent and spacing are the latitude ones divided by `c` has `ceil(side / diameter) + 1` points. */
  lemma AxisCount(center: real, sideKm: real, radiusKm: real, c: real)
    requires sideKm >= 0.0 && radiusKm > 0.0 && 0.0 < c <= 1.0
    ensures |Axis(center, LatAdjustment(sideKm) / c, LatSpacing(radiusKm) / c)| == Ceil(sideKm / (2.0 * radiusKm)) + 1
  {
    var adj, sp := LatAdjustment(sideKm), LatSpacing(radiusKm);
    AxisReachesUpperEdge(center, adj, sp);
    assert 2.0 * adj / sp == sideKm / (2.0 * radiusKm);
    AxisScaleInvariant(center, center, adj, sp, c);
  }

  /** One latitude row of the product. */
  function Row(lat: real, lons: seq<real>): (row: seq<GeoPoint>)
    ensures |row| == |lons|
    ensures forall j :: 0 <= j < |lons| ==> row[j] == GeoPoint(lat, lons[j])
  {
    if lons == [] then [] else [GeoPoint(lat, lons[0])] + Row(lat, lons[1..])
  }

  /** A positive multiple of a positive number is at least that number. */
  lemma MultipleAtLeast(a: int, n: int)
    requires a >= 1 && n > 0
    ensures a * n >= n
  {
    assert a * n == (a - 1) * n + n;
  }
  /** Quotient and remainder of `k` by `n` are the unique pair with `k == q*n + r` and `0 <= r < n`. */
  lemma DivModUnique(k: int, n: int, q: int, r: int)
    requires n > 0 && 0 <= r < n && k == q * n + r
    ensures k / n == q && k % n == r
  {
    var q', r' := k / n, k % n;
    assert k == q' * n + r';
    assert (q' - q) * n == r - r' by {
      assert (q' - q) * n == q' * n - q * n;
    }
    if q' > q {
      MultipleAtLeast(q' - q, n);
    } else if q' < q {
      assert (q - q') * n == r' - r;
      MultipleAtLeast(q - q', n);
    }
  }
  /** Removing one block of `n` lowers the quotient by one and keeps the remainder. */
  lemma DivModShift(k: int, n: int)
    requires n > 0 && k >= n
    ensures k / n == (k - n) / n + 1 && k % n == (k - n) % n
  {
    var k' := k - n;
    assert k' == (k' / n) * n + k' % n;
    assert k == (k' / n + 1) * n + k' % n;
    DivModUnique(k, n, k' / n + 1, k' % n);
  }
  /** One more row adds one more block of `n` elements. */
  lemma RowsTimesColumns(m: int, n: int)
    requires m >= 1
    ensures m * n == n + (m - 1) * n
  {
  }
  /** `[(lat, lon) for lat in lats for lon in lons]`: one row per latitude. */
  function Product(lats: seq<real>, lons: seq<real>): (g: seq<GeoPoint>)
    ensures |g| == |lats| * |lons|
  {
    if lats == [] then []
    else
      RowsTimesColumns(|lats|, |lons|);
      Row(lats[0], lons) + Product(lats[1..], lons)
  }
  /** Element `k` of the product pairs row `k / |lons|` with column `k % |lons|`: latitude outer, longitude inner. */
  lemma {:induction false} ProductAt(lats: seq<real>, lons: seq<real>, k: int)
    requires 0 <= k < |Product(lats, lons)|
    ensures 0 < |lons| && k / |lons| < |lats|
    ensures Product(lats, lons)[k] == GeoPoint(lats[k / |lons|], lons[k % |lons|])
  {
    var n := |lons|;
    assert lats != [];
    var rest := Product(lats[1..], lons);
    assert Product(lats, lons) == Row(lats[0], lons) + rest;
    if k < n {
      DivModUnique(k, n, 0, k);
    } else {
      ProductAt(lats[1..], lons, k - n);
      DivModShift(k, n);
    }
  }

  /**
   * `generate_full_coverage_grid`: the row-major product of the latitude and
   * longitude axes, or the error `np.arange` raises when the spacing is zero.
   */
  function GenerateFullCoverageGrid(centerLat: real, centerLon: real, sideKm: real, radiusKm: real, cosLat: real)
    : (r: Result<seq<GeoPoint>, GridError>)
    requires 0.0 < cosLat <= 1.0
    ensures r.Err? <==> radiusKm == 0.0
    ensures r.Ok? ==>
      |r.value| == |LatPoints(centerLat, sideKm, radiusKm)| * |LonPoints(centerLon, sideKm, radiusKm, cosLat)|
  {
    if radiusKm == 0.0 then Err(ZeroStep)
    else Ok(Product(LatPoints(centerLat, sideKm, radiusKm), LonPoints(centerLon, sideKm, radiusKm, cosLat)))
  }

  /**
   * The grid is row-major: element `k` is the latitude row `k / n` paired with
   * the longitude column `k % n`, where `n` is the number of columns.
   */
  lemma GridRowMajor(centerLat: real, centerLon: real, sideKm: real, radiusKm: real, cosLat: real, k: int)
    requires 0.0 < cosLat <= 1.0
    requires var r := GenerateFullCoverageGrid(centerLat, centerLon, sideKm, radiusKm, cosLat);
      r.Ok? && 0 <= k < |r.value|
    ensures var lats, lons := LatPoints(centerLat, sideKm, radiusKm), LonPoints(centerLon, sideKm, radiusKm, cosLat);
      && |lons| > 0 && k / |lons| < |lats|
      && GenerateFullCoverageGrid(centerLat, centerLon, sideKm, radiusKm, cosLat).value[k]
         == GeoPoint(lats[k / |lons|], lons[k % |lons|])
  {
    ProductAt(LatPoints(centerLat, sideKm, radiusKm), LonPoints(centerLon, sideKm, radiusKm, cosLat), k);
  }

  /**
   * With a positive spacing an axis starts exactly at `center - adj`, climbs by
   * exactly `spacing`, is strictly ascending and stays below the `arange` stop.
   */
  lemma AxisAscending(center: real, adj: real, spacing: real)
    requires spacing > 0.0
    ensures var pts := Axis(center, adj, spacing);
      && (|pts| > 0 ==> pts[0] == center - adj)
      && (forall i :: 0 <= i < |pts| - 1 ==> pts[i + 1] - pts[i] == spacing)
      && (forall i, j :: 0 <= i < j < |pts| ==> pts[i] < pts[j])
      && (forall i :: 0 <= i < |pts| ==> pts[i] < center + adj + spacing)
  {
    var pts := Axis(center, adj, spacing);
    forall i, j | 0 <= i < j < |pts|
      ensures pts[i] < pts[j]
    {
      assert pts[j] - pts[i] == (j - i) as real * spacing;
    }
    forall i | 0 <= i < |pts|
      ensures pts[i] < center + adj + spacing
    {
      assert Before(Point(center - adj, spacing, i), center + adj + spacing, spacing);
    }
  }

  /**
   * For a non-negative half-extent the axis has exactly `ceil(2*adj/spacing) + 1`
   * points (at least two when the half-extent is positive), and its last point
   * reaches the upper edge `center + adj` without passing the `arange` stop.
   */
  lemma AxisReachesUpperEdge(center: real, adj: real, spacing: real)
    requires spacing > 0.0 && adj >= 0.0
    ensures var pts := Axis(center, adj, spacing);
      && |pts| == Ceil(2.0 * adj / spacing) + 1
      && (adj > 0.0 ==> |pts| >= 2)
      && center + adj <= pts[|pts| - 1] < center + adj + spacing
  {
    var pts := Axis(center, adj, spacing);
    var start, stop := center - adj, center + adj + spacing;
    var q := (stop - start) / spacing;
    assert stop - start == 2.0 * adj + spacing;
    DivSum(2.0 * adj, spacing, spacing);
    assert spacing / spacing == 1.0;
    assert q == 2.0 * adj / spacing + 1.0;
    assert q > 0.0;
    assert Ceil(q) == Ceil(2.0 * adj / spacing) + 1;
    if adj > 0.0 {
      assert 2.0 * adj / spacing > 0.0;
    }
    var n := |pts|;
    assert Before(Point(start, spacing, n - 1), stop, spacing);
    assert !Before(Point(start, spacing, n), stop, spacing);
    assert pts[n - 1] == Point(start, spacing, n) - spacing;
  }

  /**
   * One-dimensional coverage: every coordinate between the two edges of the
   * square is within half a spacing (one circle radius) of some axis point.
   */
  lemma AxisCovers(center: real, adj: real, spacing: real, x: real)
    requires spacing > 0.0 && adj >= 0.0
    requires center - adj <= x <= center + adj
    ensures var pts := Axis(center, adj, spacing);
      exists i :: 0 <= i < |pts| && -spacing / 2.0 <= x - pts[i] <= spacing / 2.0
  {
    var pts := Axis(center, adj, spacing);
    var i := NearestMultiple(x - (center - adj), spacing, 2.0 * adj);
    assert |pts| == Ceil(2.0 * adj / spacing) + 1 by {
      AxisReachesUpperEdge(center, adj, spacing);
    }
    assert -spacing / 2.0 <= x - pts[i] <= spacing / 2.0;
  }

  /**
   * The multiple of `spacing` nearest to a distance `d` in `[0, m]`: its index
   * is below `m / spacing + 1` and it is within half a spacing of `d`.
   */
  lemma NearestMultiple(d: real, spacing: real, m: real) returns (i: nat)
    requires spacing > 0.0 && 0.0 <= d <= m
    ensures (i as real) < m / spacing + 1.0
    ensures -spacing / 2.0 <= d - i as real * spacing <= spacing / 2.0
  {
    var t := d / spacing + 0.5;
    assert d / spacing >= 0.0;
    i := t.Floor;
    assert d / spacing <= m / spacing by {
      CompareQuotient(d, spacing, m / spacing);
      assert m / spacing * spacing == m;
      if d / spacing > m / spacing {
        CompareQuotient(m, spacing, d / spacing);
      }
    }
    var lo := i as real - 0.5;
    assert lo <= d / spacing < lo + 1.0;
    CompareQuotient(d, spacing, lo);
    CompareQuotient(d, spacing, lo + 1.0);
    assert lo * spacing == i as real * spacing - spacing / 2.0;
    assert (lo + 1.0) * spacing == i as real * spacing + spacing / 2.0;
  }

  /** Dividing half-extent and spacing by the same positive factor leaves the point count unchanged. */
  lemma AxisScaleInvariant(center: real, center': real, adj: real, spacing: real, c: real)
    requires spacing != 0.0 && c > 0.0
    ensures |Axis(center', adj / c, spacing / c)| == |Axis(center, adj, spacing)|
  {
    var q := (center + adj + spacing - (center - adj)) / spacing;
    var q' := (center' + adj / c + spacing / c - (center' - adj / c)) / (spacing / c);
    assert q == (2.0 * adj + spacing) / spacing;
    assert q' == ((2.0 * adj + spacing) / c) / (spacing / c);
    assert q' == q;
  }

  /**
   * For a positive side and radius every adjustment and spacing is positive,
   * the longitude ones are the latitude ones divided by the cosine, and the
   * grid is a square n-by-n lattice with n = ceil(side / diameter) + 1 >= 2.
   */
  lemma PositiveInputsGiveSquareGrid(centerLat: real, centerLon: real, sideKm: real, radiusKm: real, cosLat: real)
    requires sideKm > 0.0 && radiusKm > 0.0 && 0.0 < cosLat <= 1.0
    ensures 0.0 < LatAdjustment(sideKm) <= LonAdjustment(sideKm, cosLat)
    ensures 0.0 < LatSpacing(radiusKm) <= LonSpacing(radiusKm, cosLat)
    ensures var lats, lons := LatPoints(centerLat, sideKm, radiusKm), LonPoints(centerLon, sideKm, radiusKm, cosLat);
      && |lats| == |lons| == Ceil(sideKm / (2.0 * radiusKm)) + 1
      && |lats| >= 2
      && var r := GenerateFullCoverageGrid(centerLat, centerLon, sideKm, radiusKm, cosLat);
         r.Ok? && |r.value| == |lats| * |lats| >= 4
  {
    var adj, sp := LatAdjustment(sideKm), LatSpacing(radiusKm);
    AxisReachesUpperEdge(centerLat, adj, sp);
    assert 2.0 * adj / sp == sideKm / (2.0 * radiusKm);
    AxisScaleInvariant(centerLat, centerLon, adj, sp, cosLat);
    var n := |LatPoints(centerLat, sideKm, radiusKm)|;
    assert n * n >= 4 by {
      assert n * n >= 2 * n;
    }
  }

  /**
   * The grid the program builds for New York (centre latitude 40.712776, a
   * 50 km square, 2 km circles) has 14 latitude rows from 40.712776 - 25/111
   * in steps of 4/111; the last row lies half a spacing beyond the square's
   * upper edge.
   */
  lemma NewYorkLatitudeRows()
    ensures var lats := LatPoints(40.712776, 50.0, 2.0);
      && |lats| == 14
      && lats[0] == 40.712776 - 25.0 / 111.0
      && lats[13] == 40.712776 - 25.0 / 111.0 + 52.0 / 111.0
      && lats[13] - (40.712776 + LatAdjustment(50.0)) == LatSpacing(2.0) / 2.0
  {
    assert 50.0 / (2.0 * 2.0) == 12.5;
  }
}
