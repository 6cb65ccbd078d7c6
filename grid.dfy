/**
 * The gridded wind data `fetch_gfs_data` returns, and the two coordinate
 * operations it applies to Herbie's output (lines 15-16): longitudes are
 * renamed into [-180, 180) and every longitude-indexed array, coordinate
 * and data alike, is rolled by half its length.
 */
module Grid {
  import opened Wrappers

  /** A float cell of a wind field, as far as serialization tells them apart. */
  datatype Cell = Finite(value: real) | NaN | PosInf | NegInf

  /** Rows by latitude, columns by longitude, as the GRIB decode gives them. */
  type Field = seq<seq<Cell>>

  /** An xarray Dataset with its data variables (`u`, `v`, ...) and its two coordinates. */
  datatype Dataset = Dataset(fields: map<string, Field>, longitude: seq<real>, latitude: seq<real>)

  /** Every row of `rows` has `nx` cells and there are `ny` rows. */
  predicate Shaped(rows: Field, ny: nat, nx: nat) {
    |rows| == ny && forall i :: 0 <= i < ny ==> |rows[i]| == nx
  }

  /** Every variable of the dataset lies on its latitude-by-longitude grid. */
  predicate WellShaped(ds: Dataset) {
    forall name :: name in ds.fields ==> Shaped(ds.fields[name], |ds.latitude|, |ds.longitude|)
  }

  predicate IsWhole(q: real) {
    q == q.Floor as real
  }

  /** Python's float `x % 360`: the floor remainder. */
  function Mod360(x: real): (r: real)
    ensures 0.0 <= r < 360.0
    ensures IsWhole((x - r) / 360.0)
  {
    x - 360.0 * (x / 360.0).Floor as real
  }

  /** `((lon + 180) % 360) - 180` */
  function NormalizeLongitude(lon: real): (r: real)
    ensures -180.0 <= r < 180.0
    ensures IsWhole((lon - r) / 360.0)
    ensures -180.0 <= lon < 180.0 ==> r == lon
  {
    Mod360(lon + 180.0) - 180.0
  }

  function NormalizeAll(lons: seq<real>): (r: seq<real>)
    ensures |r| == |lons|
    ensures forall i :: 0 <= i < |lons| ==> r[i] == NormalizeLongitude(lons[i])
  {
    seq(|lons|, i requires 0 <= i < |lons| => NormalizeLongitude(lons[i]))
  }

  /** numpy/xarray `roll` by `k` places: the last `k` elements move to the front. */
  function Roll<T>(s: seq<T>, k: int): (r: seq<T>)
    ensures |r| == |s|
    ensures forall i :: 0 <= i < |s| ==> r[i] == s[(i - k) % |s|]
    ensures multiset(r) == multiset(s)
  {
    if |s| == 0 then s
    else
      var m := k % |s|;
      assert s == s[..|s| - m] + s[|s| - m..];
      RollAt(s, k, s[|s| - m..] + s[..|s| - m]);
      s[|s| - m..] + s[..|s| - m]
  }

  lemma RollAt<T>(s: seq<T>, k: int, r: seq<T>)
    requires |s| > 0 && r == s[|s| - k % |s|..] + s[..|s| - k % |s|]
    ensures forall i :: 0 <= i < |s| ==> r[i] == s[(i - k) % |s|]
  {
    var n := |s|;
    var m := k % n;
    forall i | 0 <= i < n
      ensures r[i] == s[(i - k) % n]
    {
      if i < m {
        ModUnique(i - k, n, k / n * -1 - 1, i - m + n);
      } else {
        ModUnique(i - k, n, k / n * -1, i - m);
      }
    }
  }

  /** Euclidean remainders are unique. */
  lemma ModUnique(a: int, n: int, q: int, r: int)
    requires n > 0 && 0 <= r < n && a == q * n + r
    ensures a % n == r
  {
    var q', r' := a / n, a % n;
    assert (q - q') * n == r' - r;
    if q > q' {
      MulAtLeast(q - q', n);
    } else if q < q' {
      MulAtLeast(q' - q, n);
    }
  }

  lemma MulAtLeast(x: int, n: int)
    requires x >= 1 && n > 0
    ensures x * n >= n
  {
  }

  /** Every row rolled along the longitude axis. */
  function RollRows(rows: Field, k: int): (r: Field)
    ensures |r| == |rows|
    ensures forall i :: 0 <= i < |rows| ==> r[i] == Roll(rows[i], k)
  {
    seq(|rows|, i requires 0 <= i < |rows| => Roll(rows[i], k))
  }

  /**
   * Lines 15-16: rename the longitudes, then roll longitude and every
   * variable by `int(len(longitude) / 2)` with `roll_coords=True`.
   */
  function NormalizeAndRoll(ds: Dataset): (r: Dataset)
    ensures r.fields.Keys == ds.fields.Keys
    ensures r.latitude == ds.latitude && |r.longitude| == |ds.longitude|
    ensures forall i :: 0 <= i < |r.longitude| ==> -180.0 <= r.longitude[i] < 180.0
  {
    var shift := |ds.longitude| / 2;
    Dataset(map name | name in ds.fields :: RollRows(ds.fields[name], shift),
            Roll(NormalizeAll(ds.longitude), shift),
            ds.latitude)
  }

  /**
   * The roll moves data with its coordinate: in every row, the cell now in
   * column `j` is the cell that sat in column `(j - n/2) mod n`, and the
   * longitude now at `j` is that column's longitude, renamed.
   */
  lemma NormalizeAndRollKeepsCellsWithTheirLongitude(ds: Dataset, name: string, i: int, j: int)
    requires WellShaped(ds) && name in ds.fields
    requires 0 <= i < |ds.latitude| && 0 <= j < |ds.longitude|
    ensures var n := |ds.longitude|; var r := NormalizeAndRoll(ds); var src := (j - n / 2) % n;
      && WellShaped(r)
      && r.fields[name][i][j] == ds.fields[name][i][src]
      && r.longitude[j] == NormalizeLongitude(ds.longitude[src])
  {
    var r := NormalizeAndRoll(ds);
    forall other | other in r.fields
      ensures Shaped(r.fields[other], |r.latitude|, |r.longitude|)
    {
      assert r.fields[other] == RollRows(ds.fields[other], |ds.longitude| / 2);
    }
    assert r.fields[name] == RollRows(ds.fields[name], |ds.longitude| / 2);
    assert r.longitude == Roll(NormalizeAll(ds.longitude), |ds.longitude| / 2);
  }

  /**
   * A global grid of `n` longitudes `0, step, ..., 360 - step`, once renamed
   * and rolled by n/2, runs `-180, -180 + step, ...` in ascending order:
   * the roll is what keeps the renamed axis sorted.
   */
  lemma GlobalGridBecomesAscending(n: nat, step: real)
    requires n > 0 && n % 2 == 0 && step > 0.0 && n as real * step == 360.0
    ensures var out := Roll(NormalizeAll(seq(n, i => ColumnLongitude(i, step))), n / 2);
      forall j :: 0 <= j < n ==> out[j] == -180.0 + j as real * step
  {
    var lons := seq(n, i => ColumnLongitude(i, step));
    var out := Roll(NormalizeAll(lons), n / 2);
    HalfTurn(n, step);
    var renamed := NormalizeAll(lons);
    forall j | 0 <= j < n
      ensures out[j] == -180.0 + j as real * step
    {
      var src := (j - n / 2) % n;
      assert 0 <= src < n;
      assert out[j] == renamed[src];
      assert renamed[src] == NormalizeLongitude(lons[src]);
      assert lons[src] == ColumnLongitude(src, step);
      AscendingAt(n, step, j);
    }
  }

  /** The longitude of column `i` of a grid spaced `step` degrees from 0. */
  function ColumnLongitude(i: int, step: real): real {
    i as real * step
  }

  lemma HalfTurn(n: nat, step: real)
    requires n % 2 == 0 && n as real * step == 360.0
    ensures (n / 2) as real * step == 180.0
  {
    var h := n / 2;
    assert n as real == h as real + h as real;
    Distribute(h as real, h as real, step);
  }

  lemma AscendingAt(n: nat, step: real, j: int)
    requires n > 0 && n % 2 == 0 && step > 0.0 && (n / 2) as real * step == 180.0 && 0 <= j < n
    ensures NormalizeLongitude(ColumnLongitude((j - n / 2) % n, step)) == -180.0 + j as real * step
  {
    var h := n / 2;
    assert n == h + h;
    if j < h {
      ModUnique(j - h, n, -1, j + h);
      AscendingAtLow(h, step, j);
    } else {
      ModUnique(j - h, n, 0, j - h);
      AscendingAtHigh(h, step, j);
    }
  }

  /** Columns taken from the western half, [180, 360), move down a turn. */
  lemma AscendingAtLow(h: int, step: real, j: int)
    requires step > 0.0 && h as real * step == 180.0 && 0 <= j < h
    ensures NormalizeLongitude(ColumnLongitude(j + h, step)) == -180.0 + j as real * step
  {
    LowColumn(h, step, j);
    MovesByOneTurn(ColumnLongitude(j + h, step));
  }

  lemma LowColumn(h: int, step: real, j: int)
    requires step > 0.0 && h as real * step == 180.0 && 0 <= j < h
    ensures ColumnLongitude(j + h, step) == j as real * step + 180.0
    ensures 0.0 <= j as real * step < 180.0
  {
    BelowHalfTurn(j, h, step);
    SumColumn(j, h, step);
  }

  /** Fewer than `h` columns span less than half a turn. */
  lemma BelowHalfTurn(j: int, h: int, step: real)
    requires step > 0.0 && h as real * step == 180.0 && 0 <= j < h
    ensures 0.0 <= ColumnLongitude(j, step) < 180.0
  {
    NonNegativeProduct(j as real, step);
    MultiplyMonotone(j as real, h as real, step);
  }

  /** Column `j + h` lies `h` columns east of column `j`. */
  lemma SumColumn(j: int, h: int, step: real)
    ensures ColumnLongitude(j + h, step) == ColumnLongitude(j, step) + ColumnLongitude(h, step)
  {
    var a, b := j as real, h as real;
    assert (j + h) as real == a + b;
    Distribute(a, b, step);
  }

  /** Columns taken from the eastern half, [0, 180), keep their longitude. */
  lemma AscendingAtHigh(h: int, step: real, j: int)
    requires step > 0.0 && h as real * step == 180.0 && h <= j < h + h
    ensures NormalizeLongitude(ColumnLongitude(j - h, step)) == -180.0 + j as real * step
  {
    HighColumn(h, step, j);
  }

  lemma HighColumn(h: int, step: real, j: int)
    requires step > 0.0 && h as real * step == 180.0 && h <= j < h + h
    ensures 0.0 <= ColumnLongitude(j - h, step) < 180.0
    ensures j as real * step == ColumnLongitude(j - h, step) + 180.0
  {
    BelowHalfTurn(j - h, h, step);
    SumColumn(j - h, h, step);
  }

  lemma NonNegativeProduct(a: real, b: real)
    requires a >= 0.0 && b >= 0.0
    ensures a * b >= 0.0
  {
  }

  lemma Distribute(a: real, b: real, c: real)
    ensures (a + b) * c == a * c + b * c
  {
  }

  lemma MultiplyMonotone(a: real, b: real, c: real)
    requires a < b && c > 0.0
    ensures a * c < b * c
  {
  }

  /** A longitude in [180, 540) is renamed by one full turn down. */
  lemma MovesByOneTurn(lon: real)
    requires 180.0 <= lon < 540.0
    ensures NormalizeLongitude(lon) == lon - 360.0
  {
    var q := (lon + 180.0) / 360.0;
    assert 1.0 <= q < 2.0;
    assert q.Floor == 1;
  }
}
