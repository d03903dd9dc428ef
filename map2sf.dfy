/**
 * `transform_map_to_sf`: the map-to-structure-factor conversion that turns
 * a density map into amplitude and phase columns of an MTZ file, either
 * added to the reflections of a base file or written as a new file that
 * lists every reflection of the asymmetric unit.
 *
 * The Fourier transform of the map, the reciprocal-ASU test of the space
 * group and the 1/d^2 of a Miller index come in as values and functions:
 * the model checks what the conversion does with them, not the
 * crystallography or the floating point behind them.
 */
module Map2Sf {
  import opened Wrappers
  import opened CString
  import opened Floats
  import opened Reflections

  // ---------------------------------------------------------------------
  // Inputs

  /** The options of the command line; an absent option is None. */
  datatype Options = Options(
    section: Option<seq<CChar>>,
    dmin: Option<real>,
    ftype: Option<seq<CChar>>,
    phitype: Option<seq<CChar>>)

  /** The density map after it was set up on the full unit-cell grid (NaN where the file has no value). */
  datatype DensityMap = DensityMap(data: seq<Float>, cell: UnitCell, spacegroup: seq<CChar>)

  /** One structure factor: the amplitude and the phase in degrees. */
  datatype Coef = Coef(amplitude: Float, phase: Float)

  /**
   * The transform of the map with half of the l axis stored: its
   * dimensions, the stored value at a grid position (`get_value_q`) and the
   * value at any Miller index (`get_value`).
   */
  datatype ReciprocalGrid = ReciprocalGrid(
    nu: int, nv: int, nw: int,
    valueQ: (int, int, int) -> Coef,
    value: (int, int, int) -> Coef)

  predicate WellFormed(g: ReciprocalGrid) {
    1 <= g.nu && 1 <= g.nv && 1 <= g.nw
  }

  /** `get_value_q(u, v, w)`: only positions inside the grid may be read. */
  function GetValueQ(g: ReciprocalGrid, u: int, v: int, w: int): Coef
    requires 0 <= u < g.nu && 0 <= v < g.nv && 0 <= w < g.nw
  {
    g.valueQ(u, v, w)
  }

  /**
   * Which Miller indices the new file lists: those in the reciprocal ASU
   * of the space group, inside the resolution limit (`min1d2 == 0` meaning
   * no limit), and not the origin.
   */
  datatype Filter = Filter(
    inAsu: (int, int, int) -> bool,
    oneOverD2: (int, int, int) -> real,
    min1d2: real)

  datatype Error = MapDoesNotCoverAsu | MmcifNotImplemented {
    function Message(): string {
      match this
      case MapDoesNotCoverAsu => "Map does not cover all the ASU"
      case MmcifNotImplemented => "mmCIF support not implemented yet"
    }
  }

  // ---------------------------------------------------------------------
  // Options

  /** `arg[0]` of an option's argument; the terminating NUL for an empty one. */
  function FirstChar(arg: seq<CChar>): CChar {
    if |arg| == 0 then Nul else arg[0]
  }

  /**
   * A column type option: the upper-case form of the first char of its
   * argument, or the default when the option is absent.
   */
  function TypeCode(arg: Option<seq<CChar>>, default: CChar): (c: CChar)
    ensures arg.None? ==> c == default
    ensures arg.Some? ==> !IsLower(c) && ToLower(c) == ToLower(FirstChar(arg.value))
    ensures arg.Some? && !IsLower(FirstChar(arg.value)) ==> c == FirstChar(arg.value)
  {
    match arg
    case None => default
    case Some(s) => ToUpper(FirstChar(s))
  }

  /** The amplitude column type, 'F' by default. */
  function FType(opts: Options): (c: CChar)
    ensures opts.ftype.None? ==> c == Ch('F')
    ensures opts.ftype.Some? ==> !IsLower(c) && ToLower(c) == ToLower(FirstChar(opts.ftype.value))
  {
    TypeCode(opts.ftype, Ch('F'))
  }

  /** The phase column type, 'P' by default. */
  function PhiType(opts: Options): (c: CChar)
    ensures opts.phitype.None? ==> c == Ch('P')
    ensures opts.phitype.Some? ==> !IsLower(c) && ToLower(c) == ToLower(FirstChar(opts.phitype.value))
  {
    TypeCode(opts.phitype, Ch('P'))
  }

  /** A type given in either letter case gives the same column type. */
  lemma TypeCodeIgnoresCase(a: seq<CChar>, b: seq<CChar>, default: CChar)
    requires ToLower(FirstChar(a)) == ToLower(FirstChar(b))
    ensures TypeCode(Some(a), default) == TypeCode(Some(b), default)
  {
    var x, y := FirstChar(a), FirstChar(b);
    if IsUpper(x) {
      assert ToUpper(ToLower(x)) == x;
    }
    if IsUpper(y) {
      assert ToUpper(ToLower(y)) == y;
    }
  }

  /**
   * `min_1_d2`: 0 without `--dmin`, else 1/dmin^2. Only an absent option
   * turns the resolution limit off.
   */
  function MinOneOverD2(dmin: Option<real>): (m: real)
    requires dmin != Some(0.0)
    ensures 0.0 <= m
    ensures m == 0.0 <==> dmin.None?
    ensures dmin.Some? ==> m * dmin.value * dmin.value == 1.0
  {
    match dmin
    case None => 0.0
    case Some(d) => 1.0 / (d * d)
  }

  // ---------------------------------------------------------------------
  // The coverage gate and the output format

  /** Whether some cell of the map is NaN, i.e. the map does not cover the whole cell. */
  function AnyUndefined(data: seq<Float>): (r: bool)
    ensures r <==> exists i :: 0 <= i < |data| && data[i].NaN?
  {
    if |data| == 0 then false
    else if data[0].NaN? then true
    else
      var rest := AnyUndefined(data[1..]);
      assert forall i :: 1 <= i < |data| ==> data[i] == data[1..][i - 1];
      rest
  }

  /** Every char of `s` lowered. */
  function Lower(s: seq<CChar>): (r: seq<CChar>)
    ensures |r| == |s| && forall j :: 0 <= j < |s| ==> r[j] == ToLower(s[j])
  {
    seq(|s|, j requires 0 <= j < |s| => ToLower(s[j]))
  }

  /**
   * `iends_with(s, suffix)`: the chars of `s` are compared, lowered, with
   * those of `suffix` as given, from `|s| - |suffix|` on. A suffix that
   * holds an upper-case letter therefore never matches; the conversion only
   * passes the lower-case ".mtz".
   */
  predicate IEndsWith(s: seq<CChar>, suffix: seq<CChar>)
    ensures IEndsWith(s, suffix) <==> |suffix| <= |s| && Lower(s[|s| - |suffix|..]) == suffix
  {
    |suffix| <= |s| &&
    forall j :: 0 <= j < |suffix| ==> suffix[j] == ToLower(s[|s| - |suffix| + j])
  }

  /** The output is an MTZ file when its path ends in ".mtz", in any letter case. */
  function MtzSuffix(): (m: seq<CChar>)
    ensures |m| == 4 && forall j :: 0 <= j < 4 ==> !IsUpper(m[j])
  {
    Ascii(".mtz")
  }

  function Upper(s: seq<CChar>): (r: seq<CChar>)
    ensures |r| == |s| && forall j :: 0 <= j < |s| ==> r[j] == ToUpper(s[j])
  {
    seq(|s|, j requires 0 <= j < |s| => ToUpper(s[j]))
  }

  /**
   * The extension test ignores the case of the path: upper-casing a path
   * never changes whether it is written as MTZ.
   */
  lemma {:induction false} MtzTestIgnoresCase(path: seq<CChar>)
    ensures IEndsWith(path, MtzSuffix()) <==> IEndsWith(Upper(path), MtzSuffix())
  {
    var u := Upper(path);
    forall p | 0 <= p < |path|
      ensures ToLower(u[p]) == ToLower(path[p])
    {
      if IsUpper(path[p]) {
        assert ToUpper(path[p]) == path[p];
      }
    }
  }

  // ---------------------------------------------------------------------
  // Dataset selection (base file)

  /** The dataset the new columns of a base file go to: -1 unless `--section` names an existing one. */
  function SelectedDatasetId(ds: seq<Dataset>, section: Option<seq<CChar>>): int {
    if section.None? then -1
    else
      match DatasetWithName(ds, section.value)
      case Some(i) => ds[i].id
      case None => -1
  }

  /** The datasets after selection: a `--section` that names no dataset adds one. */
  function DatasetsAfterSelection(ds: seq<Dataset>, section: Option<seq<CChar>>): seq<Dataset> {
    if section.Some? && DatasetWithName(ds, section.value).None? then
      ds + [Dataset(NextDatasetId(ds), section.value)]
    else
      ds
  }

  /**
   * The chosen id is that of the first dataset carrying the section's name,
   * or -1; afterwards a dataset of that name exists, and no dataset other
   * than one of that name is ever added.
   */
  lemma SelectionMeaning(ds: seq<Dataset>, section: Option<seq<CChar>>)
    ensures section.None? ==> SelectedDatasetId(ds, section) == -1 && DatasetsAfterSelection(ds, section) == ds
    ensures section.Some? && (forall j :: 0 <= j < |ds| ==> ds[j].name != section.value) ==>
      SelectedDatasetId(ds, section) == -1 &&
      DatasetsAfterSelection(ds, section) == ds + [Dataset(NextDatasetId(ds), section.value)]
    ensures section.Some? && (exists j :: 0 <= j < |ds| && ds[j].name == section.value) ==>
      DatasetsAfterSelection(ds, section) == ds &&
      exists j :: 0 <= j < |ds| && ds[j].name == section.value && ds[j].id == SelectedDatasetId(ds, section) &&
        forall j' :: 0 <= j' < j ==> ds[j'].name != section.value
    ensures section.Some? ==>
      exists j :: 0 <= j < |DatasetsAfterSelection(ds, section)| &&
        DatasetsAfterSelection(ds, section)[j].name == section.value
  {
    if section.Some? {
      var after := DatasetsAfterSelection(ds, section);
      match DatasetWithName(ds, section.value)
      case Some(i) =>
        assert ds[i].name == section.value;
      case None =>
        assert after[|ds|].name == section.value;
    }
  }

  /** The dataset selection of `transform_map_to_sf`: the id for the new columns. */
  method SelectDataset(mtz: Mtz, section: Option<seq<CChar>>) returns (datasetId: int)
    modifies mtz`datasets
    ensures datasetId == SelectedDatasetId(old(mtz.datasets), section)
    ensures mtz.datasets == DatasetsAfterSelection(old(mtz.datasets), section)
  {
    datasetId := -1;
    if section.Some? {
      var dsName := section.value;
      var found := DatasetWithName(mtz.datasets, dsName);
      if found.Some? {
        datasetId := mtz.datasets[found.value].id;
      } else {
        mtz.AddDataset(dsName);
      }
    }
  }

  // ---------------------------------------------------------------------
  // Filling the new columns of a base file

  /** The Miller index a row stores in its first three cells, read back with `(int)` casts. */
  function RowIndex(row: seq<Float>): (idx: (int, int, int))
    requires 3 <= |row|
    ensures IsInt32(idx.0) && IsInt32(idx.1) && IsInt32(idx.2)
    ensures forall n :: IsInt32(n) && row[0] == FromInt(n) ==> idx.0 == n
    ensures forall n :: IsInt32(n) && row[1] == FromInt(n) ==> idx.1 == n
    ensures forall n :: IsInt32(n) && row[2] == FromInt(n) ==> idx.2 == n
    ensures row[0].NaN? ==> idx.0 == IntMin
    ensures row[1].NaN? ==> idx.1 == IntMin
    ensures row[2].NaN? ==> idx.2 == IntMin
  {
    (ToInt(row[0]), ToInt(row[1]), ToInt(row[2]))
  }

  /**
   * One row of a base file after the fill: the cells at `fIdx` and
   * `fIdx + 1` hold the amplitude and phase of the transform at the row's
   * Miller index, every other cell is kept.
   */
  function FillRow(row: seq<Float>, fIdx: nat, g: ReciprocalGrid): (r: seq<Float>)
    requires 3 <= |row| && fIdx + 1 < |row|
    ensures |r| == |row|
    ensures r[fIdx] == g.value(ToInt(row[0]), ToInt(row[1]), ToInt(row[2])).amplitude
    ensures r[fIdx + 1] == g.value(ToInt(row[0]), ToInt(row[1]), ToInt(row[2])).phase
    ensures forall c :: 0 <= c < |row| && c != fIdx && c != fIdx + 1 ==> r[c] == row[c]
  {
    var v := g.value(ToInt(row[0]), ToInt(row[1]), ToInt(row[2]));
    row[fIdx := v.amplitude][fIdx + 1 := v.phase]
  }

  /** The table of `n` rows of width `w`, with every row filled. */
  function FillRows(d: seq<Float>, n: nat, w: nat, fIdx: nat, g: ReciprocalGrid): (r: seq<Float>)
    requires |d| == n * w && fIdx + 1 < w && (n == 0 || 3 <= w)
    ensures |r| == n * w
    decreases n
  {
    if n == 0 then []
    else
      RowBound(n, w, n - 1);
      FillRows(d[..(n - 1) * w], n - 1, w, fIdx, g) + FillRow(Row(d, n, w, n - 1), fIdx, g)
  }

  /** Row `i` of the filled table is row `i` of the table, filled. */
  lemma {:induction false} FillRowsRow(d: seq<Float>, n: nat, w: nat, fIdx: nat, g: ReciprocalGrid, i: nat)
    requires |d| == n * w && fIdx + 1 < w && 3 <= w && i < n
    ensures Row(FillRows(d, n, w, fIdx, g), n, w, i) == FillRow(Row(d, n, w, i), fIdx, g)
    decreases n
  {
    RowsSplitLast(d, n, w);
    var prefix := d[..(n - 1) * w];
    var fPrefix := FillRows(prefix, n - 1, w, fIdx, g);
    var last := FillRow(Row(d, n, w, n - 1), fIdx, g);
    RowOfAppended(fPrefix, last, n, w, i);
    if i < n - 1 {
      FillRowsRow(prefix, n - 1, w, fIdx, g, i);
    }
  }

  /** One step of the fill loop: filling row `i` of the rest extends the filled prefix. */
  lemma FillStep(d0: seq<Float>, i: nat, w: nat, fIdx: nat, g: ReciprocalGrid, n: nat)
    requires |d0| == n * w && i < n && fIdx + 1 < w && 3 <= w
    ensures i * w + w <= |d0| && (i + 1) * w == i * w + w
    ensures FillRows(d0[..(i + 1) * w], i + 1, w, fIdx, g) ==
      FillRows(d0[..i * w], i, w, fIdx, g) + FillRow(d0[i * w..i * w + w], fIdx, g)
  {
    RowBound(n, w, i);
    var p := d0[..(i + 1) * w];
    assert |p| == (i + 1) * w;
    RowBound(i + 1, w, i);
    assert p[..i * w] == d0[..i * w];
    assert Row(p, i + 1, w, i) == d0[i * w..i * w + w];
  }

  /** Writing amplitude and phase into one row of a table, the rest of the table kept. */
  lemma UpdateInRow(pre: seq<Float>, row: seq<Float>, post: seq<Float>, fIdx: nat, a: Float, b: Float)
    requires fIdx + 1 < |row|
    ensures (pre + row + post)[|pre| + fIdx := a][|pre| + fIdx + 1 := b] ==
      pre + row[fIdx := a][fIdx + 1 := b] + post
  {
  }

  /**
   * One pass of the fill loop: with rows `0 .. i-1` filled, reading the
   * index of row `i` and writing its two cells fills rows `0 .. i`.
   */
  lemma FillLoopStep(d0: seq<Float>, data: seq<Float>, n: nat, w: nat, fIdx: nat, g: ReciprocalGrid, i: nat)
    requires |d0| == n * w && i < n && fIdx + 1 < w && 3 <= w
    requires i * w <= |d0| && data == FillRows(d0[..i * w], i, w, fIdx, g) + d0[i * w..]
    ensures i * w + w <= |data| == |d0| && (i + 1) * w == i * w + w
    ensures var v := g.value(ToInt(data[i * w + 0]), ToInt(data[i * w + 1]), ToInt(data[i * w + 2]));
      data[i * w + fIdx := v.amplitude][i * w + fIdx + 1 := v.phase] ==
        FillRows(d0[..(i + 1) * w], i + 1, w, fIdx, g) + d0[(i + 1) * w..]
  {
    FillStep(d0, i, w, fIdx, g, n);
    var start := i * w;
    var pre := FillRows(d0[..start], i, w, fIdx, g);
    var row := d0[start..start + w];
    var post := d0[start + w..];
    assert d0[start..] == row + post;
    assert data == pre + row + post;
    assert |pre| == start;
    assert data[start + 0] == row[0] && data[start + 1] == row[1] && data[start + 2] == row[2];
    var v := g.value(ToInt(row[0]), ToInt(row[1]), ToInt(row[2]));
    UpdateInRow(pre, row, post, fIdx, v.amplitude, v.phase);
  }

  /**
   * One pass of the fill loop: read the Miller index of row `i` with `(int)`
   * casts and write the transform's amplitude and phase at that index into
   * the row's new cells.
   */
  method FillRowInPlace(mtz: Mtz, ncol: nat, fIdx: nat, hkl: ReciprocalGrid, i: nat, ghost d0: seq<Float>, ghost n: nat)
    requires |d0| == n * ncol && i < n && fIdx + 1 < ncol && 3 <= ncol
    requires i * ncol <= |d0| && mtz.data == FillRows(d0[..i * ncol], i, ncol, fIdx, hkl) + d0[i * ncol..]
    modifies mtz`data
    ensures (i + 1) * ncol <= |d0|
    ensures mtz.data == FillRows(d0[..(i + 1) * ncol], i + 1, ncol, fIdx, hkl) + d0[(i + 1) * ncol..]
  {
    FillLoopStep(d0, mtz.data, n, ncol, fIdx, hkl, i);
    var start := i * ncol;
    var h := ToInt(mtz.data[start + 0]);
    var k := ToInt(mtz.data[start + 1]);
    var l := ToInt(mtz.data[start + 2]);
    var v := hkl.value(h, k, l);
    mtz.data := mtz.data[start + fIdx := v.amplitude];
    mtz.data := mtz.data[start + fIdx + 1 := v.phase];
  }

  /**
   * The fill loop of the base-file branch: fill the new columns of every
   * row from the transform at the row's Miller index.
   */
  method FillColumns(mtz: Mtz, fIdx: nat, hkl: ReciprocalGrid)
    requires mtz.Valid() && fIdx + 1 < |mtz.columns|
    requires mtz.nreflections == 0 || 3 <= |mtz.columns|
    modifies mtz`data
    ensures mtz.data == FillRows(old(mtz.data), mtz.nreflections, |mtz.columns|, fIdx, hkl)
  {
    var ncol := |mtz.columns|;
    ghost var n := mtz.nreflections;
    ghost var d0 := mtz.data;
    var i := 0;
    while i != mtz.nreflections
      invariant 0 <= i <= n && i * ncol <= |d0|
      invariant mtz.data == FillRows(d0[..i * ncol], i, ncol, fIdx, hkl) + d0[i * ncol..]
    {
      FillRowInPlace(mtz, ncol, fIdx, hkl, i, d0, n);
      i := i + 1;
    }
    assert d0[..n * ncol] == d0;
  }

  /**
   * The whole base-file update: every row keeps its old cells, followed by
   * the amplitude and phase of the transform at the Miller index its first
   * three cells hold.
   */
  lemma BaseRowsKept(d: seq<Float>, n: nat, w: nat, g: ReciprocalGrid, i: nat)
    requires |d| == n * w && 1 <= w && i < n
    ensures |ExpandRows(d, n, w, 2)| == n * (w + 2)
    ensures var old_row := Row(d, n, w, i);
      var new_row := Row(FillRows(ExpandRows(d, n, w, 2), n, w + 2, w, g), n, w + 2, i);
      var idx := RowIndex(old_row + Nans(2));
      var v := g.value(idx.0, idx.1, idx.2);
      new_row == old_row + [v.amplitude, v.phase]
  {
    var e := ExpandRows(d, n, w, 2);
    ExpandRowsRow(d, n, w, 2, i);
    FillRowsRow(e, n, w + 2, w, g, i);
  }

  // ---------------------------------------------------------------------
  // Listing the reflections of a new file

  /** `(n - 1) / 2`, the largest |h| (or |k|) listed for an axis of `n` points. */
  function MaxIndex(n: int): (m: int)
    requires 1 <= n
    ensures 0 <= m && 2 * m + 1 <= n
  {
    (n - 1) / 2
  }

  /** The grid position of a signed index: negative ones wrap to the end of the axis. */
  function Fold(x: int, n: int): (r: int)
    requires 1 <= n && -MaxIndex(n) <= x <= MaxIndex(n)
    ensures 0 <= r < n && (r - x) % n == 0
  {
    if x >= 0 then x else x + n
  }

  /** Distinct listed indices read distinct grid positions. */
  lemma FoldInjective(x: int, y: int, n: int)
    requires 1 <= n && -MaxIndex(n) <= x <= MaxIndex(n) && -MaxIndex(n) <= y <= MaxIndex(n)
    ensures Fold(x, n) == Fold(y, n) ==> x == y
  {
  }

  function MaxH(g: ReciprocalGrid): int requires WellFormed(g) { MaxIndex(g.nu) }
  function MaxK(g: ReciprocalGrid): int requires WellFormed(g) { MaxIndex(g.nv) }

  predicate InGrid(g: ReciprocalGrid, h: int, k: int, l: int)
    requires WellFormed(g)
  {
    -MaxH(g) <= h <= MaxH(g) && -MaxK(g) <= k <= MaxK(g) && 0 <= l < g.nw
  }

  /** The structure factor listed for an index: the stored sample at its folded position. */
  function Sample(g: ReciprocalGrid, h: int, k: int, l: int): (c: Coef)
    requires WellFormed(g) && InGrid(g, h, k, l)
    ensures 0 <= h && 0 <= k ==> c == g.valueQ(h, k, l)
  {
    GetValueQ(g, Fold(h, g.nu), Fold(k, g.nv), l)
  }

  /**
   * The listing filter: in the ASU, inside the resolution limit unless
   * there is none, and not the origin.
   */
  predicate Accepted(f: Filter, h: int, k: int, l: int)
    ensures Accepted(f, h, k, l) ==> f.inAsu(h, k, l) && (h, k, l) != (0, 0, 0)
    ensures f.min1d2 == 0.0 ==> (Accepted(f, h, k, l) <==> f.inAsu(h, k, l) && (h, k, l) != (0, 0, 0))
    ensures f.min1d2 != 0.0 && Accepted(f, h, k, l) ==> f.oneOverD2(h, k, l) < f.min1d2
  {
    f.inAsu(h, k, l) &&
    (f.min1d2 == 0.0 || f.oneOverD2(h, k, l) < f.min1d2) &&
    !(h == 0 && k == 0 && l == 0)
  }

  /** A row of a new file. */
  datatype Reflection = Reflection(h: int, k: int, l: int, coef: Coef)

  /** What makes a reflection appear in a new file. */
  predicate Listed(g: ReciprocalGrid, f: Filter, r: Reflection)
    requires WellFormed(g)
  {
    InGrid(g, r.h, r.k, r.l) && Accepted(f, r.h, r.k, r.l) && r.coef == Sample(g, r.h, r.k, r.l)
  }

  /** The five cells of a row: h, k, l as floats, then amplitude and phase. */
  function Cells(r: Reflection): (c: seq<Float>)
    ensures |c| == 5 && c[3] == r.coef.amplitude && c[4] == r.coef.phase
    ensures IsInt32(r.h) && IsInt32(r.k) && IsInt32(r.l) ==>
      ToInt(c[0]) == r.h && ToInt(c[1]) == r.k && ToInt(c[2]) == r.l
  {
    [FromInt(r.h), FromInt(r.k), FromInt(r.l), r.coef.amplitude, r.coef.phase]
  }

  /** The row-major table of a list of reflections. */
  function Table(rs: seq<Reflection>): (d: seq<Float>)
    ensures |d| == 5 * |rs|
  {
    if |rs| == 0 then [] else Table(rs[..|rs| - 1]) + Cells(rs[|rs| - 1])
  }

  /** The innermost loop over `l < lEnd`, for one `h` and `k`. */
  function LRows(g: ReciprocalGrid, f: Filter, h: int, k: int, lEnd: int): (rs: seq<Reflection>)
    requires WellFormed(g) && -MaxH(g) <= h <= MaxH(g) && -MaxK(g) <= k <= MaxK(g)
    requires 0 <= lEnd <= g.nw
    ensures |rs| <= lEnd
    decreases lEnd
  {
    if lEnd == 0 then []
    else
      var l := lEnd - 1;
      LRows(g, f, h, k, l) + (if Accepted(f, h, k, l) then [Reflection(h, k, l, Sample(g, h, k, l))] else [])
  }

  /** The middle loop over `k < kEnd`, for one `h`. */
  function KRows(g: ReciprocalGrid, f: Filter, h: int, kEnd: int): (rs: seq<Reflection>)
    requires WellFormed(g) && -MaxH(g) <= h <= MaxH(g)
    requires -MaxK(g) <= kEnd <= MaxK(g) + 1
    decreases kEnd + MaxK(g)
  {
    if kEnd == -MaxK(g) then []
    else KRows(g, f, h, kEnd - 1) + LRows(g, f, h, kEnd - 1, g.nw)
  }

  /** The outer loop over `h < hEnd`. */
  function HRows(g: ReciprocalGrid, f: Filter, hEnd: int): (rs: seq<Reflection>)
    requires WellFormed(g) && -MaxH(g) <= hEnd <= MaxH(g) + 1
    decreases hEnd + MaxH(g)
  {
    if hEnd == -MaxH(g) then []
    else HRows(g, f, hEnd - 1) + KRows(g, f, hEnd - 1, MaxK(g) + 1)
  }

  /** The reflections a new file lists, in the order the loops visit them. */
  function AsuReflections(g: ReciprocalGrid, f: Filter): (rs: seq<Reflection>)
    requires WellFormed(g)
  {
    HRows(g, f, MaxH(g) + 1)
  }

  lemma {:induction false} LRowsMembers(g: ReciprocalGrid, f: Filter, h: int, k: int, lEnd: int)
    requires WellFormed(g) && -MaxH(g) <= h <= MaxH(g) && -MaxK(g) <= k <= MaxK(g)
    requires 0 <= lEnd <= g.nw
    ensures forall r :: r in LRows(g, f, h, k, lEnd) <==> Listed(g, f, r) && r.h == h && r.k == k && r.l < lEnd
    decreases lEnd
  {
    if lEnd > 0 {
      LRowsMembers(g, f, h, k, lEnd - 1);
    }
  }

  lemma {:induction false} KRowsMembers(g: ReciprocalGrid, f: Filter, h: int, kEnd: int)
    requires WellFormed(g) && -MaxH(g) <= h <= MaxH(g)
    requires -MaxK(g) <= kEnd <= MaxK(g) + 1
    ensures forall r :: r in KRows(g, f, h, kEnd) <==> Listed(g, f, r) && r.h == h && r.k < kEnd
    decreases kEnd + MaxK(g)
  {
    if kEnd > -MaxK(g) {
      KRowsMembers(g, f, h, kEnd - 1);
      LRowsMembers(g, f, h, kEnd - 1, g.nw);
    }
  }

  lemma {:induction false} HRowsMembers(g: ReciprocalGrid, f: Filter, hEnd: int)
    requires WellFormed(g) && -MaxH(g) <= hEnd <= MaxH(g) + 1
    ensures forall r :: r in HRows(g, f, hEnd) <==> Listed(g, f, r) && r.h < hEnd
    decreases hEnd + MaxH(g)
  {
    if hEnd > -MaxH(g) {
      HRowsMembers(g, f, hEnd - 1);
      KRowsMembers(g, f, hEnd - 1, MaxK(g) + 1);
    }
  }

  /**
   * A new file lists exactly the accepted indices of the grid's range
   * (|h| <= (nu-1)/2, |k| <= (nv-1)/2, 0 <= l < nw), each with the sample
   * at its folded position; the origin is never listed.
   */
  lemma AsuReflectionsExactly(g: ReciprocalGrid, f: Filter)
    requires WellFormed(g)
    ensures forall r :: r in AsuReflections(g, f) <==> Listed(g, f, r)
    ensures forall r :: r in AsuReflections(g, f) ==> !(r.h == 0 && r.k == 0 && r.l == 0)
  {
    HRowsMembers(g, f, MaxH(g) + 1);
  }

  /** Loop order: h, then k, then l. */
  predicate Before(a: Reflection, b: Reflection) {
    a.h < b.h || (a.h == b.h && (a.k < b.k || (a.k == b.k && a.l < b.l)))
  }

  predicate StrictlyIncreasing(rs: seq<Reflection>) {
    forall i, j :: 0 <= i < j < |rs| ==> Before(rs[i], rs[j])
  }

  lemma IncreasingAppend(a: seq<Reflection>, b: seq<Reflection>)
    requires StrictlyIncreasing(a) && StrictlyIncreasing(b)
    requires forall x, y :: x in a && y in b ==> Before(x, y)
    ensures StrictlyIncreasing(a + b)
  {
    forall i, j | 0 <= i < j < |a + b|
      ensures Before((a + b)[i], (a + b)[j])
    {
      if j < |a| {
        assert (a + b)[i] == a[i] && (a + b)[j] == a[j];
      } else if i < |a| {
        assert (a + b)[i] in a && (a + b)[j] in b;
      } else {
        assert (a + b)[i] == b[i - |a|] && (a + b)[j] == b[j - |a|];
      }
    }
  }

  lemma {:induction false} LRowsIncreasing(g: ReciprocalGrid, f: Filter, h: int, k: int, lEnd: int)
    requires WellFormed(g) && -MaxH(g) <= h <= MaxH(g) && -MaxK(g) <= k <= MaxK(g)
    requires 0 <= lEnd <= g.nw
    ensures StrictlyIncreasing(LRows(g, f, h, k, lEnd))
    decreases lEnd
  {
    if lEnd > 0 {
      var l := lEnd - 1;
      LRowsIncreasing(g, f, h, k, l);
      LRowsMembers(g, f, h, k, l);
      var tail := if Accepted(f, h, k, l) then [Reflection(h, k, l, Sample(g, h, k, l))] else [];
      IncreasingAppend(LRows(g, f, h, k, l), tail);
    }
  }

  lemma {:induction false} KRowsIncreasing(g: ReciprocalGrid, f: Filter, h: int, kEnd: int)
    requires WellFormed(g) && -MaxH(g) <= h <= MaxH(g)
    requires -MaxK(g) <= kEnd <= MaxK(g) + 1
    ensures StrictlyIncreasing(KRows(g, f, h, kEnd))
    decreases kEnd + MaxK(g)
  {
    if kEnd > -MaxK(g) {
      var k := kEnd - 1;
      KRowsIncreasing(g, f, h, k);
      LRowsIncreasing(g, f, h, k, g.nw);
      KRowsMembers(g, f, h, k);
      LRowsMembers(g, f, h, k, g.nw);
      IncreasingAppend(KRows(g, f, h, k), LRows(g, f, h, k, g.nw));
    }
  }

  lemma {:induction false} HRowsIncreasing(g: ReciprocalGrid, f: Filter, hEnd: int)
    requires WellFormed(g) && -MaxH(g) <= hEnd <= MaxH(g) + 1
    ensures StrictlyIncreasing(HRows(g, f, hEnd))
    decreases hEnd + MaxH(g)
  {
    if hEnd > -MaxH(g) {
      var h := hEnd - 1;
      HRowsIncreasing(g, f, h);
      KRowsIncreasing(g, f, h, MaxK(g) + 1);
      HRowsMembers(g, f, h);
      KRowsMembers(g, f, h, MaxK(g) + 1);
      IncreasingAppend(HRows(g, f, h), KRows(g, f, h, MaxK(g) + 1));
    }
  }

  /** A new file lists its reflections sorted by (h, k, l), so each index at most once. */
  lemma AsuReflectionsSorted(g: ReciprocalGrid, f: Filter)
    requires WellFormed(g)
    ensures StrictlyIncreasing(AsuReflections(g, f))
    ensures forall i, j :: 0 <= i < j < |AsuReflections(g, f)| ==> AsuReflections(g, f)[i] != AsuReflections(g, f)[j]
  {
    HRowsIncreasing(g, f, MaxH(g) + 1);
  }

  /**
   * Row `i` of a new file holds the `i`-th reflection, and its first three
   * cells read back with `(int)` give its Miller index, as a later run with
   * that file as its base reads them.
   */
  lemma {:induction false} TableRow(rs: seq<Reflection>, i: nat)
    requires i < |rs| && IsInt32(rs[i].h) && IsInt32(rs[i].k) && IsInt32(rs[i].l)
    ensures |Table(rs)| == |rs| * 5
    ensures Row(Table(rs), |rs|, 5, i) == Cells(rs[i])
    ensures RowIndex(Row(Table(rs), |rs|, 5, i)) == (rs[i].h, rs[i].k, rs[i].l)
    decreases |rs|
  {
    var n := |rs|;
    var prefix := rs[..n - 1];
    RowOfAppended(Table(prefix), Cells(rs[n - 1]), n, 5, i);
    if i < n - 1 {
      TableRow(prefix, i);
    }
    ToIntFromInt(rs[i].h);
    ToIntFromInt(rs[i].k);
    ToIntFromInt(rs[i].l);
  }

  /** An accepted index appends its five cells to the table of the rows before it. */
  lemma LRowsAccept(g: ReciprocalGrid, f: Filter, h: int, k: int, l: int, v: Coef, d0: seq<Float>)
    requires WellFormed(g) && -MaxH(g) <= h <= MaxH(g) && -MaxK(g) <= k <= MaxK(g)
    requires 0 <= l < g.nw && Accepted(f, h, k, l) && v == Sample(g, h, k, l)
    ensures |LRows(g, f, h, k, l + 1)| == |LRows(g, f, h, k, l)| + 1
    ensures d0 + Table(LRows(g, f, h, k, l)) + [FromInt(h), FromInt(k), FromInt(l), v.amplitude, v.phase] ==
      d0 + Table(LRows(g, f, h, k, l + 1))
  {
    var done := LRows(g, f, h, k, l);
    var r := Reflection(h, k, l, v);
    assert LRows(g, f, h, k, l + 1) == done + [r];
    TableSnoc(done, r);
  }

  /** A rejected index adds no row. */
  lemma LRowsReject(g: ReciprocalGrid, f: Filter, h: int, k: int, l: int)
    requires WellFormed(g) && -MaxH(g) <= h <= MaxH(g) && -MaxK(g) <= k <= MaxK(g)
    requires 0 <= l < g.nw && !Accepted(f, h, k, l)
    ensures LRows(g, f, h, k, l + 1) == LRows(g, f, h, k, l)
  {
  }

  lemma TableSnoc(rs: seq<Reflection>, r: Reflection)
    ensures Table(rs + [r]) == Table(rs) + Cells(r)
  {
    assert (rs + [r])[..|rs|] == rs;
  }

  /**
   * One pass of the innermost loop: an accepted index appends its row (the
   * five `push_back` calls, as one append) and counts it.
   */
  method VisitIndex(mtz: Mtz, hkl: ReciprocalGrid, f: Filter, h: int, k: int, l: int,
                    ghost d0: seq<Float>, ghost n0: int)
    requires WellFormed(hkl) && -MaxH(hkl) <= h <= MaxH(hkl) && -MaxK(hkl) <= k <= MaxK(hkl) && 0 <= l < hkl.nw
    requires mtz.data == d0 + Table(LRows(hkl, f, h, k, l))
    requires mtz.nreflections == n0 + |LRows(hkl, f, h, k, l)|
    modifies mtz`data, mtz`nreflections
    ensures mtz.data == d0 + Table(LRows(hkl, f, h, k, l + 1))
    ensures mtz.nreflections == n0 + |LRows(hkl, f, h, k, l + 1)|
  {
    if f.inAsu(h, k, l) &&
       (f.min1d2 == 0.0 || f.oneOverD2(h, k, l) < f.min1d2) &&
       !(h == 0 && k == 0 && l == 0) {
      var v := GetValueQ(hkl, Fold(h, hkl.nu), Fold(k, hkl.nv), l);
      LRowsAccept(hkl, f, h, k, l, v, d0);
      mtz.data := mtz.data + [FromInt(h), FromInt(k), FromInt(l), v.amplitude, v.phase];
      mtz.nreflections := mtz.nreflections + 1;
    } else {
      LRowsReject(hkl, f, h, k, l);
    }
  }

  /** The innermost loop of the new-file listing: the rows for one `h` and `k`, for every `l`. */
  method AppendLRows(mtz: Mtz, hkl: ReciprocalGrid, f: Filter, h: int, k: int)
    requires WellFormed(hkl) && -MaxH(hkl) <= h <= MaxH(hkl) && -MaxK(hkl) <= k <= MaxK(hkl)
    modifies mtz`data, mtz`nreflections
    ensures mtz.data == old(mtz.data) + Table(LRows(hkl, f, h, k, hkl.nw))
    ensures mtz.nreflections == old(mtz.nreflections) + |LRows(hkl, f, h, k, hkl.nw)|
  {
    ghost var d0, n0 := mtz.data, mtz.nreflections;
    var maxL := hkl.nw - 1;
    var l := 0;
    while l < maxL + 1
      invariant 0 <= l <= maxL + 1
      invariant mtz.data == d0 + Table(LRows(hkl, f, h, k, l))
      invariant mtz.nreflections == n0 + |LRows(hkl, f, h, k, l)|
    {
      VisitIndex(mtz, hkl, f, h, k, l, d0, n0);
      l := l + 1;
    }
  }

  /** `Table` distributes over concatenation. */
  lemma {:induction false} TableAppend(a: seq<Reflection>, b: seq<Reflection>)
    ensures Table(a + b) == Table(a) + Table(b)
    decreases |b|
  {
    if |b| > 0 {
      var b' := b[..|b| - 1];
      assert a + b == (a + b') + [b[|b| - 1]];
      TableSnoc(a + b', b[|b| - 1]);
      TableAppend(a, b');
      TableSnoc(b', b[|b| - 1]);
      assert b' + [b[|b| - 1]] == b;
    } else {
      assert a + b == a;
    }
  }

  /** One pass of the middle loop appends the table of one `k`'s rows. */
  lemma KRowsStep(g: ReciprocalGrid, f: Filter, h: int, k: int, d0: seq<Float>)
    requires WellFormed(g) && -MaxH(g) <= h <= MaxH(g) && -MaxK(g) <= k <= MaxK(g)
    ensures |KRows(g, f, h, k + 1)| == |KRows(g, f, h, k)| + |LRows(g, f, h, k, g.nw)|
    ensures d0 + Table(KRows(g, f, h, k)) + Table(LRows(g, f, h, k, g.nw)) == d0 + Table(KRows(g, f, h, k + 1))
  {
    var done, rows := KRows(g, f, h, k), LRows(g, f, h, k, g.nw);
    assert KRows(g, f, h, k + 1) == done + rows;
    TableAppend(done, rows);
    assert d0 + Table(done) + Table(rows) == d0 + (Table(done) + Table(rows));
  }

  /** One pass of the outer loop appends the table of one `h`'s rows. */
  lemma HRowsStep(g: ReciprocalGrid, f: Filter, h: int, d0: seq<Float>)
    requires WellFormed(g) && -MaxH(g) <= h <= MaxH(g)
    ensures |HRows(g, f, h + 1)| == |HRows(g, f, h)| + |KRows(g, f, h, MaxK(g) + 1)|
    ensures d0 + Table(HRows(g, f, h)) + Table(KRows(g, f, h, MaxK(g) + 1)) == d0 + Table(HRows(g, f, h + 1))
  {
    var done, rows := HRows(g, f, h), KRows(g, f, h, MaxK(g) + 1);
    assert HRows(g, f, h + 1) == done + rows;
    TableAppend(done, rows);
    assert d0 + Table(done) + Table(rows) == d0 + (Table(done) + Table(rows));
  }

  /** The middle loop of the new-file listing: the rows for one `h`, for every `k` and `l`. */
  method AppendKRows(mtz: Mtz, hkl: ReciprocalGrid, f: Filter, h: int)
    requires WellFormed(hkl) && -MaxH(hkl) <= h <= MaxH(hkl)
    modifies mtz`data, mtz`nreflections
    ensures mtz.data == old(mtz.data) + Table(KRows(hkl, f, h, MaxK(hkl) + 1))
    ensures mtz.nreflections == old(mtz.nreflections) + |KRows(hkl, f, h, MaxK(hkl) + 1)|
  {
    ghost var d0, n0 := mtz.data, mtz.nreflections;
    var maxK := (hkl.nv - 1) / 2;
    var k := -maxK;
    assert d0 + Table(KRows(hkl, f, h, k)) == d0;
    while k < maxK + 1
      invariant -maxK <= k <= maxK + 1
      invariant mtz.data == d0 + Table(KRows(hkl, f, h, k))
      invariant mtz.nreflections == n0 + |KRows(hkl, f, h, k)|
    {
      KRowsStep(hkl, f, h, k, d0);
      AppendLRows(mtz, hkl, f, h, k);
      k := k + 1;
    }
  }

  /**
   * The new-file listing: append a row for every accepted index of the
   * transform's range, counting the rows in `nreflections`.
   */
  method AppendAsuReflections(mtz: Mtz, hkl: ReciprocalGrid, f: Filter)
    requires WellFormed(hkl) && mtz.Valid() && |mtz.columns| == 5
    modifies mtz`data, mtz`nreflections
    ensures mtz.Valid()
    ensures mtz.data == old(mtz.data) + Table(AsuReflections(hkl, f))
    ensures mtz.nreflections == old(mtz.nreflections) + |AsuReflections(hkl, f)|
  {
    ghost var d0, n0 := mtz.data, mtz.nreflections;
    var maxH := (hkl.nu - 1) / 2;
    var h := -maxH;
    assert d0 + Table(HRows(hkl, f, h)) == d0;
    while h < maxH + 1
      invariant -maxH <= h <= maxH + 1
      invariant mtz.data == d0 + Table(HRows(hkl, f, h))
      invariant mtz.nreflections == n0 + |HRows(hkl, f, h)|
    {
      HRowsStep(hkl, f, h, d0);
      AppendKRows(mtz, hkl, f, h);
      h := h + 1;
    }
  }

  // ---------------------------------------------------------------------
  // The conversion

  /** The file written without `--base`: header, datasets, columns and the listed reflections. */
  predicate NewFile(m: Mtz, dmap: DensityMap, opts: Options, fCol: seq<CChar>, phiCol: seq<CChar>,
                    hkl: ReciprocalGrid, f: Filter)
    requires WellFormed(hkl)
    reads m
  {
    m.Valid() &&
    m.cell == dmap.cell && m.spacegroup == dmap.spacegroup && m.sortOrder == [1, 2, 3, 0, 0] &&
    m.datasets == [Dataset(0, Ascii("HKL_base")),
                   Dataset(1, opts.section.GetOr(Ascii("unknown")))] &&
    m.columns == [Column(Ascii("H"), Ch('H'), -1, 0), Column(Ascii("K"), Ch('H'), -1, 1),
                  Column(Ascii("L"), Ch('H'), -1, 2), Column(fCol, FType(opts), -1, 3),
                  Column(phiCol, PhiType(opts), -1, 4)] &&
    m.nreflections == |AsuReflections(hkl, f)| &&
    m.data == Table(AsuReflections(hkl, f))
  }

  /**
   * The base-file branch: add the amplitude and phase columns to the base file and
   * fill them for every reflection it holds.
   */
  method AddToBase(mtz: Mtz, opts: Options, fCol: seq<CChar>, phiCol: seq<CChar>, hkl: ReciprocalGrid)
    requires mtz.Valid() && (mtz.nreflections == 0 || 1 <= |mtz.columns|)
    modifies mtz`datasets, mtz`columns, mtz`data
    ensures mtz.Valid()
    ensures var w := |old(mtz.columns)|;
      var id := SelectedDatasetId(old(mtz.datasets), opts.section);
      mtz.datasets == DatasetsAfterSelection(old(mtz.datasets), opts.section) &&
      mtz.columns == old(mtz.columns) + [Column(fCol, FType(opts), id, w), Column(phiCol, PhiType(opts), id, w + 1)] &&
      mtz.data == FillRows(ExpandRows(old(mtz.data), mtz.nreflections, w, 2), mtz.nreflections, w + 2, w, hkl)
  {
    ghost var w, n, d0 := |mtz.columns|, mtz.nreflections, mtz.data;
    var datasetId := SelectDataset(mtz, opts.section);
    mtz.AddColumn(fCol, FType(opts), datasetId);
    var fIdx := mtz.columns[|mtz.columns| - 1].idx;
    mtz.AddColumn(phiCol, PhiType(opts), datasetId);
    assert fIdx == w && |mtz.columns| == w + 2 && mtz.nreflections == n && mtz.data == d0;
    mtz.ExpandDataRows(2);
    ghost var expanded := mtz.data;
    assert expanded == ExpandRows(d0, n, w, 2);
    FillColumns(mtz, fIdx, hkl);
    assert mtz.data == FillRows(expanded, n, w + 2, w, hkl);
  }

  /** The `HKL_base` dataset of a new file and its H, K and L index columns. */
  method AddIndexColumns(mtz: Mtz)
    requires mtz.datasets == [] && mtz.columns == []
    modifies mtz`datasets, mtz`columns
    ensures mtz.datasets == [Dataset(0, Ascii("HKL_base"))]
    ensures mtz.columns == [Column(Ascii("H"), Ch('H'), -1, 0), Column(Ascii("K"), Ch('H'), -1, 1),
                            Column(Ascii("L"), Ch('H'), -1, 2)]
  {
    mtz.AddDataset(Ascii("HKL_base"));
    mtz.AddColumn(Ascii("H"), Ch('H'), -1);
    mtz.AddColumn(Ascii("K"), Ch('H'), -1);
    mtz.AddColumn(Ascii("L"), Ch('H'), -1);
  }

  /** The dataset named by `--section` (or "unknown") and the amplitude and phase columns. */
  method AddMapColumns(mtz: Mtz, opts: Options, fCol: seq<CChar>, phiCol: seq<CChar>)
    requires mtz.datasets == [Dataset(0, Ascii("HKL_base"))] && |mtz.columns| == 3
    modifies mtz`datasets, mtz`columns
    ensures mtz.datasets == [Dataset(0, Ascii("HKL_base")), Dataset(1, opts.section.GetOr(Ascii("unknown")))]
    ensures mtz.columns == old(mtz.columns) + [Column(fCol, FType(opts), -1, 3), Column(phiCol, PhiType(opts), -1, 4)]
  {
    assert NextDatasetId(mtz.datasets) == 1 by {
      assert mtz.datasets[..0] == [];
    }
    mtz.AddDataset(if opts.section.Some? then opts.section.value else Ascii("unknown"));
    mtz.AddColumn(fCol, FType(opts), -1);
    mtz.AddColumn(phiCol, PhiType(opts), -1);
  }

  /**
   * The header of a new file: the map's cell and space group, the two
   * datasets, and the H, K, L, amplitude and phase columns; no rows yet.
   */
  method NewHeader(dmap: DensityMap, opts: Options, fCol: seq<CChar>, phiCol: seq<CChar>)
    returns (mtz: Mtz)
    ensures fresh(mtz)
    ensures mtz.cell == dmap.cell && mtz.spacegroup == dmap.spacegroup && mtz.sortOrder == [1, 2, 3, 0, 0]
    ensures mtz.datasets == [Dataset(0, Ascii("HKL_base")), Dataset(1, opts.section.GetOr(Ascii("unknown")))]
    ensures mtz.columns == [Column(Ascii("H"), Ch('H'), -1, 0), Column(Ascii("K"), Ch('H'), -1, 1),
                            Column(Ascii("L"), Ch('H'), -1, 2), Column(fCol, FType(opts), -1, 3),
                            Column(phiCol, PhiType(opts), -1, 4)]
    ensures mtz.nreflections == 0 && mtz.data == []
  {
    mtz := new Mtz();
    mtz.cell := dmap.cell;
    mtz.spacegroup := dmap.spacegroup;
    mtz.sortOrder := [1, 2, 3, 0, 0];
    AddIndexColumns(mtz);
    AddMapColumns(mtz, opts, fCol, phiCol);
  }

  /**
   * The new-file branch: the header, then a row per listed reflection.
   */
  method NewMtz(dmap: DensityMap, opts: Options, fCol: seq<CChar>, phiCol: seq<CChar>,
                hkl: ReciprocalGrid, f: Filter)
    returns (mtz: Mtz)
    requires WellFormed(hkl)
    ensures fresh(mtz)
    ensures NewFile(mtz, dmap, opts, fCol, phiCol, hkl, f)
  {
    mtz := NewHeader(dmap, opts, fCol, phiCol);
    AppendAsuReflections(mtz, hkl, f);
  }

  /**
   * `transform_map_to_sf`. `base` is the file named by `--base`, already
   * read, or null without that option; `inAsu` is the reciprocal-ASU test
   * of the map's space group and `oneOverD2` the 1/d^2 of an index in the
   * map's cell.
   */
  method TransformMapToSf(
      opts: Options, outputPath: seq<CChar>, fCol: seq<CChar>, phiCol: seq<CChar>,
      dmap: DensityMap, hkl: ReciprocalGrid,
      inAsu: (int, int, int) -> bool, oneOverD2: (int, int, int) -> real,
      base: Mtz?)
    returns (result: Result<Mtz, Error>)
    requires WellFormed(hkl) && opts.dmin != Some(0.0)
    requires base != null ==> base.Valid() && (base.nreflections == 0 || 1 <= |base.columns|)
    modifies base
    ensures AnyUndefined(dmap.data) ==> result == Err(MapDoesNotCoverAsu)
    ensures !AnyUndefined(dmap.data) && !IEndsWith(outputPath, MtzSuffix()) ==> result == Err(MmcifNotImplemented)
    ensures result.Ok? <==> !AnyUndefined(dmap.data) && IEndsWith(outputPath, MtzSuffix())
    ensures result.Err? && base != null ==> unchanged(base)
    ensures result.Ok? && base == null ==>
      fresh(result.value) &&
      NewFile(result.value, dmap, opts, fCol, phiCol, hkl, Filter(inAsu, oneOverD2, MinOneOverD2(opts.dmin)))
    ensures result.Ok? && base != null ==>
      var n, w := old(base.nreflections), |old(base.columns)|;
      var id := SelectedDatasetId(old(base.datasets), opts.section);
      result.value == base && base.Valid() &&
      base.cell == old(base.cell) && base.spacegroup == old(base.spacegroup) &&
      base.sortOrder == old(base.sortOrder) &&
      base.datasets == DatasetsAfterSelection(old(base.datasets), opts.section) &&
      base.columns == old(base.columns) + [Column(fCol, FType(opts), id, w), Column(phiCol, PhiType(opts), id, w + 1)] &&
      base.nreflections == n &&
      base.data == FillRows(ExpandRows(old(base.data), n, w, 2), n, w + 2, w, hkl)
  {
    var min1d2 := MinOneOverD2(opts.dmin);
    if AnyUndefined(dmap.data) {
      return Err(MapDoesNotCoverAsu);
    }
    if !IEndsWith(outputPath, MtzSuffix()) {
      return Err(MmcifNotImplemented);
    }
    if base != null {
      AddToBase(base, opts, fCol, phiCol, hkl);
      result := Ok(base);
    } else {
      var mtz := NewMtz(dmap, opts, fCol, phiCol, hkl, Filter(inAsu, oneOverD2, min1d2));
      result := Ok(mtz);
    }
  }
}
