/**
 * The in-memory MTZ reflection file that the conversion fills: datasets,
 * columns, and a row-major table of `nreflections` rows with one float
 * per column.
 *
 * The MTZ library itself is not part of this model. Its operations that
 * the conversion calls are given here by the effect the conversion relies
 * on: `add_dataset` appends a dataset, `add_column` appends a column whose
 * index is its position, `expand_data_rows` widens every row with NaN
 * cells, and `dataset_with_name` finds the first dataset with that name.
 */
module Reflections {
  import opened Wrappers
  import opened CString
  import opened Floats

  datatype UnitCell = UnitCell(a: real, b: real, c: real, alpha: real, beta: real, gamma: real)

  datatype Dataset = Dataset(id: int, name: seq<CChar>)

  /** A column: its label (`name`), its one-char type code, the dataset id passed to `add_column`, and its index. */
  datatype Column = Column(name: seq<CChar>, kind: CChar, datasetId: int, idx: nat)

  // ---------------------------------------------------------------------
  // Row-major tables

  /** Row `i` of a row-major table of `n` rows of `w` cells. */
  function Row(d: seq<Float>, n: nat, w: nat, i: nat): (r: seq<Float>)
    requires |d| == n * w && i < n
    ensures |r| == w
  {
    RowBound(n, w, i);
    d[i * w .. (i + 1) * w]
  }

  lemma RowBound(n: nat, w: nat, i: nat)
    requires i < n
    ensures (i + 1) * w <= n * w && i * w + w == (i + 1) * w
  {
    MulMonotone(i + 1, n, w);
  }

  lemma MulMonotone(a: nat, b: nat, w: nat)
    requires a <= b
    ensures a * w <= b * w
  {
  }

  lemma SliceOfConcat<T>(a: seq<T>, b: seq<T>, lo: int, hi: int)
    requires 0 <= lo <= hi <= |a|
    ensures (a + b)[lo..hi] == a[lo..hi]
  {
  }

  lemma SliceOfPrefix<T>(a: seq<T>, k: int, lo: int, hi: int)
    requires 0 <= lo <= hi <= k <= |a|
    ensures a[..k][lo..hi] == a[lo..hi]
  {
  }

  /** A row of `n` NaN cells. */
  function Nans(n: nat): (r: seq<Float>)
    ensures |r| == n && forall j :: 0 <= j < n ==> r[j] == NaN
  {
    seq(n, _ => NaN)
  }

  /**
   * `expand_data_rows(added)` on a table of `n` rows of width `w`: every
   * row keeps its cells and gets `added` NaN cells after them.
   */
  function ExpandRows(d: seq<Float>, n: nat, w: nat, added: nat): (r: seq<Float>)
    requires |d| == n * w
    ensures |r| == n * (w + added)
    decreases n
  {
    if n == 0 then []
    else
      RowBound(n, w, n - 1);
      ExpandRows(d[..(n - 1) * w], n - 1, w, added) + (Row(d, n, w, n - 1) + Nans(added))
  }

  /**
   * The rows of a table with one more row appended: the last row is the
   * appended one, the others are the rows of the shorter table.
   */
  lemma RowOfAppended(prefix: seq<Float>, last: seq<Float>, n: nat, w: nat, i: nat)
    requires 1 <= n && |prefix| == (n - 1) * w && |last| == w && i < n
    ensures |prefix + last| == n * w
    ensures i == n - 1 ==> Row(prefix + last, n, w, i) == last
    ensures i < n - 1 ==> Row(prefix + last, n, w, i) == Row(prefix, n - 1, w, i)
  {
    RowBound(n, w, n - 1);
    if i == n - 1 {
      assert i * w == |prefix| && (i + 1) * w == |prefix + last|;
    } else {
      RowBound(n - 1, w, i);
      SliceOfConcat(prefix, last, i * w, (i + 1) * w);
    }
  }

  /** A table is its first `n - 1` rows followed by its last row. */
  lemma RowsSplitLast(d: seq<Float>, n: nat, w: nat)
    requires 1 <= n && |d| == n * w
    ensures (n - 1) * w <= |d| && |d[..(n - 1) * w]| == (n - 1) * w
    ensures d == d[..(n - 1) * w] + Row(d, n, w, n - 1)
    ensures forall i :: 0 <= i < n - 1 ==> Row(d[..(n - 1) * w], n - 1, w, i) == Row(d, n, w, i)
  {
    RowBound(n, w, n - 1);
    assert (n - 1) * w + w == n * w;
    forall i | 0 <= i < n - 1
      ensures Row(d[..(n - 1) * w], n - 1, w, i) == Row(d, n, w, i)
    {
      RowBound(n - 1, w, i);
      SliceOfPrefix(d, (n - 1) * w, i * w, (i + 1) * w);
    }
  }

  /** Row `i` of the widened table is row `i` of the old one followed by NaNs. */
  lemma {:induction false} ExpandRowsRow(d: seq<Float>, n: nat, w: nat, added: nat, i: nat)
    requires |d| == n * w && i < n
    ensures Row(ExpandRows(d, n, w, added), n, w + added, i) == Row(d, n, w, i) + Nans(added)
    decreases n
  {
    RowsSplitLast(d, n, w);
    var prefix := d[..(n - 1) * w];
    var last := Row(d, n, w, n - 1);
    var ePrefix := ExpandRows(prefix, n - 1, w, added);
    assert ExpandRows(d, n, w, added) == ePrefix + (last + Nans(added));
    RowOfAppended(ePrefix, last + Nans(added), n, w + added, i);
    if i < n - 1 {
      ExpandRowsRow(prefix, n - 1, w, added, i);
    }
  }

  // ---------------------------------------------------------------------
  // Datasets

  /** `dataset_with_name(name)`: the position of the first dataset with that name. */
  function DatasetWithName(ds: seq<Dataset>, name: seq<CChar>): (r: Option<nat>)
    ensures r.Some? ==> r.value < |ds| && ds[r.value].name == name
    ensures r.Some? ==> forall j :: 0 <= j < r.value ==> ds[j].name != name
    ensures r.None? ==> forall j :: 0 <= j < |ds| ==> ds[j].name != name
  {
    if |ds| == 0 then None
    else if ds[0].name == name then Some(0)
    else
      match DatasetWithName(ds[1..], name)
      case Some(i) => Some(i + 1)
      case None => None
  }

  /** The id `add_dataset` gives a new dataset: one more than every id in use, 0 for the first. */
  function NextDatasetId(ds: seq<Dataset>): (id: int)
    ensures 0 <= id
    ensures forall j :: 0 <= j < |ds| ==> ds[j].id < id
    ensures |ds| == 0 ==> id == 0
  {
    if |ds| == 0 then 0
    else
      var rest := NextDatasetId(ds[..|ds| - 1]);
      if ds[|ds| - 1].id + 1 > rest then ds[|ds| - 1].id + 1 else rest
  }

  // ---------------------------------------------------------------------
  // The file

  class Mtz {
    var cell: UnitCell
    /** The space group, by its Hermann-Mauguin symbol. */
    var spacegroup: seq<CChar>
    var sortOrder: seq<int>
    var datasets: seq<Dataset>
    var columns: seq<Column>
    var nreflections: int
    var data: seq<Float>

    /** The table holds `nreflections` full rows. */
    predicate Valid()
      reads this
    {
      0 <= nreflections && |data| == nreflections * |columns|
    }

    /** An empty file. */
    constructor ()
      ensures Valid()
      ensures cell == UnitCell(1.0, 1.0, 1.0, 90.0, 90.0, 90.0) && spacegroup == []
      ensures sortOrder == [0, 0, 0, 0, 0]
      ensures datasets == [] && columns == [] && nreflections == 0 && data == []
    {
      cell := UnitCell(1.0, 1.0, 1.0, 90.0, 90.0, 90.0);
      spacegroup := [];
      sortOrder := [0, 0, 0, 0, 0];
      datasets := [];
      columns := [];
      nreflections := 0;
      data := [];
    }

    /** `add_dataset(name)`. */
    method AddDataset(name: seq<CChar>)
      modifies this`datasets
      ensures datasets == old(datasets) + [Dataset(NextDatasetId(old(datasets)), name)]
    {
      datasets := datasets + [Dataset(NextDatasetId(datasets), name)];
    }

    /** `add_column(name, type, dataset_id)`: the new column's index is its position. */
    method AddColumn(name: seq<CChar>, kind: CChar, datasetId: int)
      modifies this`columns
      ensures columns == old(columns) + [Column(name, kind, datasetId, |old(columns)|)]
    {
      columns := columns + [Column(name, kind, datasetId, |columns|)];
    }

    /** `expand_data_rows(added)`, after `added` columns were appended. */
    method ExpandDataRows(added: nat)
      requires added <= |columns|
      requires 0 <= nreflections && |data| == nreflections * (|columns| - added)
      modifies this`data
      ensures Valid()
      ensures data == ExpandRows(old(data), nreflections, |columns| - added, added)
    {
      data := ExpandRows(data, nreflections, |columns| - added, added);
    }
  }
}
