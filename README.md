# gemmi: the molecular record tree and the map-to-structure-factor conversion, in Dafny

This project models two parts of gemmi, the macromolecular crystallography
library:

- `model.hh`: the in-memory record tree of a structure
  (Structure → Model → Chain → Residue → Atom). The model covers the record
  constructors and their defaults, the sequence id a residue reports for PDB
  output, the metadata lookup `get_info`, and the standard-name test
  `has_standard_pdb_name`. That test packs three-letter residue names into
  an `int`, scans a 24-entry table, and searches one-letter nucleotide codes
  with `strchr` (module `Mol`).
- `src/map2sf.cpp`: `transform_map_to_sf`, which turns a density map into
  amplitude and phase columns of an MTZ reflection file (module `Map2Sf`).
  It parses the column-type options and rejects a map that does not cover
  the unit cell. An output path without the `.mtz` extension gets the mmCIF
  error. From there the conversion takes one of two paths:
  - with `--base`, it picks the dataset, adds two columns to the base
    file's reflections and fills them row by row;
  - otherwise, it builds a new file that lists every accepted Miller index
    of the transform's range.

Shared modules:
- `CString` gives C `char`s (signed bytes), C strings, `strchr`, `tolower` and `toupper`.
- `Floats` gives `float` values, taken as exact reals or NaN, and the C cast between float and `int`.
- `Reflections` gives the MTZ file object (`class Mtz`, whose methods update its fields in place) and the row-major reflection table.
- `Wrappers` gives `Option` and `Result`.

The Fourier transform, the reciprocal-ASU test of the space group and the
1/d² of an index are inputs: `ReciprocalGrid`, and the `inAsu` and
`oneOverD2` functions. The model checks what the conversion does with them:
- which indices it lists;
- the order it lists them in;
- which grid position each index reads;
- which cells of the table it writes;
- how `nreflections` tracks the table.

Behaviour of the MTZ library that the conversion relies on is part of the
model. The library itself is not: `mtz.hpp` is not part of this model. The
conversion relies on four of its operations, each taken with one effect:
- `add_dataset` appends a dataset whose id is one more than any id in use (0 for the first);
- `add_column` appends a column whose `idx` is its position;
- `expand_data_rows(n)` adds `n` NaN cells to the end of every row;
- `dataset_with_name` returns the first dataset with that name.

## Model

| member | source | states |
|---|---|---|
| Mol.NewResidue | model.hh:34-42 | A residue built from an id and a name has that id and name, no author id (`UnknownId`), a NUL insertion code and no atoms |
| Mol.NewChain | model.hh:49-56 | A chain built from a name has that name, an empty author name, entity type Unknown and no residues |
| Mol.NewModel | model.hh:59-63 | A model built from a name has that name and no chains |
| Mol.NewStructure | model.hh:66-78 | A default structure has the unit-cube cell (1, 1, 1, 90°, 90°, 90°), no space group, no models and no metadata |
| Mol.SeqIdForPdb | model.hh:43-45 | The author id when it is set (not `UnknownId`), the primary id otherwise |
| Mol.NewResidueSeqIdForPdb | model.hh:42-45 | A freshly built residue reports, for PDB, the id it was built with |
| Mol.GetInfo | model.hh:80-83 | The answer, when there is one, holds no NUL. A present tag gives the stored value as a C string (cut at its first NUL). An absent tag gives the C string the default points to, or null for a null default |
| Mol.GetInfoNullDefault | model.hh:80-83 | With the null default, the answer is non-null exactly when the tag is present, and is the stored value when that value holds no NUL |
| Mol.Sr | model.hh:87 | `SR` of an ASCII triple is c0·65536 + c1·256 + c2, a code in 0 .. 0x7FFFFF |
| Mol.Pack | model.hh:87-94 | Three non-negative chars pack into 0 .. 0x7FFFFF; a negative char (sign-extended) makes the packed value negative |
| Mol.PackMatchesAscii | model.hh:87-97 | A name packs to the code of an ASCII triple exactly when it is that triple, so the packed table lookup compares names exactly |
| Mol.StandardAaEntry | model.hh:87-92 | The table holds the packed codes of the 23 names in order, then a 0 |
| Mol.IsStandardPdbName | model.hh:93-104 | Only names of one to three chars can pass; what passes at each length is stated by the three lemmas below |
| Mol.HasStandardPdbName | model.hh:86-106 | The scanning method decides exactly the length-dispatched predicate: packed three-letter name in the table, `strchr` hit among "ACGITU", or '+' and such a hit |
| Mol.StandardThreeLetter | model.hh:88-97 | A three-char name is standard if and only if it is one of the 23 names, or three NULs, which pack to the table's trailing 0 |
| Mol.StandardShortNames | model.hh:99-104 | A one-char name is standard iff it is a nucleotide letter or NUL; a two-char name iff it is '+' and such a char; every other length is not standard |
| Mol.NulNamesAreStandard | model.hh:91-102 | "\0", "+\0" and "\0\0\0" pass the test, because `strchr` finds the terminator and three NULs pack to 0 |
| CString.ToUpper | src/map2sf.cpp:60-62 | `toupper` never returns a lower-case letter. It maps a lower-case letter to the upper-case letter that lowers back to it, and leaves every other char unchanged |
| CString.Strchr | model.hh:100-102 | The first offset of the char in the string with its terminator; the null pointer exactly when the char is not there |
| CString.StrchrFound | model.hh:100-102 | `strchr` is non-null exactly for the string's chars and for NUL |
| CString.AsCString | model.hh:82 | The `c_str()` view holds no NUL, is a prefix of the stored string that ends at its first NUL, and is the string itself when it holds no NUL |
| Floats.ToInt | src/map2sf.cpp:105-107 | The `(int)` cast truncates toward zero within the `int` range; NaN and out-of-range values give INT_MIN |
| Floats.ToIntFromInt | src/map2sf.cpp:137-139 | An `int` stored as a float reads back unchanged |
| Map2Sf.TypeCode | src/map2sf.cpp:60-62 | An absent option gives the default; a given one gives the first char of its argument upper-cased: never lower case, equal to it ignoring case, and unchanged when it is not a lower-case letter |
| Map2Sf.FType | src/map2sf.cpp:60 | The amplitude type is 'F' without `--ftype`; with it, the first char of the argument in upper case (never lower case, equal to it ignoring case) |
| Map2Sf.PhiType | src/map2sf.cpp:61-62 | The phase type is 'P' without `--phitype`; with it, the first char of the argument in upper case (never lower case, equal to it ignoring case) |
| Map2Sf.TypeCodeIgnoresCase | src/map2sf.cpp:60-62 | Type arguments that differ only in the case of their first letter give the same column type |
| Map2Sf.MinOneOverD2 | src/map2sf.cpp:63-67 | The bound is never negative; it is 0 (no limit) exactly when `--dmin` is absent, and otherwise it is 1/dmin² |
| Map2Sf.AnyUndefined | src/map2sf.cpp:73-75 | True exactly when some cell of the map is NaN |
| Map2Sf.IEndsWith | src/map2sf.cpp:80 | `iends_with` holds exactly when the suffix fits in the path and equals the path's last \|suffix\| chars lowered; the suffix itself is not lowered |
| Map2Sf.MtzTestIgnoresCase | src/map2sf.cpp:80 | Upper-casing the output path never changes whether it is written as MTZ |
| Map2Sf.SelectedDatasetId | src/map2sf.cpp:86-93 | No contract of its own: the dataset id the selection picks. SelectionMeaning states what it is in each case |
| Map2Sf.DatasetsAfterSelection | src/map2sf.cpp:86-93 | No contract of its own: the datasets after the selection. SelectionMeaning states when a dataset is added and which |
| Map2Sf.SelectionMeaning | src/map2sf.cpp:86-93 | No `--section` leaves the id at -1 and the datasets unchanged. A section naming no dataset adds one of that name with a fresh id, and the id stays -1. A section naming a dataset picks the id of the first one with that name and adds nothing. A dataset of the section's name always exists afterwards |
| Map2Sf.SelectDataset | src/map2sf.cpp:86-93 | The method returns the selected id and leaves the datasets as the selection specifies |
| Map2Sf.RowIndex | src/map2sf.cpp:105-107 | The three `(int)` casts give `int`s. A cell holding an `int` written as a float reads back as that `int`; a NaN cell, in any of the three positions, reads as INT_MIN |
| Map2Sf.FillRow | src/map2sf.cpp:104-111 | A filled row has the transform's amplitude at `f_idx` and its phase at `f_idx + 1`, both at the index read from the row's first three cells. Every other cell is kept |
| Map2Sf.FillRows | src/map2sf.cpp:103-111 | The filled table keeps its size, `n` rows of width `w`; what each row holds is stated by FillRowsRow |
| Map2Sf.FillRowsRow | src/map2sf.cpp:104-111 | Each row of the filled table is that row of the table, filled |
| Map2Sf.FillRowInPlace | src/map2sf.cpp:105-110 | One pass of the fill loop extends the filled prefix by row `i` and leaves the rows after it as they were |
| Map2Sf.FillColumns | src/map2sf.cpp:103-111 | The loop turns the table into its row-by-row fill: only cells `i*ncol+f_idx` and `i*ncol+f_idx+1` of each row change |
| Map2Sf.BaseRowsKept | src/map2sf.cpp:99-111 | After the base-file update, each row is its old cells followed by the amplitude and phase at its Miller index |
| Map2Sf.AddToBase | src/map2sf.cpp:86-111 | The base file gets the selected datasets and two new columns (indices `w` and `w+1`, with the selected dataset id), and its table is widened by two cells and filled. It stays a full table |
| Reflections.ExpandRows | src/map2sf.cpp:102 | Widening `n` rows of width `w` by `added` cells gives `n` rows of width `w + added`; what each row holds is stated by ExpandRowsRow |
| Reflections.ExpandRowsRow | src/map2sf.cpp:102 | Each row of the widened table is the old row followed by NaN cells |
| Reflections.Mtz.constructor | src/map2sf.cpp:81 | `gemmi::Mtz mtz;` is an empty file: unit-cube cell, no space group, a zero sort order, and no datasets, columns or rows |
| Reflections.Mtz.ExpandDataRows | src/map2sf.cpp:102 | `expand_data_rows(2)` leaves `nreflections` full rows of the new width |
| Reflections.Mtz.AddColumn | src/map2sf.cpp:99-101 | The new column is appended with its position as `idx` |
| Reflections.Mtz.AddDataset | src/map2sf.cpp:116-120 | The new dataset is appended with the next free id |
| Reflections.DatasetWithName | src/map2sf.cpp:89 | The result is the first dataset with the name, or none when no dataset has it |
| Reflections.NextDatasetId | src/map2sf.cpp:116-120 | The new id is not negative, exceeds every id in use, and is 0 in a file without datasets |
| Map2Sf.MaxIndex | src/map2sf.cpp:123-124 | `(n-1)/2` is non-negative and leaves room for all 2·max+1 signed indices on an axis of `n` points |
| Map2Sf.Fold | src/map2sf.cpp:134-136 | A listed index wraps to a grid position in `[0, n)` that is congruent to it modulo `n` |
| Map2Sf.FoldInjective | src/map2sf.cpp:123-136 | Distinct indices in the loop range read distinct grid positions |
| Map2Sf.Sample | src/map2sf.cpp:134-136 | For h, k ≥ 0 the sample listed is the stored `get_value_q(h, k, l)`; negative indices wrap as Fold states |
| Map2Sf.Accepted | src/map2sf.cpp:130-133 | An accepted index is in the ASU and is not the origin. Without a resolution limit that is all it takes; with one, its 1/d² is also below the bound |
| Map2Sf.Cells | src/map2sf.cpp:137-141 | A row is five cells: h, k and l, which read back through `(int)` as the index whenever it fits an `int`, then the amplitude as the fourth and the phase as the fifth |
| Map2Sf.Table | src/map2sf.cpp:137-142 | The `push_back`s lay the rows out row-major, five cells per reflection, so the table holds 5 cells per reflection; what row `i` holds is stated by TableRow |
| Map2Sf.LRows | src/map2sf.cpp:129-143 | The `l` loop lists at most one row per `l` below its bound; which rows and in what order is stated by LRowsMembers and LRowsIncreasing |
| Map2Sf.KRows | src/map2sf.cpp:128-143 | No contract of its own: it defines the `k` loop's rows as the `l` loop's rows for each `k` in turn. KRowsMembers and KRowsIncreasing state which rows and in what order |
| Map2Sf.HRows | src/map2sf.cpp:127-143 | No contract of its own: it defines the `h` loop's rows as the `k` loop's rows for each `h` in turn. HRowsMembers and HRowsIncreasing state which rows and in what order |
| Map2Sf.AsuReflections | src/map2sf.cpp:123-143 | No contract of its own: the rows of a new file in loop order. AsuReflectionsExactly and AsuReflectionsSorted state which rows and in what order |
| Map2Sf.LRowsMembers | src/map2sf.cpp:129-143 | The `l` loop lists exactly the accepted indices with that `h` and `k` and `l` below its bound, each with its folded sample |
| Map2Sf.KRowsMembers | src/map2sf.cpp:128-143 | The `k` loop lists exactly the accepted indices with that `h` and `k` below its bound |
| Map2Sf.HRowsMembers | src/map2sf.cpp:127-143 | The `h` loop lists exactly the accepted indices with `h` below its bound |
| Map2Sf.AsuReflectionsExactly | src/map2sf.cpp:123-143 | A new file lists exactly these reflections: indices with \|h\| ≤ (nu-1)/2, \|k\| ≤ (nv-1)/2 and 0 ≤ l < nw that are in the ASU, within the resolution limit and not the origin, each with the sample at its folded position. The origin is never listed |
| Map2Sf.AsuReflectionsSorted | src/map2sf.cpp:127-129 | The reflections come out strictly increasing in (h, k, l), so no index is listed twice |
| Map2Sf.LRowsIncreasing | src/map2sf.cpp:129 | The `l` loop lists its rows in increasing order |
| Map2Sf.KRowsIncreasing | src/map2sf.cpp:128-129 | The `k` loop lists its rows in increasing order |
| Map2Sf.HRowsIncreasing | src/map2sf.cpp:127-129 | The `h` loop lists its rows in increasing order |
| Map2Sf.TableRow | src/map2sf.cpp:137-141 | Row `i` of a new file holds reflection `i`: h, k and l as floats, then amplitude and phase. Its first three cells read back as `(int)` give the Miller index |
| Map2Sf.TableAppend | src/map2sf.cpp:137-141 | The table of two lists of rows, one after the other, is their two tables concatenated |
| Map2Sf.LRowsAccept | src/map2sf.cpp:130-142 | An accepted index adds one row: h, k and l as floats, then the amplitude and phase of its folded sample |
| Map2Sf.LRowsReject | src/map2sf.cpp:130-133 | A rejected index adds no row |
| Map2Sf.VisitIndex | src/map2sf.cpp:130-142 | One pass of the `l` loop appends the five cells of the index and counts it when the index is accepted, and changes nothing otherwise |
| Map2Sf.AppendLRows | src/map2sf.cpp:129-143 | The `l` loop appends the table of its listed rows and counts them in `nreflections` |
| Map2Sf.AppendKRows | src/map2sf.cpp:128-143 | The `k` loop appends the table of its listed rows and counts them |
| Map2Sf.AppendAsuReflections | src/map2sf.cpp:123-143 | The triple loop appends five cells per listed reflection and counts each one, so the file stays a full table (`|data| == 5 * nreflections` from empty) |
| Map2Sf.AddIndexColumns | src/map2sf.cpp:116-119 | A new file's first dataset is "HKL_base" with id 0, followed by the H, K and L columns (type 'H') at indices 0, 1 and 2 |
| Map2Sf.AddMapColumns | src/map2sf.cpp:120-122 | The second dataset has id 1 and is named by the section or "unknown"; the F and PHI columns follow at indices 3 and 4 with their types |
| Map2Sf.NewHeader | src/map2sf.cpp:113-122 | A new file before its rows: the map's cell and space group, sort order 1,2,3,0,0, the two datasets and the five columns, and no rows |
| Map2Sf.NewMtz | src/map2sf.cpp:113-143 | A new file has the map's cell and space group and sort order 1,2,3,0,0. Its datasets are "HKL_base" (id 0) and the section or "unknown" (id 1). Its columns are H, K, L (type 'H'), then F and PHI with their types. Its rows are the listed reflections |
| Map2Sf.TransformMapToSf | src/map2sf.cpp:54-151 | A map with a NaN cell fails with "Map does not cover all the ASU" and changes nothing. A non-`.mtz` path (in any case) fails with the mmCIF error. Otherwise the result is the updated base file or the new file, as above |

## Left out

- File I/O: reading the CCP4 map (`read_ccp4`, gzip), reading the base file (`read_mtz_file`) and `write_to_file`. The map arrives already set up on its full grid, the base file already read, and the result is the in-memory file.
- Option parsing (`OptParser`, `GEMMI_MAIN`, the usage table), the verbose messages, and `strtod` parsing of `--dmin`. The options arrive parsed.
- The Fourier transform `transform_map_to_f_phi`, `get_value` and `get_value_q`. They are the inputs `ReciprocalGrid.value` and `valueQ`. `std::abs` and `phase_in_angles` of the complex sample are taken as the amplitude and phase it carries.
- `ReciprocalAsuChecker::is_in` and `UnitCell::calculate_1_d2` are the inputs `inAsu` and `oneOverD2`.
- Map2Sf.MinOneOverD2: requires a non-zero `--dmin`. The source divides by zero and gets an infinite bound, which admits every reflection with a finite 1/d². In floating point, a huge or infinite `dmin` also gives a bound of 0, which turns the limit off; reals do not model that.
- Map2Sf.TransformMapToSf: requires `opts.dmin != Some(0.0)` through `MinOneOverD2`. It requires a transform grid of at least one point per axis, as any transform of a map has. It requires a base file holding full rows and at least one column when it has reflections.
- Map2Sf.VisitIndex: the five `push_back` calls for a listed reflection are one append of five cells; the states between them are never observed.
- Floating point: map and table values are exact reals or NaN. `(float) h` is taken as exact, which holds for grid-sized indices below 2^24.
- `get_phase_for_mtz` (src/map2sf.cpp:49-52) is defined but never called by the conversion.
- Reflections.Mtz.AddColumn: records the dataset id it is given, -1 included. The library attaches a column given -1 to the last dataset, so in the written file those columns carry that dataset's id. Here they carry -1: the five columns of a new file (`NewHeader`, `AddIndexColumns`, `AddMapColumns`) and the two columns added to a base file when `--section` names no dataset. `mtz.hpp` is not part of this model.
- MTZ library: failures inside the library (no datasets, bad positions) are not modelled.
- The mmCIF output path is the error the source raises. `ReflnBlock` and the CIF writer are not part of this model.
- model.hh: the parent back-pointers. The atom's element, coordinates, occupancy and B-factor (floating point, no behaviour in this header).
- tests/test_hkl.py exercises the Fourier transforms, which are left out above.
