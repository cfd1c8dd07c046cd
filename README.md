# datalib data pipeline, modelled in Dafny

This project models the data pipeline of `datalib/datalib/load.py`. The pipeline feeds the Bayesian trend models of
package-download request counts, broken down by region and client type. It has three parts:

- **Project-root search** (`root_path`). Starting from a directory, walk up through its parents until one holds the
  sentinel file `.gitignore`. A path is modelled as the sequence of its segments. The top of the tree (`/`, or `.` for
  a relative path) is the empty sequence and is its own parent. The set of directories holding the sentinel is an
  input. When no sentinel exists, the source keeps recursing at the top, whose parent is itself, until Python raises
  RecursionError. The model (`RootPath.Go`) returns `RootNotFound` there instead. The source's own behaviour is kept
  as `RootPath.GoAsWritten` (see Findings).
- **Tidy table** (`requests_by_region_by_date`). Raw CSV rows are kept only when their region is in the six-region
  allow-list `ALLOWED_REGIONS`. Rows with a missing `client_type` are then dropped. The remaining counts are summed per
  `(date, region, client_type)`. The groups come out in ascending key order, because `groupby` sorts by default and the
  keys are still Python strings when grouped. That order is modelled by `Strings.Less` and `Tidy.KeyLess`. The
  group-by is a sorted insert-with-merge (`Tidy.GroupSum`). It is proved against a reference sum taken directly over
  the raw rows (`Tidy.RawSum`, `Tidy.RawKeys`, `Tidy.RawTotal`).
- **Problem construction** (`construct_problem`). Four per-row columns stay aligned with the table rows. Two index maps
  number the sorted distinct labels `0..k-1`, because `np.unique` sorts. The date column is standardised by a scaler
  whose mean is the column's mean. The scaler's scale is a positive real supplied by the caller.

Floating point is not modelled. Date parsing, `log10` and the scaler's standard deviation are functions passed in by
the caller, and the model proves only where their results go.

The code differs from a stricter reading of the pipeline in three places. The model follows the code in each:

- A group whose counts sum to 0 raises no error. `np.log10` returns `-inf` for it, so the model applies the supplied
  `log10` to every count.
- A one-row table is not an error. The scaler turns a zero variance into a scale of 1, so the one standardised date is
  `0` (`Problem.OneRowTable`).
- An empty table fails inside the scaler's fit. The model returns `EmptyDataset` for it.

## Model

| member | source | states |
|---|---|---|
| RootPath.Parent | datalib/datalib/load.py:41 | `Path.parent` drops the last segment; the top is the only path that is its own parent |
| RootPath.Go | datalib/datalib/load.py:37-41 | a success is the nearest ancestor-or-self holding the sentinel; failure (RootNotFound) happens exactly when no ancestor-or-self holds one |
| RootPath.Find | datalib/datalib/load.py:36-43 | starts from the given path or else the working directory; returns the start itself when it holds the sentinel; otherwise as `Go` |
| RootPath.NearestMarkedUnique | datalib/datalib/load.py:37-41 | at most one directory is the nearest marked ancestor-or-self, so the search's answer is determined |
| RootPath.GoFindsExactlyNearest | datalib/datalib/load.py:37-43 | the search returns `q` if and only if `q` is the nearest marked ancestor-or-self of the start |
| RootPath.NoneMarkedHasNoNearest | datalib/datalib/load.py:37-41 | no ancestor-or-self holds the sentinel if and only if no directory qualifies as the answer |
| RootPath.UnmarkedStartDefersToParent | datalib/datalib/load.py:40-41 | an unmarked start gives its parent's answer, which is a proper ancestor |
| RootPath.AsWrittenNeverFindsNothing | datalib/datalib/load.py:37-41 | as written, with no sentinel on the way up, every recursion depth ends in the recursion error |
| RootPath.AsWrittenAgreesWhenFound | datalib/datalib/load.py:37-41 | as written, when a sentinel exists and the depth allows it, the helper returns what `Go` returns |
| Tidy.QueryAllowed | datalib/datalib/load.py:49 | a row is kept if and only if it is an input row whose region is in the six-region allow-list |
| Tidy.DropMissingClientType | datalib/datalib/load.py:50 | a row is kept if and only if it is an input row whose client type is present |
| Tidy.SurvivingConcat | datalib/datalib/load.py:49-51 | the filters act row by row: filtering a concatenation concatenates the filtered parts |
| Tidy.SurvivingOne | datalib/datalib/load.py:49-51 | a single raw row reaches the group-by, with its key and count, exactly when its region is allowed and its client type present |
| Tidy.InsertKeys | datalib/datalib/load.py:52-53 | adding a row to the grouped sums adds its key and no other |
| Tidy.InsertSums | datalib/datalib/load.py:52-53 | adding a row adds its count to its key's sum and changes no other sum (sum, not overwrite) |
| Tidy.InsertTotal | datalib/datalib/load.py:52-53 | adding a row raises the grand total by its count |
| Tidy.InsertSorted | datalib/datalib/load.py:52-54 | adding a row keeps the keys strictly ascending |
| Tidy.GroupSum | datalib/datalib/load.py:52-54 | keys strictly ascending (so pairwise distinct); key set equal to the input's; each key's sum and the grand total equal to the input's |
| Tidy.SumForSorted | datalib/datalib/load.py:52-54 | in a grouped table a key's sum is the count of its single row |
| Tidy.SurvivingKeys | datalib/datalib/load.py:49-52 | the keys reaching the group-by are exactly the keys of the raw rows that pass both filters |
| Tidy.SurvivingTotal | datalib/datalib/load.py:49-53 | the counts reaching the group-by total the counts of the raw rows that pass both filters |
| Tidy.SurvivingSums | datalib/datalib/load.py:49-53 | per key, the counts reaching the group-by sum to the counts of the surviving raw rows with that key |
| Tidy.Aggregate | datalib/datalib/load.py:47-54 | the grouped table is strictly ascending by key; its keys are the surviving raw keys; every region is allowed; each count is the sum of the surviving raw counts with its key; the grand total is preserved |
| Tidy.AggregateKeyed | datalib/datalib/load.py:52-54 | a key absent from the table has no surviving raw count; a present key has a row; no two rows share a key |
| Tidy.NonSurvivorContributesNothing | datalib/datalib/load.py:49-50 | inserting a raw row with a disallowed region (such as "ap-south") or a missing client type anywhere leaves the table unchanged |
| Tidy.SumNotOverwriteExample | datalib/datalib/load.py:52-53 | two raw rows with one key and counts 3 and 5 give one row with count 8 |
| Tidy.TidyTable | datalib/datalib/load.py:55-66 | one returned row per group, in the same order; each row's region is allowed, its count is the raw sum for its key, its date is the parse of the key's date and its log10 column is computed from its own count |
| Tidy.RequestsByRegionByDate | datalib/datalib/load.py:46-67 | fails with RootNotFound exactly when no ancestor-or-self of the working directory holds the sentinel; fails with DataNotFound exactly when the root is found but `data/package_requests_by_region_by_date.csv` is absent under it; otherwise succeeds with the tidy table of that CSV under the nearest marked ancestor, so allowed regions only |
| Problem.InsertLabelSpec | datalib/datalib/load.py:80 | adding a label to a sorted distinct list keeps it sorted and distinct and adds just that label |
| Problem.Unique | datalib/datalib/load.py:80 | `np.unique`: strictly ascending, and it holds exactly the labels of the input |
| Problem.SortedDistinctCard | datalib/datalib/load.py:80-81 | a sorted distinct list has as many distinct labels as entries |
| Problem.Numbering | datalib/datalib/load.py:80-81 | the enumeration maps the label at position `i` to `i` and has no other keys |
| Problem.NumberingValues | datalib/datalib/load.py:80-81 | the enumeration's values are exactly `0..k-1` for `k` keys |
| Problem.NumberingOrder | datalib/datalib/load.py:80-81 | the enumeration numbers labels in ascending string order |
| Problem.IndexMap | datalib/datalib/load.py:80-81 | keys are exactly the labels present in the column, not the allow-list; values are exactly `0..k-1`; one label is smaller than another if and only if its index is smaller, so the map is an order-preserving bijection |
| Problem.IndexMapOfTwo | datalib/datalib/load.py:80 | a column with two distinct labels, each repeated any number of times, maps the smaller to 0 and the larger to 1 |
| Problem.IndexMapExample | datalib/datalib/load.py:80 | `["us-west", "us-central", "us-west"]` gives `{"us-central": 0, "us-west": 1}` |
| Problem.InverseTransformRoundTrip | numpyro/scripts/linear.py:28 | mapping a standardised value back with the scaler's inverse transform recovers the original value |
| Problem.TransformAll | datalib/datalib/load.py:74 | the standardised column has one value per input value, each the transform of the value at the same position |
| Problem.StandardizedSumsToZero | datalib/datalib/load.py:74 | standardising a column by its own mean gives values that sum to zero (zero mean) |
| Problem.ConstructProblem | datalib/datalib/load.py:70-83 | fails with EmptyDataset exactly on an empty table; otherwise the four columns have the table's length and position `i` of each comes from row `i`; each date is the transform of row `i`'s date and inverts back to it; the scaler is fitted on the date column, its mean the column's mean and its scale `scaleOf` of the column; the dates sum to zero; the index maps are `IndexMap` of the region and client-type columns, so their keys are the labels present, their values `0..k-1` and their numbering follows string order |
| Problem.OneRowTable | datalib/datalib/load.py:71-74 | a one-row table succeeds, and its single standardised date is 0 |

## Left out

- Reading the CSV (`pd.read_csv`, load.py:48) is not modelled. The files are a map from path to parsed rows. An absent
  path gives DataNotFound.
- Tidy.Aggregate: pandas sums `request_count` in 64-bit integers (load.py:52-53), which can wrap around on overflow.
  The model's counts are unbounded naturals, so that overflow is not modelled.
- Extra CSV columns and unparsable rows are not modelled, because `.filter` keeps only the four modelled columns.
- Missing dates or regions are not modelled: a raw row always has a date string and a region string. The group-by's
  own dropping of missing keys therefore does not arise. Counts are non-negative integers.
- The `.gitignore` check (`glob`, load.py:38) is not modelled. The set of directories holding the sentinel is an input.
- Path normalisation is not modelled. Nor is the difference between a `str` and a `Path` start, or an empty string
  falling back to the working directory (`path or os.getcwd()`). The start is an optional segment sequence.
- Date parsing (`pd.to_datetime`, load.py:65) is a caller-supplied function from the date string to a number. The
  dates are grouped as strings, before the parse.
- `np.log10` (load.py:66) is a caller-supplied function. Only its placement, one value per row from that row's count,
  is modelled.
- Problem.ConstructProblem: the scaler's standard deviation is not computed. It is a caller-supplied positive real.
  The type `Scale` carries the scaler's rule that a zero variance becomes 1. Unit variance of the standardised dates
  is therefore not stated, only zero mean.
- Problem.ConstructProblem: all arithmetic is on exact reals, so floating-point rounding in the mean, the transform
  and its inverse is not modelled.
- The numpy arrays of `RequestCountProblem` are sequences, and the fitted `StandardScaler` object is its mean and scale.
- Reading `params/priors.yaml` (`datalib/datalib/params.py`) is file I/O and is not modelled.
- The PyMC3 and NumPyro scripts are not modelled: they define models and delegate MCMC sampling to those libraries.
- The plotting helpers (`plot.py`, `util.py`) are not modelled. Neither is the packaging file `setup.py`.

## Findings

| source | as written | input that shows it | evidently intended | confidence | as-written member | corrected member |
|---|---|---|---|---|---|---|
| datalib/datalib/load.py:37-41 | `go` has no base case: without the sentinel it recurses to the parent, and at the top the parent is the same path, so it recurses until Python's RecursionError | a start directory with no `.gitignore` at or above it, e.g. the top `[]` with an empty set of marked directories | an explicit "root not found" failure at the top | high; not executed | RootPath.GoAsWritten (shown by RootPath.AsWrittenNeverFindsNothing) | RootPath.Go |
