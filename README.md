# MED-SR-workflow: data handling of a symbolic-regression study

This project is a Dafny model of the data handling in the MED symbolic-regression
workflow. It covers the two utility modules that carry the logic:

- `utils/general_utils.py`. This covers three things:
  - the exponent rewrite that `create_function` applies before an equation is compiled (`^` becomes `**`);
  - the seeded train/test split `split_df`;
  - the choice `find_hof_file` makes among the hall-of-fame artifacts.
- `utils/MEDProcessor.py`. This covers four parts of the `MEDProcessor` class:
  - validation in the constructor;
  - the split and the parameter bounds of `prepare_data`;
  - the result table that `test_equations` builds;
  - the lookup in `get_complexity_equation`.

The foreign parts become parameters:

- The symbolic-math compiler (`sympify` and `lambdify`) is a `Backend`: a function from equation text and parameter names to an optional compiled function.
- The pandas shuffle is a `Shuffler`: a function from the row count and the seed to a permutation of row indices.
- The modification times that `os.path.getmtime` would report are given with each candidate path.
- The hall-of-fame table is passed as a sequence of `EquationRecord`s, in place of the CSV file.

Files:

- `wrappers.dfy` (module `Wrappers`): `Option` and `Result`.
- `frames.dfy` (module `Frames`):
  - a table is a list of column names plus rows that map every column to a real;
  - `Column` selects the cells of one column;
  - `SeqMin` and `SeqMax` are pandas' `min` and `max`, with NaN for an empty series modelled as `None`.
- `general_utils.dfy` (module `GeneralUtils`): the three functions of `utils/general_utils.py`. They are pure, so they are functions with lemmas.
- `med_processor.dfy` (module `MedProcessing`):
  - the class `MedProcessor` with the four fields the constructor assigns;
  - `New`, which performs the validation and returns a `Result`;
  - `PrepareData`;
  - the method `TestEquations` with its two loops, written as the methods `ScoreRows` and `ScoreRow`. They are proved against the specification function `ResultTable`;
  - `GetComplexityEquation`.

`ResultTable` sorts the test rows with a stable insertion sort by the lexicographic order of the parameter tuple. It then builds one result row per sorted row with `ResultRow`. `ResultRow` starts from the parameter and target cells. For each record in turn, it writes the relative error under the name `Complexity {c} {target} p err`.

`ResultRow` is defined through `AddErrors`, a fold over the records' column names (`ErrKeys`) and their optional scores (`Scores`). This is why the lemmas about overwrites and columns are stated on `AddErrors`.

Behaviour of the code worth knowing:

- The code does not reject a split fraction outside [0, 1]. For a negative fraction, `int(split_frac * n)` is a negative slice bound, which Python counts from the end. So train keeps all but the last `int(-split_frac * n)` shuffled rows, and is empty only when that count is 0 or at least `n` (`SplitNegativeFraction`).
- The constructor does not check that the target is a column. Among the modelled operations, a missing target surfaces only in `test_equations`, as a `KeyError` at the first test row (`TestEquations`).
- `test_equations` fails on a hall-of-fame table without rows. pandas' row-wise `apply` on an empty table returns a copy of the whole table. Assigning that to the single column `Function` raises a `ValueError`. The model returns `EmptyEquationTable` (`TestEquations`).
- The split fraction is an exact rational (a Dafny `real`). The cut is Python's `int()` truncation followed by slice-bound normalisation (`TruncToInt`, `SliceIndex`). For a fraction in [0, 1] this is `floor(split_frac * n)` (`SplitSizes`).

## Model

| member | source | states |
|---|---|---|
| GeneralUtils.CaretToPower | utils/general_utils.py:20 | the rewritten equation contains no `^`, and it is longer than the input by exactly the number of `^` |
| GeneralUtils.CaretToPowerKeepsOperands | utils/general_utils.py:20 | every character other than `^` and `*` is kept, in order; each `^` contributes exactly two `*` |
| GeneralUtils.CaretToPowerConcat | utils/general_utils.py:20 | the rewrite distributes over concatenation (it works character by character) |
| GeneralUtils.CaretToPowerFixesCaretFree | utils/general_utils.py:20 | an equation without `^` is left unchanged |
| GeneralUtils.CaretToPowerIdempotent | utils/general_utils.py:20 | rewriting twice gives the same text as rewriting once |
| GeneralUtils.CreateFunctionIgnoresCaretSpelling | utils/general_utils.py:20-25 | `create_function` compiles `a^b` and `a**b` to the same function |
| GeneralUtils.CreateFunction | utils/general_utils.py:20-25 | `create_function`: the backend applied to the rewritten equation text; its properties are those of `CaretToPower` and `CreateFunctionIgnoresCaretSpelling` |
| GeneralUtils.TruncToInt | utils/general_utils.py:34 | Python `int()` of a real: the integer at most 1 below a non-negative argument, or at most 1 above a negative one (truncation toward zero) |
| GeneralUtils.SliceIndex | utils/general_utils.py:35 | a slice bound denotes a position in 0..n: kept when in range, counted from the end when negative, clamped otherwise |
| GeneralUtils.SplitIndex | utils/general_utils.py:34-35 | the cut `int(split_frac * n)` as a slice bound; its meaning is stated by `SplitSizes`, `SplitNegativeFraction` and `SplitLargeFraction` |
| GeneralUtils.Shuffled | utils/general_utils.py:33 | `sample(frac=1).reset_index(drop=True)`: same length, and row i is original row perm[i] |
| GeneralUtils.SplitDf | utils/general_utils.py:30-37 | both parts keep the columns; train has the cut's number of rows; train followed by test is exactly the shuffled table |
| GeneralUtils.SplitSizes | utils/general_utils.py:34-35 | for 0 ≤ split_frac ≤ 1, train has floor(split_frac·n) rows and the two parts have n rows together |
| GeneralUtils.SplitNegativeFraction | utils/general_utils.py:34-35 | a negative fraction drops the last int(−split_frac·n) shuffled rows from train, or leaves train empty when that count is 0 or at least n |
| GeneralUtils.SplitLargeFraction | utils/general_utils.py:34-35 | a fraction of at least 1 puts every shuffled row into train and leaves test empty |
| GeneralUtils.SplitTakesRowsByIndex | utils/general_utils.py:33-35 | train row i is original row perm[i]; test row j is original row perm[cut+j]; the two sets of original indices are disjoint |
| GeneralUtils.SplitPreservesRows | utils/general_utils.py:33-35 | the two parts together are a permutation of the dataset's rows (the multisets add up to the original) |
| GeneralUtils.SplitRowsComeFromDataset | utils/general_utils.py:33-35 | every row of either part is a row of the dataset |
| GeneralUtils.SplitReproducible | utils/general_utils.py:33 | equal dataset, fraction and seed give identical parts, in identical row order |
| GeneralUtils.PermutedMultiset | utils/general_utils.py:33 | reordering rows by a permutation of their indices keeps the multiset of rows |
| GeneralUtils.MostRecentIndex | utils/general_utils.py:56 | `max(files, key=getmtime)`: an index whose mtime is at least every other candidate's, and the first such index |
| GeneralUtils.FindHofFile | utils/general_utils.py:50-60 | None iff there are no candidates; the only candidate when there is one; otherwise the path of the first candidate with maximal mtime |
| Frames.Column | utils/MEDProcessor.py:42-43 | `df[param]`: one cell per row, in row order |
| Frames.SeqMin | utils/MEDProcessor.py:42 | the minimum of a column: absent exactly for an empty column, otherwise a member of it not above any member |
| Frames.SeqMax | utils/MEDProcessor.py:43 | the maximum of a column: absent exactly for an empty column, otherwise a member of it not below any member |
| MedProcessing.MissingParams | utils/MEDProcessor.py:19 | a name is listed iff it is a parameter name and not a column |
| MedProcessing.MissingParamsFirst | utils/MEDProcessor.py:19 | the list keeps parameter order: its first entry is the first parameter name that is not a column |
| MedProcessing.MedProcessor.New | utils/MEDProcessor.py:19-26 | construction fails iff some parameter name is not a column, with the list of missing names; on success the new processor holds the arguments unchanged and every parameter is a column |
| MedProcessing.MedProcessor.constructor | utils/MEDProcessor.py:23-26 | the four fields hold the arguments |
| MedProcessing.MedProcessor.PrepareData | utils/MEDProcessor.py:40-49 | train and test are exactly `split_df(df, split_frac, seed)`; `names` is the parameter list; one minimum and one maximum per parameter, each the minimum or maximum of that column over the FULL dataset |
| MedProcessing.MedProcessor.BoundsCoverSplit | utils/MEDProcessor.py:40-43 | every row of train and of test lies within its parameter's bounds |
| MedProcessing.MedProcessor.BoundsOrdered | utils/MEDProcessor.py:42-43 | the bounds are present iff the dataset has rows, and then minimum ≤ maximum |
| MedProcessing.NatToStringRoundTrip | utils/MEDProcessor.py:126 | reading back the printed digits of a natural number gives the number |
| MedProcessing.IntToStringRoundTrip | utils/MEDProcessor.py:126 | `str(c)` of an integer is a well-formed signed numeral that reads back to c |
| MedProcessing.IntToStringInjective | utils/MEDProcessor.py:126 | distinct integers print differently |
| MedProcessing.IntToString | utils/MEDProcessor.py:126 | `str(complexity)`: an optional minus sign, then decimal digits; read back by `IntToStringRoundTrip`, injective by `IntToStringInjective` |
| MedProcessing.ErrColumn | utils/MEDProcessor.py:126 | the key `Complexity {c} {target} p err`; its layout and injectivity are `ErrColumnLayout` and `ErrColumnInjective` |
| MedProcessing.ErrColumnLayout | utils/MEDProcessor.py:126 | the printed complexity sits at a fixed offset in the error column name, which has a fixed overhead of 18 characters |
| MedProcessing.ErrColumnInjective | utils/MEDProcessor.py:126 | distinct complexities get distinct error columns, and no error column is named like the target |
| MedProcessing.RelativeErrorProperties | utils/MEDProcessor.py:125 | the relative error is ≥ 0, is 0 iff pred == actual, and is \|pred\|·10^8 when actual is 0 |
| MedProcessing.RelativeErrorBelowExact | utils/MEDProcessor.py:125 | for a non-zero actual value and an imperfect prediction, the score is strictly below the exact relative error \|actual − pred\| / \|actual\| |
| MedProcessing.RelativeError | utils/MEDProcessor.py:125 | `np.abs(actual - pred) / (np.abs(actual) + 1e-8)`; its properties are `RelativeErrorProperties` and `RelativeErrorBelowExact` |
| MedProcessing.ParamValues | utils/MEDProcessor.py:121 | `[test_row[p] for p in param_names]`: one value per parameter name, in declared order |
| MedProcessing.BaseRow | utils/MEDProcessor.py:112-113 | the parameter and target cells a result row starts from; carried through by `ResultRowKeepsInputs` |
| MedProcessing.Score | utils/MEDProcessor.py:116-125 | one record's contribution: the relative error of its compiled function on the row, or nothing when the function is absent; stated by `ResultRowError` and `ResultRowColumns` |
| MedProcessing.AddErrors | utils/MEDProcessor.py:115-126 | the record loop as a fold of key writes; its keys are `AddErrorsColumns`, its overwrite rule `AddErrorsLastWriter`, its untouched columns `AddErrorsKeeps` |
| MedProcessing.ResultRow | utils/MEDProcessor.py:112-128 | the result row of one test row; stated by `ResultRowColumns`, `ResultRowError` and `ResultRowKeepsInputs`, and computed by `ScoreRow` |
| MedProcessing.LexLeqTotal | utils/MEDProcessor.py:108 | any two parameter tuples are ordered one way or the other |
| MedProcessing.LexLeqTransitive | utils/MEDProcessor.py:108 | the lexicographic order on parameter tuples is transitive |
| MedProcessing.InsertRow | utils/MEDProcessor.py:108 | inserting a row adds exactly that row to the multiset of rows |
| MedProcessing.SortRows | utils/MEDProcessor.py:108 | `sort_values(by=param_names)`: the sorted rows are a permutation of the test rows |
| MedProcessing.InsertRowSorted | utils/MEDProcessor.py:108 | inserting into sorted rows gives sorted rows |
| MedProcessing.SortRowsSorted | utils/MEDProcessor.py:108 | the sorted rows ascend in the lexicographic order of their parameter tuples |
| MedProcessing.AddErrorsColumns | utils/MEDProcessor.py:115-126 | the record loop adds exactly the error columns of the records whose function is present |
| MedProcessing.ResultRowColumns | utils/MEDProcessor.py:112-126 | a result row's columns are exactly the parameters, the target, and one error column per complexity of a record whose function is present; a record without a function adds no key |
| MedProcessing.AddErrorsLastWriter | utils/MEDProcessor.py:115-126 | a column holds the score of the last record that writes it |
| MedProcessing.ResultRowError | utils/MEDProcessor.py:115-126 | the error column of complexity c holds `\|actual − pred\| / (\|actual\| + 1e-8)` for the LAST record of complexity c whose function is present; later records overwrite earlier ones |
| MedProcessing.AddErrorsKeeps | utils/MEDProcessor.py:115-126 | a column that no record with a score writes keeps its value through the record loop |
| MedProcessing.ResultRowKeepsInputs | utils/MEDProcessor.py:112-113 | a result row carries its test row's parameter values and target value unchanged, unless an error column is named like a parameter |
| MedProcessing.ResultTable | utils/MEDProcessor.py:108-130 | one result row per test row |
| MedProcessing.ResultTableOrderedAndFaithful | utils/MEDProcessor.py:108-130 | the result rows correspond one to one to a permutation of the test rows; each carries its row's inputs; together they ascend in the lexicographic order of the parameter tuple; this holds provided no error column is named like a parameter |
| MedProcessing.MedProcessor.TestEquations | utils/MEDProcessor.py:103-130 | fails with `EmptyEquationTable` when the equation table has no rows; otherwise with `KeyError(p)` for the first parameter missing from the test table (see `MissingParamsFirst`); otherwise with `KeyError(target)` when the target is missing and there is a test row; otherwise the result is exactly the result table of the test rows |
| MedProcessing.MedProcessor.ScoreRows | utils/MEDProcessor.py:110-128 | the outer loop appends, in order, the result row of each sorted test row |
| MedProcessing.MedProcessor.ScoreRow | utils/MEDProcessor.py:112-126 | the inner loop builds exactly the result row of its test row |
| MedProcessing.MedProcessor.GetComplexityEquation | utils/MEDProcessor.py:146-148 | None iff no record has the complexity; otherwise the equation of the first record that has it |

## Left out

- `run_med_discovery` (utils/MEDProcessor.py:54-85) is not part of this model. It only forwards to the external `medeq` library: parameter creation, augment, save and discover.
- `sympify` and `lambdify` (utils/general_utils.py:22-25) are not part of this model. Compilation is the injected `Backend`. Its `None` result covers the `if func:` test (utils/MEDProcessor.py:119). This is a generalisation the source never reaches, since `lambdify` always returns a function and a function is always truthy. A parse error raised by `sympify` is not modelled.
- The pandas random generator behind `df.sample` (utils/general_utils.py:33) is an injected permutation of the row indices. Which permutation a given seed yields is not modelled.
- Reading the hall-of-fame CSV (utils/MEDProcessor.py:99-100, 143-144) is left out because it is file I/O. Its rows are passed in as `EquationRecord`s, so an unreadable file or a missing `Equation`/`Complexity` column is not modelled.
- `glob.glob` and `os.path.getmtime` (utils/general_utils.py:48, 56) are file-system queries. Their results are the `Candidate` list. The console messages of `find_hof_file` are not modelled.
- `move_hof_file` (utils/general_utils.py:63-92) is left out because it only has file-system effects.
- `med_fitting.py` is a batch driver script: CSV I/O, sleeping, printing, and a loop that stops after its first pass. Its only logic of its own is the seed × study sweep (`itertools.product`, med_fitting.py:65) and splitting each study string on `-` (med_fitting.py:99). Otherwise it calls the modelled operations, the left-out `run_med_discovery` and `move_hof_file`, and the CSV I/O.
- IEEE floating point is replaced by exact reals. So rounding of `split_frac * n`, and NaN or infinities produced inside an equation, are not modelled. The NaN that `min`/`max` give for an empty column is `None`.
- Only numeric columns are modelled; a dataset cell is a real.
- MedProcessing.SortRows: ties between rows with equal parameter tuples keep their input order (a stable sort). For a single sort key, pandas' default `sort_values` uses quicksort, which does not promise this, so the order among tied rows is a modelling choice.
- MedProcessing.MedProcessor.TestEquations: the result table is a sequence of maps. The column order of the `pd.DataFrame` built from it, and pandas' filling of missing cells, are not modelled.
- MedProcessing.MedProcessor.TestEquations: the loops are split into the methods `ScoreRows` (outer loop) and `ScoreRow` (inner loop). Each compiled function is computed once per record before the loops, as the `apply` in the source does.
- MedProcessing.ResultRowKeepsInputs: it assumes no error column is named like a parameter. If one were, the source overwrites that parameter's cell with an error value; `ResultRowError` still describes the cell's content then.
- The default arguments are not modelled. These are `seed=100` of `split_df`, `seed=42` of `prepare_data`, `folder_save_name="med_study"` and `tmp_path=None`. Every seed is an explicit argument of the model. The equation table is passed in directly, so the artifact path is not modelled.
