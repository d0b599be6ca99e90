/**
 * utils/MEDProcessor.py: one symbolic-regression study over a labelled dataset.
 * The processor validates its parameter names, prepares the train/test split and
 * the parameter bounds, scores every discovered equation on the held-out rows, and
 * looks equations up by complexity. The discovery call itself and all file I/O are
 * outside the model.
 */
module MedProcessing {
  import opened Wrappers
  import opened Frames
  import opened GeneralUtils

  /** One row of the hall-of-fame table: equation text and its complexity score. */
  datatype EquationRecord = EquationRecord(equation: string, complexity: int)

  /** `ValueError` raised by the constructor, listing the unknown parameter names. */
  datatype ValidationError = MissingParamNames(missing: seq<string>)

  /**
   * How `test_equations` fails once the hall-of-fame table has been read:
   * pandas' `KeyError` for a column that the test table lacks, or the `ValueError`
   * raised when the compiled-function column is assigned for a table without rows
   * (pandas' row-wise `apply` then yields the whole table instead of one column).
   */
  datatype EvaluationError = KeyError(column: string) | EmptyEquationTable

  /** The bounds dictionary handed to the discovery backend. */
  datatype Parameters = Parameters(names: seq<string>, minimums: seq<Option<real>>, maximums: seq<Option<real>>)

  // ---------------------------------------------------------------------------
  // Validation
  // ---------------------------------------------------------------------------

  /** `[p for p in param_names if p not in df.columns]`. */
  function MissingParams(paramNames: seq<string>, columns: seq<string>): (missing: seq<string>)
    ensures forall p :: p in missing <==> p in paramNames && p !in columns
    ensures |missing| <= |paramNames|
  {
    if paramNames == [] then []
    else
      assert paramNames == [paramNames[0]] + paramNames[1..];
      (if paramNames[0] in columns then [] else [paramNames[0]]) + MissingParams(paramNames[1..], columns)
  }

  /**
   * The list keeps the order of the parameter names: its first entry is the first
   * parameter name that is not a column.
   */
  lemma {:induction false} MissingParamsFirst(paramNames: seq<string>, columns: seq<string>)
    requires MissingParams(paramNames, columns) != []
    ensures exists k :: && 0 <= k < |paramNames|
                        && MissingParams(paramNames, columns)[0] == paramNames[k]
                        && paramNames[k] !in columns
                        && forall m :: 0 <= m < k ==> paramNames[m] in columns
  {
    if paramNames[0] in columns {
      var rest := paramNames[1..];
      MissingParamsFirst(rest, columns);
      var k :| && 0 <= k < |rest| && MissingParams(rest, columns)[0] == rest[k] && rest[k] !in columns
               && forall m :: 0 <= m < k ==> rest[m] in columns;
      forall m | 0 <= m < k + 1 ensures paramNames[m] in columns {
        if m > 0 {
          assert paramNames[m] == rest[m - 1];
        }
      }
      assert MissingParams(paramNames, columns)[0] == paramNames[k + 1];
    } else {
      assert MissingParams(paramNames, columns)[0] == paramNames[0];
    }
  }

  // ---------------------------------------------------------------------------
  // Result-table column names: f"Complexity {complexity} {target} p err"
  // ---------------------------------------------------------------------------

  function DigitChar(d: nat): (c: char)
    requires d < 10
    ensures '0' <= c <= '9'
  {
    (48 + d) as char
  }

  predicate IsDigits(s: string) {
    |s| >= 1 && forall i :: 0 <= i < |s| ==> '0' <= s[i] <= '9'
  }

  /** Decimal digits of `n`, most significant first, without leading zeros. */
  function NatToString(n: nat): (s: string)
    ensures IsDigits(s)
  {
    if n < 10 then [DigitChar(n)] else NatToString(n / 10) + [DigitChar(n % 10)]
  }

  /** `str(n)` for an integer: a minus sign for negative numbers, then the digits. */
  function IntToString(n: int): string {
    if n < 0 then "-" + NatToString(-n) else NatToString(n)
  }

  /** Reads decimal digits back into a number. */
  function ParseDigits(s: string): nat
    requires IsDigits(s)
  {
    if |s| == 1 then (s[0] as int - 48)
    else 10 * ParseDigits(s[..|s| - 1]) + (s[|s| - 1] as int - 48)
  }

  lemma {:induction false} NatToStringRoundTrip(n: nat)
    ensures ParseDigits(NatToString(n)) == n
  {
    if n >= 10 {
      var s := NatToString(n);
      assert s[..|s| - 1] == NatToString(n / 10);
      NatToStringRoundTrip(n / 10);
    }
  }

  /** Reads a printed integer back: an optional minus sign, then digits. */
  function ParseInt(s: string): int
    requires IsDigits(s) || (|s| >= 2 && s[0] == '-' && IsDigits(s[1..]))
  {
    if s[0] == '-' then -(ParseDigits(s[1..]) as int) else ParseDigits(s)
  }

  /** Printing an integer and reading it back gives the integer. */
  lemma IntToStringRoundTrip(n: int)
    ensures var s := IntToString(n);
            (IsDigits(s) || (|s| >= 2 && s[0] == '-' && IsDigits(s[1..]))) && ParseInt(s) == n
  {
    var s := IntToString(n);
    if n < 0 {
      assert s[1..] == NatToString(-n);
      NatToStringRoundTrip(-n);
    } else {
      NatToStringRoundTrip(n);
    }
  }

  /** Distinct integers print differently. */
  lemma IntToStringInjective(a: int, b: int)
    requires IntToString(a) == IntToString(b)
    ensures a == b
  {
    IntToStringRoundTrip(a);
    IntToStringRoundTrip(b);
  }

  /** The name of the relative-error column for equations of one complexity. */
  function ErrColumn(complexity: int, target: string): string {
    "Complexity " + IntToString(complexity) + " " + target + " p err"
  }

  /** Where the printed complexity sits inside an error column name. */
  lemma ErrColumnLayout(a: int, target: string)
    ensures var s := IntToString(a);
            var e := ErrColumn(a, target);
            |e| == 18 + |s| + |target| && e[11..11 + |s|] == s
  {
    var s := IntToString(a);
    var e := ErrColumn(a, target);
    var tail := " " + target + " p err";
    assert e == "Complexity " + s + tail;
    assert ("Complexity " + s + tail)[11..11 + |s|] == s;
  }

  /**
   * Different complexities get different error columns, and no error column can be
   * named like the target itself.
   */
  lemma ErrColumnInjective(a: int, b: int, target: string)
    ensures ErrColumn(a, target) == ErrColumn(b, target) ==> a == b
    ensures ErrColumn(a, target) != target
  {
    ErrColumnLayout(a, target);
    ErrColumnLayout(b, target);
    if ErrColumn(a, target) == ErrColumn(b, target) {
      IntToStringInjective(a, b);
    }
  }

  // ---------------------------------------------------------------------------
  // Relative error
  // ---------------------------------------------------------------------------

  function Abs(x: real): real {
    if x < 0.0 then -x else x
  }

  /** The constant added to the denominator so that a zero target does not divide by zero. */
  const Epsilon: real := 0.00000001

  /** `np.abs(actual - pred) / (np.abs(actual) + 1e-8)`. */
  function RelativeError(actual: real, pred: real): real {
    Abs(actual - pred) / (Abs(actual) + Epsilon)
  }

  /**
   * The relative error is never negative, is zero exactly for a perfect prediction,
   * and is |pred| * 10^8 when the actual value is zero.
   */
  lemma RelativeErrorProperties(actual: real, pred: real)
    ensures RelativeError(actual, pred) >= 0.0
    ensures RelativeError(actual, pred) == 0.0 <==> pred == actual
    ensures actual == 0.0 ==> RelativeError(actual, pred) == Abs(pred) * 100000000.0
  {
  }

  /**
   * Against the exact relative error |actual - pred| / |actual| the score is an
   * under-approximation: strictly smaller for every imperfect prediction.
   */
  lemma RelativeErrorBelowExact(actual: real, pred: real)
    requires actual != 0.0 && pred != actual
    ensures RelativeError(actual, pred) < Abs(actual - pred) / Abs(actual)
  {
    var d, a := Abs(actual - pred), Abs(actual);
    assert d / (a + Epsilon) * (a + Epsilon) == d;
    assert d / a * a == d;
    assert d / (a + Epsilon) * a < d / (a + Epsilon) * (a + Epsilon);
  }

  // ---------------------------------------------------------------------------
  // Sorting the test rows: `test_df.sort_values(by=param_names)`
  // ---------------------------------------------------------------------------

  predicate HasKeys(row: Row, keys: seq<string>) {
    forall k :: k in keys ==> k in row
  }

  ghost predicate AllHaveKeys(rows: seq<Row>, keys: seq<string>) {
    forall row :: row in rows ==> HasKeys(row, keys)
  }

  /** `[row[p] for p in param_names]`: the parameter values in declared order. */
  function ParamValues(row: Row, paramNames: seq<string>): (v: seq<real>)
    requires HasKeys(row, paramNames)
    ensures |v| == |paramNames|
  {
    seq(|paramNames|, k requires 0 <= k < |paramNames| => row[paramNames[k]])
  }

  /** Lexicographic order on equally long tuples, leftmost column first. */
  predicate LexLeq(a: seq<real>, b: seq<real>)
    requires |a| == |b|
  {
    a == [] || a[0] < b[0] || (a[0] == b[0] && LexLeq(a[1..], b[1..]))
  }

  lemma {:induction false} LexLeqTotal(a: seq<real>, b: seq<real>)
    requires |a| == |b|
    ensures LexLeq(a, b) || LexLeq(b, a)
  {
    if a != [] && a[0] == b[0] {
      LexLeqTotal(a[1..], b[1..]);
    }
  }

  lemma {:induction false} LexLeqTransitive(a: seq<real>, b: seq<real>, c: seq<real>)
    requires |a| == |b| == |c|
    requires LexLeq(a, b) && LexLeq(b, c)
    ensures LexLeq(a, c)
  {
    if a != [] && a[0] == b[0] == c[0] {
      LexLeqTransitive(a[1..], b[1..], c[1..]);
    }
  }

  /** Rows in ascending lexicographic order of their parameter tuples. */
  ghost predicate SortedBy(rows: seq<Row>, paramNames: seq<string>)
    requires AllHaveKeys(rows, paramNames)
  {
    forall i, j :: 0 <= i < j < |rows| ==> LexLeq(ParamValues(rows[i], paramNames), ParamValues(rows[j], paramNames))
  }

  /** Inserts `x` after every row whose key does not exceed its own. */
  function InsertRow(x: Row, sorted: seq<Row>, paramNames: seq<string>): (r: seq<Row>)
    requires HasKeys(x, paramNames) && AllHaveKeys(sorted, paramNames)
    ensures multiset(r) == multiset(sorted) + multiset{x}
    ensures forall row :: row in r ==> row == x || row in sorted
    decreases |sorted|
  {
    if sorted == [] then [x]
    else
      var last := sorted[|sorted| - 1];
      assert sorted == sorted[..|sorted| - 1] + [last];
      if LexLeq(ParamValues(last, paramNames), ParamValues(x, paramNames)) then sorted + [x]
      else InsertRow(x, sorted[..|sorted| - 1], paramNames) + [last]
  }

  /** Insertion sort by the parameter tuple; rows with equal tuples keep their order. */
  function SortRows(rows: seq<Row>, paramNames: seq<string>): (r: seq<Row>)
    requires AllHaveKeys(rows, paramNames)
    ensures multiset(r) == multiset(rows)
    ensures |r| == |rows|
    ensures forall row :: row in r ==> row in rows
  {
    if rows == [] then []
    else
      var init := rows[..|rows| - 1];
      assert rows == init + [rows[|rows| - 1]];
      var r := InsertRow(rows[|rows| - 1], SortRows(init, paramNames), paramNames);
      assert |r| == |multiset(r)|;
      r
  }

  /** A row whose key is at least every key of a sorted sequence can be appended to it. */
  lemma AppendSorted(front: seq<Row>, last: Row, paramNames: seq<string>)
    requires AllHaveKeys(front, paramNames) && HasKeys(last, paramNames)
    requires SortedBy(front, paramNames)
    requires forall i :: 0 <= i < |front| ==> LexLeq(ParamValues(front[i], paramNames), ParamValues(last, paramNames))
    ensures AllHaveKeys(front + [last], paramNames)
    ensures SortedBy(front + [last], paramNames)
  {
    var r := front + [last];
    forall i, j | 0 <= i < j < |r|
      ensures LexLeq(ParamValues(r[i], paramNames), ParamValues(r[j], paramNames))
    {
      assert r[i] == front[i];
      if j < |front| {
        assert r[j] == front[j];
      }
    }
  }

  /** Inserting a row below a bound into rows below that bound keeps every row below it. */
  lemma InsertedBelow(x: Row, rows: seq<Row>, bound: seq<real>, paramNames: seq<string>)
    requires HasKeys(x, paramNames) && AllHaveKeys(rows, paramNames) && |bound| == |paramNames|
    requires LexLeq(ParamValues(x, paramNames), bound)
    requires forall k :: 0 <= k < |rows| ==> LexLeq(ParamValues(rows[k], paramNames), bound)
    ensures forall i :: 0 <= i < |InsertRow(x, rows, paramNames)|
                        ==> LexLeq(ParamValues(InsertRow(x, rows, paramNames)[i], paramNames), bound)
  {
    var r := InsertRow(x, rows, paramNames);
    forall i | 0 <= i < |r| ensures LexLeq(ParamValues(r[i], paramNames), bound) {
      if r[i] != x {
        assert r[i] in rows;
        var k :| 0 <= k < |rows| && rows[k] == r[i];
      }
    }
  }

  /** A row whose key is at least the last key of a sorted sequence goes at its end. */
  lemma AppendAfterLast(x: Row, sorted: seq<Row>, paramNames: seq<string>)
    requires HasKeys(x, paramNames) && AllHaveKeys(sorted, paramNames)
    requires SortedBy(sorted, paramNames) && sorted != []
    requires LexLeq(ParamValues(sorted[|sorted| - 1], paramNames), ParamValues(x, paramNames))
    ensures AllHaveKeys(sorted + [x], paramNames)
    ensures SortedBy(sorted + [x], paramNames)
  {
    var n := |sorted|;
    var lastKey := ParamValues(sorted[n - 1], paramNames);
    var xKey := ParamValues(x, paramNames);
    forall i | 0 <= i < n ensures LexLeq(ParamValues(sorted[i], paramNames), xKey) {
      if i < n - 1 {
        LexLeqTransitive(ParamValues(sorted[i], paramNames), lastKey, xKey);
      }
    }
    AppendSorted(sorted, x, paramNames);
  }

  /**
   * A row whose key is below the last key of a sorted sequence goes into the rows
   * before it; the last row stays at the end.
   */
  lemma {:induction false} InsertBeforeLast(x: Row, sorted: seq<Row>, paramNames: seq<string>)
    requires HasKeys(x, paramNames) && AllHaveKeys(sorted, paramNames)
    requires SortedBy(sorted, paramNames) && sorted != []
    requires !LexLeq(ParamValues(sorted[|sorted| - 1], paramNames), ParamValues(x, paramNames))
    ensures AllHaveKeys(sorted[..|sorted| - 1], paramNames)
    ensures AllHaveKeys(InsertRow(x, sorted[..|sorted| - 1], paramNames) + [sorted[|sorted| - 1]], paramNames)
    ensures SortedBy(InsertRow(x, sorted[..|sorted| - 1], paramNames) + [sorted[|sorted| - 1]], paramNames)
    decreases |sorted|, 0
  {
    var n := |sorted|;
    var init := sorted[..n - 1];
    var last := sorted[n - 1];
    var lastKey := ParamValues(last, paramNames);
    InitSorted(sorted, paramNames);
    InsertRowSorted(x, init, paramNames);
    LexLeqTotal(lastKey, ParamValues(x, paramNames));
    forall k | 0 <= k < |init| ensures LexLeq(ParamValues(init[k], paramNames), lastKey) {
      assert init[k] == sorted[k];
    }
    InsertedBelow(x, init, lastKey, paramNames);
    var front := InsertRow(x, init, paramNames);
    assert last in sorted;
    AppendSorted(front, last, paramNames);
  }

  lemma {:induction false} InsertRowSorted(x: Row, sorted: seq<Row>, paramNames: seq<string>)
    requires HasKeys(x, paramNames) && AllHaveKeys(sorted, paramNames)
    requires SortedBy(sorted, paramNames)
    ensures AllHaveKeys(InsertRow(x, sorted, paramNames), paramNames)
    ensures SortedBy(InsertRow(x, sorted, paramNames), paramNames)
    decreases |sorted|, 1
  {
    if sorted != [] {
      var n := |sorted|;
      if LexLeq(ParamValues(sorted[n - 1], paramNames), ParamValues(x, paramNames)) {
        AppendAfterLast(x, sorted, paramNames);
      } else {
        InsertBeforeLast(x, sorted, paramNames);
      }
    }
  }

  /** Dropping the last row keeps a sorted sequence sorted. */
  lemma InitSorted(sorted: seq<Row>, paramNames: seq<string>)
    requires sorted != [] && AllHaveKeys(sorted, paramNames) && SortedBy(sorted, paramNames)
    ensures AllHaveKeys(sorted[..|sorted| - 1], paramNames)
    ensures SortedBy(sorted[..|sorted| - 1], paramNames)
  {
    var init := sorted[..|sorted| - 1];
    forall row | row in init ensures HasKeys(row, paramNames) {
      var k :| 0 <= k < |init| && init[k] == row;
      assert sorted[k] == row;
    }
    forall i, j | 0 <= i < j < |init|
      ensures LexLeq(ParamValues(init[i], paramNames), ParamValues(init[j], paramNames))
    {
      assert init[i] == sorted[i] && init[j] == sorted[j];
    }
  }

  /** The sorted rows ascend in lexicographic order of their parameter tuples. */
  lemma {:induction false} SortRowsSorted(rows: seq<Row>, paramNames: seq<string>)
    requires AllHaveKeys(rows, paramNames)
    ensures AllHaveKeys(SortRows(rows, paramNames), paramNames)
    ensures SortedBy(SortRows(rows, paramNames), paramNames)
  {
    if rows != [] {
      var init := rows[..|rows| - 1];
      assert rows == init + [rows[|rows| - 1]];
      SortRowsSorted(init, paramNames);
      InsertRowSorted(rows[|rows| - 1], SortRows(init, paramNames), paramNames);
    }
  }

  // ---------------------------------------------------------------------------
  // One result row per test row
  // ---------------------------------------------------------------------------

  /** `{param: test_row[param] for param in param_names}`, then the target cell. */
  function BaseRow(row: Row, paramNames: seq<string>, target: string): Row
    requires HasKeys(row, paramNames) && target in row
  {
    (map p | p in paramNames :: row[p])[target := row[target]]
  }

  /**
   * What one record contributes to a row: the relative error of its compiled
   * function at the row's parameter values against the row's target value, or
   * nothing when the backend produced no function for it.
   */
  function Score(row: Row, paramNames: seq<string>, target: string, rec: EquationRecord, backend: Backend): Option<real>
    requires HasKeys(row, paramNames) && target in row
  {
    match CreateFunction(rec.equation, paramNames, backend)
    case None => None
    case Some(f) => Some(RelativeError(row[target], f(ParamValues(row, paramNames))))
  }

  /** The scores of all records on one row, in record order. */
  function Scores(row: Row, paramNames: seq<string>, target: string,
                  records: seq<EquationRecord>, backend: Backend): seq<Option<real>>
    requires HasKeys(row, paramNames) && target in row
  {
    seq(|records|, j requires 0 <= j < |records| => Score(row, paramNames, target, records[j], backend))
  }

  /** The error column names of all records, in record order. */
  function ErrKeys(records: seq<EquationRecord>, target: string): seq<string> {
    seq(|records|, j requires 0 <= j < |records| => ErrColumn(records[j].complexity, target))
  }

  /**
   * The inner loop over the equation records, applied to `acc`: each record with a
   * score sets its error column to it, overwriting what an earlier record with the
   * same column wrote.
   */
  function AddErrors(acc: Row, keys: seq<string>, scores: seq<Option<real>>): Row
    requires |scores| == |keys|
    decreases |keys|
  {
    if keys == [] then acc
    else
      var n := |keys|;
      var prev := AddErrors(acc, keys[..n - 1], scores[..n - 1]);
      match scores[n - 1]
      case None => prev
      case Some(err) => prev[keys[n - 1] := err]
  }

  /** The result row built for one test row. */
  function ResultRow(row: Row, paramNames: seq<string>, target: string,
                     records: seq<EquationRecord>, backend: Backend): Row
    requires HasKeys(row, paramNames) && target in row
  {
    AddErrors(BaseRow(row, paramNames, target), ErrKeys(records, target),
              Scores(row, paramNames, target, records, backend))
  }

  /** The columns that records with a score write. */
  function Written(keys: seq<string>, scores: seq<Option<real>>): set<string>
    requires |scores| == |keys|
  {
    set j | 0 <= j < |keys| && scores[j].Some? :: keys[j]
  }

  /** No error column is named like a parameter. */
  ghost predicate ErrColumnsAvoidParams(paramNames: seq<string>, target: string, records: seq<EquationRecord>) {
    forall j :: 0 <= j < |records| ==> ErrColumn(records[j].complexity, target) !in paramNames
  }

  /** The columns written by a list of records: those of all but the last, plus the last one's. */
  lemma WrittenSnoc(keys: seq<string>, scores: seq<Option<real>>)
    requires keys != [] && |scores| == |keys|
    ensures var n := |keys|;
            Written(keys, scores)
              == Written(keys[..n - 1], scores[..n - 1]) + (if scores[n - 1].Some? then {keys[n - 1]} else {})
  {
    var n := |keys|;
    var initKeys, initScores := keys[..n - 1], scores[..n - 1];
    var whole := Written(keys, scores);
    var front := Written(initKeys, initScores);
    var last: set<string> := if scores[n - 1].Some? then {keys[n - 1]} else {};
    forall key | key in whole ensures key in front + last {
      var j :| 0 <= j < n && scores[j].Some? && key == keys[j];
      if j < n - 1 {
        assert initKeys[j] == keys[j] && initScores[j] == scores[j];
      }
    }
    forall key | key in front ensures key in whole {
      var j :| 0 <= j < n - 1 && initScores[j].Some? && key == initKeys[j];
      assert keys[j] == initKeys[j] && scores[j] == initScores[j];
    }
  }

  /**
   * The inner loop adds exactly the columns of the records with a score; a record
   * without one adds nothing.
   */
  lemma {:induction false} AddErrorsColumns(acc: Row, keys: seq<string>, scores: seq<Option<real>>)
    requires |scores| == |keys|
    ensures AddErrors(acc, keys, scores).Keys == acc.Keys + Written(keys, scores)
    decreases |keys|
  {
    if keys != [] {
      var n := |keys|;
      AddErrorsColumns(acc, keys[..n - 1], scores[..n - 1]);
      WrittenSnoc(keys, scores);
    }
  }

  /**
   * A result row holds exactly the parameter columns, the target column and one
   * error column per complexity of a record whose function is present.
   */
  lemma ResultRowColumns(row: Row, paramNames: seq<string>, target: string,
                         records: seq<EquationRecord>, backend: Backend)
    requires HasKeys(row, paramNames) && target in row
    ensures ResultRow(row, paramNames, target, records, backend).Keys
            == (set p | p in paramNames) + {target}
               + (set j | 0 <= j < |records| && CreateFunction(records[j].equation, paramNames, backend).Some?
                    :: ErrColumn(records[j].complexity, target))
  {
    var keys := ErrKeys(records, target);
    var scores := Scores(row, paramNames, target, records, backend);
    AddErrorsColumns(BaseRow(row, paramNames, target), keys, scores);
    forall j | 0 <= j < |records|
      ensures scores[j].Some? <==> CreateFunction(records[j].equation, paramNames, backend).Some?
      ensures keys[j] == ErrColumn(records[j].complexity, target)
    {
    }
  }

  /**
   * The column of a record with a score holds that score when no LATER record with
   * the same column has one.
   */
  lemma {:induction false} AddErrorsLastWriter(acc: Row, keys: seq<string>, scores: seq<Option<real>>, j: nat)
    requires |scores| == |keys|
    requires j < |keys| && scores[j].Some?
    requires forall k :: j < k < |keys| && keys[k] == keys[j] ==> scores[k].None?
    ensures keys[j] in AddErrors(acc, keys, scores)
    ensures AddErrors(acc, keys, scores)[keys[j]] == scores[j].value
    decreases |keys|
  {
    var n := |keys|;
    if j < n - 1 {
      var initKeys, initScores := keys[..n - 1], scores[..n - 1];
      assert initKeys[j] == keys[j] && initScores[j] == scores[j];
      forall k | j < k < |initKeys| && initKeys[k] == initKeys[j]
        ensures initScores[k].None?
      {
        assert initKeys[k] == keys[k] && initScores[k] == scores[k];
      }
      AddErrorsLastWriter(acc, initKeys, initScores, j);
    }
  }

  /**
   * In a result row, the error column of complexity c holds the relative error of
   * the LAST record with that complexity whose function is present, evaluated at
   * the row's parameter values against its target value.
   */
  lemma ResultRowError(row: Row, paramNames: seq<string>, target: string,
                       records: seq<EquationRecord>, backend: Backend, j: nat)
    requires HasKeys(row, paramNames) && target in row
    requires j < |records|
    requires CreateFunction(records[j].equation, paramNames, backend).Some?
    requires forall k :: j < k < |records| && records[k].complexity == records[j].complexity
                         ==> CreateFunction(records[k].equation, paramNames, backend).None?
    ensures ErrColumn(records[j].complexity, target) in ResultRow(row, paramNames, target, records, backend)
    ensures ResultRow(row, paramNames, target, records, backend)[ErrColumn(records[j].complexity, target)]
            == RelativeError(row[target],
                 CreateFunction(records[j].equation, paramNames, backend).value(ParamValues(row, paramNames)))
  {
    var keys := ErrKeys(records, target);
    var scores := Scores(row, paramNames, target, records, backend);
    forall k | j < k < |keys| && keys[k] == keys[j]
      ensures scores[k].None?
    {
      ErrColumnInjective(records[k].complexity, records[j].complexity, target);
    }
    AddErrorsLastWriter(BaseRow(row, paramNames, target), keys, scores, j);
  }

  /** Running the inner loop one record further. */
  lemma AddErrorsPrefix(acc: Row, keys: seq<string>, scores: seq<Option<real>>, j: nat)
    requires |scores| == |keys| && j < |keys|
    ensures var prev := AddErrors(acc, keys[..j], scores[..j]);
            AddErrors(acc, keys[..j + 1], scores[..j + 1])
              == (match scores[j] case None => prev case Some(err) => prev[keys[j] := err])
  {
    assert keys[..j + 1][..j] == keys[..j] && scores[..j + 1][..j] == scores[..j];
  }

  /** A column that no record with a score writes keeps its value. */
  lemma {:induction false} AddErrorsKeeps(acc: Row, keys: seq<string>, scores: seq<Option<real>>, key: string)
    requires |scores| == |keys|
    requires key in acc && key !in Written(keys, scores)
    ensures key in AddErrors(acc, keys, scores)
    ensures AddErrors(acc, keys, scores)[key] == acc[key]
    decreases |keys|
  {
    if keys != [] {
      var n := |keys|;
      WrittenSnoc(keys, scores);
      AddErrorsKeeps(acc, keys[..n - 1], scores[..n - 1], key);
    }
  }

  /** A name that is no record's column is written by none of them. */
  lemma NotWritten(keys: seq<string>, scores: seq<Option<real>>, key: string)
    requires |scores| == |keys| && key !in keys
    ensures key !in Written(keys, scores)
  {
  }

  /**
   * The parameter values and the target value are carried over unchanged, provided
   * no error column is named like a parameter (the target never can be).
   */
  lemma ResultRowKeepsInputs(row: Row, paramNames: seq<string>, target: string,
                             records: seq<EquationRecord>, backend: Backend)
    requires HasKeys(row, paramNames) && target in row
    requires ErrColumnsAvoidParams(paramNames, target, records)
    ensures var r := ResultRow(row, paramNames, target, records, backend);
            && HasKeys(r, paramNames) && target in r
            && ParamValues(r, paramNames) == ParamValues(row, paramNames)
            && r[target] == row[target]
  {
    var base := BaseRow(row, paramNames, target);
    var keys := ErrKeys(records, target);
    var scores := Scores(row, paramNames, target, records, backend);
    var r := ResultRow(row, paramNames, target, records, backend);
    assert target !in keys by {
      forall j | 0 <= j < |records| ensures keys[j] != target {
        ErrColumnInjective(records[j].complexity, records[j].complexity, target);
      }
    }
    NotWritten(keys, scores, target);
    AddErrorsKeeps(base, keys, scores, target);
    forall p | p in paramNames ensures p in r && r[p] == row[p] {
      assert p !in keys;
      NotWritten(keys, scores, p);
      AddErrorsKeeps(base, keys, scores, p);
    }
  }

  /** `test_equations` after the sort: one result row per sorted test row, in order. */
  function ResultTable(rows: seq<Row>, paramNames: seq<string>, target: string,
                       records: seq<EquationRecord>, backend: Backend): (t: seq<Row>)
    requires AllHaveKeys(rows, paramNames + [target])
    ensures |t| == |rows|
  {
    var sorted := SortRows(rows, paramNames);
    seq(|sorted|, i requires 0 <= i < |sorted| =>
      assert sorted[i] in rows && HasKeys(sorted[i], paramNames + [target]);
      ResultRow(sorted[i], paramNames, target, records, backend))
  }

  /** Row i of the result table is the result row of the i-th sorted test row. */
  lemma ResultTableAt(rows: seq<Row>, paramNames: seq<string>, target: string,
                      records: seq<EquationRecord>, backend: Backend, i: nat)
    requires AllHaveKeys(rows, paramNames + [target])
    requires i < |rows|
    ensures var sorted := SortRows(rows, paramNames);
            && HasKeys(sorted[i], paramNames) && target in sorted[i]
            && ResultTable(rows, paramNames, target, records, backend)[i]
               == ResultRow(sorted[i], paramNames, target, records, backend)
  {
    var sorted := SortRows(rows, paramNames);
    assert sorted[i] in rows && HasKeys(sorted[i], paramNames + [target]);
  }

  /** Each result row carries the parameter and target values of its test row. */
  ghost predicate CarriesInputs(t: seq<Row>, sorted: seq<Row>, paramNames: seq<string>, target: string) {
    && |t| == |sorted|
    && forall i :: 0 <= i < |t| ==>
         && HasKeys(t[i], paramNames) && target in t[i]
         && HasKeys(sorted[i], paramNames) && target in sorted[i]
         && ParamValues(t[i], paramNames) == ParamValues(sorted[i], paramNames)
         && t[i][target] == sorted[i][target]
  }

  /**
   * The result table has one row for each test row (the sorted rows are a
   * permutation of the test rows), each carrying that row's parameter and target
   * values, in ascending lexicographic order of the parameter tuple.
   */
  lemma ResultTableOrderedAndFaithful(rows: seq<Row>, paramNames: seq<string>, target: string,
                                      records: seq<EquationRecord>, backend: Backend)
    requires AllHaveKeys(rows, paramNames + [target])
    requires ErrColumnsAvoidParams(paramNames, target, records)
    ensures var t := ResultTable(rows, paramNames, target, records, backend);
            var sorted := SortRows(rows, paramNames);
            && multiset(sorted) == multiset(rows)
            && CarriesInputs(t, sorted, paramNames, target)
            && AllHaveKeys(t, paramNames)
            && SortedBy(t, paramNames)
  {
    var t := ResultTable(rows, paramNames, target, records, backend);
    var sorted := SortRows(rows, paramNames);
    assert AllHaveKeys(rows, paramNames);
    SortRowsSorted(rows, paramNames);
    forall i | 0 <= i < |t|
      ensures && HasKeys(t[i], paramNames) && target in t[i]
              && HasKeys(sorted[i], paramNames) && target in sorted[i]
              && ParamValues(t[i], paramNames) == ParamValues(sorted[i], paramNames)
              && t[i][target] == sorted[i][target]
    {
      ResultTableAt(rows, paramNames, target, records, backend, i);
      ResultRowKeepsInputs(sorted[i], paramNames, target, records, backend);
    }
    assert CarriesInputs(t, sorted, paramNames, target);
    forall row | row in t ensures HasKeys(row, paramNames) {
      var i :| 0 <= i < |t| && t[i] == row;
    }
    forall i, j | 0 <= i < j < |t|
      ensures LexLeq(ParamValues(t[i], paramNames), ParamValues(t[j], paramNames))
    {
    }
  }

  // ---------------------------------------------------------------------------
  // The processor
  // ---------------------------------------------------------------------------

  class MedProcessor {
    const paramNames: seq<string>
    const df: DataFrame
    const target: string
    const folderSaveName: string

    /** Every parameter name is a column of the dataset. */
    ghost predicate Valid() {
      forall p :: p in paramNames ==> p in df.columns
    }

    /** The field assignments of `__init__`, reached once validation has passed. */
    constructor (paramNames: seq<string>, df: DataFrame, target: string, folderSaveName: string)
      requires MissingParams(paramNames, df.columns) == []
      ensures Valid()
      ensures this.paramNames == paramNames && this.df == df
      ensures this.target == target && this.folderSaveName == folderSaveName
    {
      this.df := df;
      this.target := target;
      this.folderSaveName := folderSaveName;
      this.paramNames := paramNames;
    }

    /**
     * `MEDProcessor(param_names, df, target, folder_save_name)`: fails with the list
     * of unknown names when some parameter is not a column, otherwise holds the
     * arguments unchanged.
     */
    static method New(paramNames: seq<string>, df: DataFrame, target: string, folderSaveName: string)
      returns (r: Result<MedProcessor, ValidationError>)
      ensures r.Failure? <==> exists p :: p in paramNames && p !in df.columns
      ensures r.Failure? ==> r.error == MissingParamNames(MissingParams(paramNames, df.columns))
      ensures r.Success? ==> && fresh(r.value) && r.value.Valid()
                             && r.value.paramNames == paramNames && r.value.df == df
                             && r.value.target == target && r.value.folderSaveName == folderSaveName
    {
      var missing := MissingParams(paramNames, df.columns);
      if missing != [] {
        assert missing[0] in missing;
        return Failure(MissingParamNames(missing));
      }
      var processor := new MedProcessor(paramNames, df, target, folderSaveName);
      return Success(processor);
    }

    /**
     * `prepare_data`: the seeded split of the whole dataset, and per parameter the
     * minimum and maximum of its column over the FULL dataset (NaN, here None, when
     * the dataset is empty).
     */
    function PrepareData(splitFrac: real, seed: int, shuffle: Shuffler): (r: (DataFrame, DataFrame, Parameters))
      requires Valid()
      requires IsPermutation(shuffle(|df.rows|, seed), |df.rows|)
      ensures (r.0, r.1) == SplitDf(df, splitFrac, seed, shuffle)
      ensures r.2.names == paramNames
      ensures |r.2.minimums| == |paramNames| && |r.2.maximums| == |paramNames|
      ensures forall i :: 0 <= i < |paramNames| ==>
                IsMinimumOf(r.2.minimums[i], Column(df, paramNames[i]))
                && IsMaximumOf(r.2.maximums[i], Column(df, paramNames[i]))
    {
      var split := SplitDf(df, splitFrac, seed, shuffle);
      var minimums := seq(|paramNames|, i requires 0 <= i < |paramNames| => SeqMin(Column(df, paramNames[i])));
      var maximums := seq(|paramNames|, i requires 0 <= i < |paramNames| => SeqMax(Column(df, paramNames[i])));
      (split.0, split.1, Parameters(paramNames, minimums, maximums))
    }

    /**
     * The bounds span every value of their parameter in BOTH parts of the split, so
     * the discovery search domain also covers values seen only in the test rows.
     */
    lemma BoundsCoverSplit(splitFrac: real, seed: int, shuffle: Shuffler, i: nat)
      requires Valid()
      requires IsPermutation(shuffle(|df.rows|, seed), |df.rows|)
      requires i < |paramNames|
      ensures var r := PrepareData(splitFrac, seed, shuffle);
              var p := paramNames[i];
              forall row :: row in r.0.rows + r.1.rows ==>
                 && r.2.minimums[i].Some? && r.2.maximums[i].Some?
                 && r.2.minimums[i].value <= row[p] <= r.2.maximums[i].value
    {
      var r := PrepareData(splitFrac, seed, shuffle);
      var p := paramNames[i];
      var col := Column(df, p);
      var lo, hi := r.2.minimums[i], r.2.maximums[i];
      assert IsMinimumOf(lo, col) && IsMaximumOf(hi, col);
      SplitRowsComeFromDataset(df, splitFrac, seed, shuffle);
      forall row | row in r.0.rows + r.1.rows
        ensures lo.Some? && hi.Some? && lo.value <= row[p] <= hi.value
      {
        assert row in df.rows;
        var k :| 0 <= k < |df.rows| && df.rows[k] == row;
        assert col[k] in col;
      }
    }

    /**
     * Each parameter's bounds are present exactly when the dataset has rows, and
     * then the minimum does not exceed the maximum.
     */
    lemma BoundsOrdered(splitFrac: real, seed: int, shuffle: Shuffler, i: nat)
      requires Valid()
      requires IsPermutation(shuffle(|df.rows|, seed), |df.rows|)
      requires i < |paramNames|
      ensures var r := PrepareData(splitFrac, seed, shuffle);
              && (r.2.minimums[i].Some? <==> df.rows != [])
              && (r.2.maximums[i].Some? <==> df.rows != [])
              && (df.rows != [] ==> r.2.minimums[i].value <= r.2.maximums[i].value)
    {
      var r := PrepareData(splitFrac, seed, shuffle);
      var col := Column(df, paramNames[i]);
      assert IsMinimumOf(r.2.minimums[i], col) && IsMaximumOf(r.2.maximums[i], col);
      if df.rows != [] {
        assert col[0] in col;
      }
    }

    /**
     * `test_equations` after the artifact has been read: compile every record, sort
     * the test rows by the parameter columns, and build one result row per test row.
     * An equation table without rows fails when its function column is assigned; a
     * parameter missing from the test table fails the sort; a missing target fails
     * at the first row.
     */
    method TestEquations(testDf: DataFrame, records: seq<EquationRecord>, backend: Backend)
      returns (r: Result<seq<Row>, EvaluationError>)
      ensures r.Failure? <==> || records == []
                              || MissingParams(paramNames, testDf.columns) != []
                              || (testDf.rows != [] && target !in testDf.columns)
      ensures records == [] ==> r == Failure(EmptyEquationTable)
      ensures records != [] && MissingParams(paramNames, testDf.columns) != [] ==>
                r == Failure(KeyError(MissingParams(paramNames, testDf.columns)[0]))
      ensures (&& records != [] && MissingParams(paramNames, testDf.columns) == []
               && testDf.rows != [] && target !in testDf.columns) ==>
                r == Failure(KeyError(target))
      ensures r.Success? ==> && AllHaveKeys(testDf.rows, paramNames + [target])
                             && r.value == ResultTable(testDf.rows, paramNames, target, records, backend)
    {
      if records == [] {
        return Failure(EmptyEquationTable);
      }
      var functions := seq(|records|, j requires 0 <= j < |records| => CreateFunction(records[j].equation, paramNames, backend));
      var missing := MissingParams(paramNames, testDf.columns);
      if missing != [] {
        assert missing[0] in missing;
        return Failure(KeyError(missing[0]));
      }
      var sorted := SortRows(testDf.rows, paramNames);
      if |sorted| > 0 && target !in testDf.columns {
        return Failure(KeyError(target));
      }
      assert AllHaveKeys(testDf.rows, paramNames + [target]);

      var results := ScoreRows(sorted, records, functions, backend);
      forall k | 0 <= k < |results|
        ensures results[k] == ResultTable(testDf.rows, paramNames, target, records, backend)[k]
      {
        ResultTableAt(testDf.rows, paramNames, target, records, backend, k);
      }
      return Success(results);
    }

    /**
     * The outer loop of `test_equations`: one result row per sorted test row,
     * appended in order.
     */
    method ScoreRows(sorted: seq<Row>, records: seq<EquationRecord>, functions: seq<Option<Compiled>>, backend: Backend)
      returns (results: seq<Row>)
      requires forall row :: row in sorted ==> HasKeys(row, paramNames) && target in row
      requires |functions| == |records|
      requires forall j :: 0 <= j < |records| ==> functions[j] == CreateFunction(records[j].equation, paramNames, backend)
      ensures |results| == |sorted|
      ensures forall k :: 0 <= k < |sorted| ==>
                HasKeys(sorted[k], paramNames) && target in sorted[k]
                && results[k] == ResultRow(sorted[k], paramNames, target, records, backend)
    {
      ghost var expected := seq(|sorted|, k requires 0 <= k < |sorted| =>
                                assert sorted[k] in sorted;
                                ResultRow(sorted[k], paramNames, target, records, backend));
      results := [];
      var i := 0;
      while i < |sorted|
        invariant 0 <= i <= |sorted|
        invariant results == expected[..i]
      {
        var testRow := sorted[i];
        assert testRow in sorted;
        var resultRow := ScoreRow(testRow, records, functions, backend);
        assert expected[..i + 1] == expected[..i] + [resultRow];
        results := results + [resultRow];
        i := i + 1;
      }
      assert results == expected;
      forall k | 0 <= k < |sorted| ensures HasKeys(sorted[k], paramNames) && target in sorted[k] {
        assert sorted[k] in sorted;
      }
    }

    /**
     * The body of the outer loop of `test_equations` for one test row: the
     * parameter and target cells, then one relative error per record whose compiled
     * function is present.
     */
    method ScoreRow(testRow: Row, records: seq<EquationRecord>, functions: seq<Option<Compiled>>, backend: Backend)
      returns (resultRow: Row)
      requires HasKeys(testRow, paramNames) && target in testRow
      requires |functions| == |records|
      requires forall j :: 0 <= j < |records| ==> functions[j] == CreateFunction(records[j].equation, paramNames, backend)
      ensures resultRow == ResultRow(testRow, paramNames, target, records, backend)
    {
      resultRow := map p | p in paramNames :: testRow[p];
      resultRow := resultRow[target := testRow[target]];
      ghost var keys := ErrKeys(records, target);
      ghost var scores := Scores(testRow, paramNames, target, records, backend);

      var j := 0;
      while j < |records|
        invariant 0 <= j <= |records|
        invariant resultRow == AddErrors(BaseRow(testRow, paramNames, target), keys[..j], scores[..j])
      {
        var func := functions[j];
        var complexity := records[j].complexity;
        AddErrorsPrefix(BaseRow(testRow, paramNames, target), keys, scores, j);
        assert keys[j] == ErrColumn(complexity, target);
        assert scores[j] == Score(testRow, paramNames, target, records[j], backend);
        if func.Some? {
          var paramValues := ParamValues(testRow, paramNames);
          var pred := func.value(paramValues);
          var actual := testRow[target];
          var err := RelativeError(actual, pred);
          resultRow := resultRow[ErrColumn(complexity, target) := err];
        }
        j := j + 1;
      }
      assert keys[..|records|] == keys && scores[..|records|] == scores;
    }

    /**
     * `get_complexity_equation` after the artifact has been read: the equation of the
     * first record with the given complexity, or None when no record has it.
     */
    function GetComplexityEquation(complexity: int, records: seq<EquationRecord>): (r: Option<string>)
      ensures r.None? <==> forall k :: 0 <= k < |records| ==> records[k].complexity != complexity
      ensures r.Some? ==> exists k :: && 0 <= k < |records|
                                      && records[k].complexity == complexity
                                      && records[k].equation == r.value
                                      && forall m :: 0 <= m < k ==> records[m].complexity != complexity
    {
      if records == [] then None
      else if records[0].complexity == complexity then Some(records[0].equation)
      else
        var rest := GetComplexityEquation(complexity, records[1..]);
        assert forall k :: 1 <= k < |records| ==> records[k] == records[1..][k - 1];
        rest
    }
  }
}
