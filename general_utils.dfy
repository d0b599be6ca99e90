/**
 * utils/general_utils.py: the exponent rewrite performed before an equation is
 * compiled, the seeded train/test split, and the choice of the most recently
 * modified hall-of-fame artifact.
 */
module GeneralUtils {
  import opened Wrappers
  import opened Frames

  // ---------------------------------------------------------------------------
  // create_function: `equation_str.replace("^", "**")`
  // ---------------------------------------------------------------------------

  /** Number of occurrences of `c` in `s`. */
  function Count(s: string, c: char): nat {
    if s == [] then 0 else (if s[0] == c then 1 else 0) + Count(s[1..], c)
  }

  /** The characters of `s` that are neither `^` nor `*`, in order. */
  function Operands(s: string): string {
    if s == [] then []
    else (if s[0] == '^' || s[0] == '*' then [] else [s[0]]) + Operands(s[1..])
  }

  /** The backend writes powers as `^`; the symbolic parser expects `**`. */
  function CaretToPower(s: string): (r: string)
    ensures '^' !in r
    ensures |r| == |s| + Count(s, '^')
  {
    if s == [] then []
    else (if s[0] == '^' then "**" else [s[0]]) + CaretToPower(s[1..])
  }

  /** The rewrite works character by character: it distributes over concatenation. */
  lemma {:induction false} CaretToPowerConcat(a: string, b: string)
    ensures CaretToPower(a + b) == CaretToPower(a) + CaretToPower(b)
    decreases |a|
  {
    if a == [] {
      assert a + b == b;
    } else {
      assert (a + b)[0] == a[0];
      assert (a + b)[1..] == a[1..] + b;
      CaretToPowerConcat(a[1..], b);
    }
  }

  /**
   * Every `^` becomes exactly two `*`, and every character that is neither is
   * kept, in order.
   */
  lemma {:induction false} CaretToPowerKeepsOperands(s: string)
    ensures Operands(CaretToPower(s)) == Operands(s)
    ensures Count(CaretToPower(s), '*') == Count(s, '*') + 2 * Count(s, '^')
  {
    if s != [] {
      CaretToPowerKeepsOperands(s[1..]);
      var head := if s[0] == '^' then "**" else [s[0]];
      OperandsConcat(head, CaretToPower(s[1..]));
      CountConcat(head, CaretToPower(s[1..]), '*');
    }
  }

  lemma {:induction false} OperandsConcat(a: string, b: string)
    ensures Operands(a + b) == Operands(a) + Operands(b)
    decreases |a|
  {
    if a == [] {
      assert a + b == b;
    } else {
      assert (a + b)[0] == a[0];
      assert (a + b)[1..] == a[1..] + b;
      OperandsConcat(a[1..], b);
    }
  }

  lemma {:induction false} CountConcat(a: string, b: string, c: char)
    ensures Count(a + b, c) == Count(a, c) + Count(b, c)
    decreases |a|
  {
    if a == [] {
      assert a + b == b;
    } else {
      assert (a + b)[0] == a[0];
      assert (a + b)[1..] == a[1..] + b;
      CountConcat(a[1..], b, c);
    }
  }

  /** A string without `^` is left unchanged. */
  lemma {:induction false} CaretToPowerFixesCaretFree(s: string)
    requires '^' !in s
    ensures CaretToPower(s) == s
  {
    if s != [] {
      assert '^' !in s[1..] by {
        forall k | 0 <= k < |s[1..]| ensures s[1..][k] != '^' {
          assert s[1..][k] == s[k + 1];
        }
      }
      CaretToPowerFixesCaretFree(s[1..]);
    }
  }

  /** Rewriting twice is the same as rewriting once. */
  lemma CaretToPowerIdempotent(s: string)
    ensures CaretToPower(CaretToPower(s)) == CaretToPower(s)
  {
    CaretToPowerFixesCaretFree(CaretToPower(s));
  }

  /** A numeric function of the parameter values, in declared parameter order. */
  type Compiled = seq<real> -> real

  /**
   * `sympify` followed by `lambdify`: compiles equation text over the named
   * parameters. It is not part of this model; it is passed in. `None` stands for a
   * compiled function that is falsy.
   */
  type Backend = (string, seq<string>) -> Option<Compiled>

  /** `create_function`: rewrite the exponent operator, then hand the text to the backend. */
  function CreateFunction(equation: string, paramNames: seq<string>, backend: Backend): Option<Compiled> {
    backend(CaretToPower(equation), paramNames)
  }

  /**
   * Both spellings of the exponent compile alike: text already rewritten compiles to
   * the same function as the original text.
   */
  lemma CreateFunctionIgnoresCaretSpelling(equation: string, paramNames: seq<string>, backend: Backend)
    ensures CreateFunction(CaretToPower(equation), paramNames, backend) == CreateFunction(equation, paramNames, backend)
  {
    CaretToPowerIdempotent(equation);
  }

  // ---------------------------------------------------------------------------
  // split_df
  // ---------------------------------------------------------------------------

  /** `p` lists each of the row indices 0 .. n-1 exactly once. */
  ghost predicate IsPermutation(p: seq<nat>, n: nat) {
    && |p| == n
    && (forall i :: 0 <= i < n ==> p[i] < n)
    && (forall i, j :: 0 <= i < j < n ==> p[i] != p[j])
  }

  /**
   * `df.sample(frac=1, random_state=seed)`: the order in which the rows are drawn,
   * as a function of the row count and the seed. It is not part of this model; it is
   * passed in.
   */
  type Shuffler = (nat, int) -> seq<nat>

  /** The rows in permuted order, renumbered from zero (`reset_index(drop=True)`). */
  function Shuffled<T>(rows: seq<T>, perm: seq<nat>): (r: seq<T>)
    requires IsPermutation(perm, |rows|)
    ensures |r| == |rows|
    ensures forall i :: 0 <= i < |r| ==> r[i] == rows[perm[i]]
  {
    seq(|rows|, i requires 0 <= i < |rows| => rows[perm[i]])
  }

  /** Python's `int(x)`: truncation toward zero. */
  function TruncToInt(x: real): (k: int)
    ensures 0.0 <= x ==> 0 <= k && k as real <= x < k as real + 1.0
    ensures x < 0.0 ==> k <= 0 && k as real - 1.0 < x <= k as real
  {
    if 0.0 <= x then x.Floor else -((-x).Floor)
  }

  /**
   * The position a Python slice bound `k` denotes in a sequence of length `n`:
   * a negative bound counts from the end, and bounds are clamped to 0 .. n.
   */
  function SliceIndex(k: int, n: nat): (i: nat)
    ensures i <= n
    ensures 0 <= k <= n ==> i == k
    ensures n < k ==> i == n
    ensures k < 0 ==> i == if n + k < 0 then 0 else n + k
  {
    if k < 0 then (if n + k < 0 then 0 else n + k)
    else if k > n then n
    else k
  }

  /** Where the shuffled rows are cut: `int(split_frac * len(df))`, as a slice bound. */
  function SplitIndex(splitFrac: real, n: nat): nat {
    SliceIndex(TruncToInt(splitFrac * n as real), n)
  }

  /**
   * `split_df`: shuffle the rows with the seeded permutation, then cut them into a
   * train prefix and a test suffix.
   */
  function SplitDf(df: DataFrame, splitFrac: real, seed: int, shuffle: Shuffler): (r: (DataFrame, DataFrame))
    requires IsPermutation(shuffle(|df.rows|, seed), |df.rows|)
    ensures r.0.columns == df.columns && r.1.columns == df.columns
    ensures |r.0.rows| == SplitIndex(splitFrac, |df.rows|)
    ensures r.0.rows + r.1.rows == Shuffled(df.rows, shuffle(|df.rows|, seed))
  {
    var shuffled := Shuffled(df.rows, shuffle(|df.rows|, seed));
    var cut := SplitIndex(splitFrac, |df.rows|);
    assert shuffled[..cut] + shuffled[cut..] == shuffled;
    (Frame(df.columns, shuffled[..cut]), Frame(df.columns, shuffled[cut..]))
  }

  /**
   * For a fraction in [0, 1] the train part has exactly floor(split_frac * n) rows
   * and the two parts together have n.
   */
  lemma SplitSizes(df: DataFrame, splitFrac: real, seed: int, shuffle: Shuffler)
    requires IsPermutation(shuffle(|df.rows|, seed), |df.rows|)
    requires 0.0 <= splitFrac <= 1.0
    ensures |SplitDf(df, splitFrac, seed, shuffle).0.rows| == (splitFrac * |df.rows| as real).Floor
    ensures |SplitDf(df, splitFrac, seed, shuffle).0.rows| + |SplitDf(df, splitFrac, seed, shuffle).1.rows| == |df.rows|
  {
    var n := |df.rows| as real;
    MulMonotone(splitFrac, 1.0, n);
    var r := SplitDf(df, splitFrac, seed, shuffle);
    assert |r.0.rows + r.1.rows| == |df.rows|;
  }

  /**
   * A fraction below zero is not rejected: the cut then counts from the end, so the
   * train part is every shuffled row except the last `int(-split_frac * n)` (and is
   * empty when that truncates to zero or reaches n).
   */
  lemma SplitNegativeFraction(df: DataFrame, splitFrac: real, seed: int, shuffle: Shuffler)
    requires IsPermutation(shuffle(|df.rows|, seed), |df.rows|)
    requires splitFrac < 0.0
    ensures var dropped := (-splitFrac * |df.rows| as real).Floor;
            |SplitDf(df, splitFrac, seed, shuffle).0.rows|
              == if dropped == 0 || |df.rows| <= dropped then 0 else |df.rows| - dropped
  {
    var n := |df.rows| as real;
    assert -(splitFrac * n) == -splitFrac * n;
    assert 0.0 <= -splitFrac * n by {
      assert -splitFrac > 0.0;
    }
  }

  /** A fraction above one puts every row into train and leaves test empty. */
  lemma SplitLargeFraction(df: DataFrame, splitFrac: real, seed: int, shuffle: Shuffler)
    requires IsPermutation(shuffle(|df.rows|, seed), |df.rows|)
    requires 1.0 <= splitFrac
    ensures SplitDf(df, splitFrac, seed, shuffle).0.rows == Shuffled(df.rows, shuffle(|df.rows|, seed))
    ensures SplitDf(df, splitFrac, seed, shuffle).1.rows == []
  {
    var n := |df.rows| as real;
    MulMonotone(1.0, splitFrac, n);
    var r := SplitDf(df, splitFrac, seed, shuffle);
    assert |r.0.rows + r.1.rows| == |df.rows|;
  }

  /**
   * Train row i is original row perm[i] and test row j is original row
   * perm[cut + j], unchanged; the original indices behind the two parts are disjoint.
   */
  lemma SplitTakesRowsByIndex(df: DataFrame, splitFrac: real, seed: int, shuffle: Shuffler)
    requires IsPermutation(shuffle(|df.rows|, seed), |df.rows|)
    ensures var perm := shuffle(|df.rows|, seed);
            var r := SplitDf(df, splitFrac, seed, shuffle);
            var cut := |r.0.rows|;
            && (forall i :: 0 <= i < cut ==> r.0.rows[i] == df.rows[perm[i]])
            && (forall j :: 0 <= j < |r.1.rows| ==> r.1.rows[j] == df.rows[perm[cut + j]])
            && (set i | 0 <= i < cut :: perm[i]) !! (set j | cut <= j < |df.rows| :: perm[j])
  {
    var perm := shuffle(|df.rows|, seed);
    var r := SplitDf(df, splitFrac, seed, shuffle);
    var cut := |r.0.rows|;
    var shuffled := Shuffled(df.rows, perm);
    forall i | 0 <= i < cut ensures r.0.rows[i] == df.rows[perm[i]] {
      assert r.0.rows[i] == (r.0.rows + r.1.rows)[i];
    }
    forall j | 0 <= j < |r.1.rows| ensures r.1.rows[j] == df.rows[perm[cut + j]] {
      assert r.1.rows[j] == (r.0.rows + r.1.rows)[cut + j];
    }
  }

  /** No row is lost, duplicated or altered: together the parts are a permutation of the rows. */
  lemma SplitPreservesRows(df: DataFrame, splitFrac: real, seed: int, shuffle: Shuffler)
    requires IsPermutation(shuffle(|df.rows|, seed), |df.rows|)
    ensures var r := SplitDf(df, splitFrac, seed, shuffle);
            multiset(r.0.rows) + multiset(r.1.rows) == multiset(df.rows)
  {
    var r := SplitDf(df, splitFrac, seed, shuffle);
    PermutedMultiset(df.rows, shuffle(|df.rows|, seed));
    assert multiset(r.0.rows + r.1.rows) == multiset(r.0.rows) + multiset(r.1.rows);
  }

  /** Every row of either part is a row of the dataset. */
  lemma SplitRowsComeFromDataset(df: DataFrame, splitFrac: real, seed: int, shuffle: Shuffler)
    requires IsPermutation(shuffle(|df.rows|, seed), |df.rows|)
    ensures var r := SplitDf(df, splitFrac, seed, shuffle);
            (forall row :: row in r.0.rows ==> row in df.rows) && (forall row :: row in r.1.rows ==> row in df.rows)
  {
    var r := SplitDf(df, splitFrac, seed, shuffle);
    SplitPreservesRows(df, splitFrac, seed, shuffle);
    forall row | row in r.0.rows ensures row in df.rows {
      assert row in multiset(r.0.rows);
    }
    forall row | row in r.1.rows ensures row in df.rows {
      assert row in multiset(r.1.rows);
    }
  }

  /**
   * Reproducibility: the split is a function of the rows, the fraction and the seed
   * alone, so equal inputs give identical parts in identical row order.
   */
  lemma SplitReproducible(df1: DataFrame, df2: DataFrame, splitFrac: real, seed: int, shuffle: Shuffler)
    requires df1 == df2
    requires IsPermutation(shuffle(|df1.rows|, seed), |df1.rows|)
    ensures SplitDf(df1, splitFrac, seed, shuffle) == SplitDf(df2, splitFrac, seed, shuffle)
  {
  }

  lemma MulMonotone(x: real, y: real, n: real)
    requires x <= y && 0.0 <= n
    ensures x * n <= y * n
  {
    assert y * n - x * n == (y - x) * n;
  }

  /** Reordering rows by a permutation keeps the multiset of rows. */
  lemma {:induction false} PermutedMultiset<T>(rows: seq<T>, perm: seq<nat>)
    requires IsPermutation(perm, |rows|)
    ensures multiset(Shuffled(rows, perm)) == multiset(rows)
    decreases |rows|
  {
    var n := |rows|;
    if n > 0 {
      var v := perm[n - 1];
      var rest := rows[..v] + rows[v + 1..];
      var restPerm: seq<nat> := seq(n - 1, i requires 0 <= i < n - 1 => if perm[i] < v then perm[i] else perm[i] - 1);
      forall i, j | 0 <= i < j < n - 1 ensures restPerm[i] != restPerm[j] {
        assert perm[i] != perm[j];
      }
      assert IsPermutation(restPerm, n - 1);
      PermutedMultiset(rest, restPerm);
      var all := Shuffled(rows, perm);
      assert Shuffled(rest, restPerm) == all[..n - 1];
      assert all == all[..n - 1] + [rows[v]];
      assert rows == rows[..v] + [rows[v]] + rows[v + 1..];
    }
  }

  // ---------------------------------------------------------------------------
  // find_hof_file
  // ---------------------------------------------------------------------------

  /** A file that matched the glob pattern, with its modification time. */
  datatype Candidate = Candidate(path: string, mtime: real)

  /**
   * `max(files, key=os.path.getmtime)`: the index of the first candidate whose
   * modification time is not exceeded by any other.
   */
  function MostRecentIndex(files: seq<Candidate>): (k: nat)
    requires |files| > 0
    ensures k < |files|
    ensures forall j :: 0 <= j < |files| ==> files[j].mtime <= files[k].mtime
    ensures forall j :: 0 <= j < k ==> files[j].mtime < files[k].mtime
  {
    if |files| == 1 then 0
    else
      var k := MostRecentIndex(files[..|files| - 1]);
      if files[|files| - 1].mtime > files[k].mtime then |files| - 1 else k
  }

  /**
   * `find_hof_file` after the glob: no artifact when nothing matched, the only match
   * when there is one, otherwise the most recently modified match.
   */
  function FindHofFile(files: seq<Candidate>): (r: Option<string>)
    ensures r.None? <==> files == []
    ensures |files| == 1 ==> r == Some(files[0].path)
    ensures |files| > 1 ==>
      exists k :: && 0 <= k < |files|
                  && r == Some(files[k].path)
                  && (forall j :: 0 <= j < |files| ==> files[j].mtime <= files[k].mtime)
                  && (forall j :: 0 <= j < k ==> files[j].mtime < files[k].mtime)
  {
    if |files| == 0 then None
    else if |files| > 1 then Some(files[MostRecentIndex(files)].path)
    else Some(files[0].path)
  }
}
