/** The ordered assignments of `generateOrderedCombinations`
    (script.js:204-221): 2^n rows of n truth values, the first variable
    changing slowest and every row starting from "all true". */
module Combinations {

  import opened Basics

  /** Row `r` over `n` variables: variable `i` is true exactly when
      ⌊r / 2^(n-1-i)⌋ is even (script.js:213-216). */
  function OrderedRow(n: nat, r: nat): (row: seq<bool>)
    ensures |row| == n
  {
    seq(n, i requires 0 <= i < n => (r / Pow2(n - 1 - i)) % 2 == 0)
  }

  /** All rows, `row = 0 .. 2^n - 1` (script.js:209-220). */
  function OrderedCombinations(n: nat): (rows: seq<seq<bool>>)
    ensures |rows| == Pow2(n)
    ensures forall r :: 0 <= r < |rows| ==> |rows[r]| == n
  {
    seq(Pow2(n), r requires 0 <= r < Pow2(n) => OrderedRow(n, r))
  }

  /** The row number a row of truth values stands for: read as a binary
      numeral, first entry most significant, with false as digit 1. */
  function RowNumber(row: seq<bool>): (k: nat)
    ensures k < Pow2(|row|)
  {
    if |row| == 0 then 0
    else 2 * RowNumber(row[..|row| - 1]) + (if row[|row| - 1] then 0 else 1)
  }

  /** Going from `n` to `n + 1` variables appends the parity of `r` to the
      row of ⌊r / 2⌋. */
  lemma RowSplit(n: nat, r: nat)
    ensures OrderedRow(n + 1, r) == OrderedRow(n, r / 2) + [r % 2 == 0]
  {
    var a, b := OrderedRow(n + 1, r), OrderedRow(n, r / 2) + [r % 2 == 0];
    forall i | 0 <= i < n
      ensures a[i] == b[i]
    {
      var p := Pow2(n - 1 - i);
      assert Pow2(n - i) == 2 * p;
      DivDouble(r, p);
    }
    assert Pow2(0) == 1;
    assert a[n] == b[n];
  }

  /** Reading row `r` back gives `r` modulo the number of rows. */
  lemma {:induction false} RowNumberOfRow(n: nat, r: nat)
    ensures RowNumber(OrderedRow(n, r)) == r % Pow2(n)
  {
    if n > 0 {
      RowSplit(n - 1, r);
      RowNumberOfRow(n - 1, r / 2);
      var row := OrderedRow(n, r);
      assert row[..n - 1] == OrderedRow(n - 1, r / 2);
      DivDouble(r, Pow2(n - 1));
    }
  }

  /** Every row of truth values is the row of its number. */
  lemma {:induction false} RowOfRowNumber(row: seq<bool>)
    ensures OrderedRow(|row|, RowNumber(row)) == row
  {
    if |row| > 0 {
      var n := |row| - 1;
      var front := row[..n];
      var k := RowNumber(row);
      var bit := if row[n] then 0 else 1;
      RowOfRowNumber(front);
      DivUnique(k, 2, RowNumber(front), bit);
      RowSplit(n, k);
      assert row == front + [row[n]];
    }
  }

  /** The rows are pairwise different. */
  lemma RowsDistinct(n: nat, r1: nat, r2: nat)
    requires r1 < Pow2(n) && r2 < Pow2(n) && r1 != r2
    ensures OrderedRow(n, r1) != OrderedRow(n, r2)
  {
    RowNumberOfRow(n, r1);
    RowNumberOfRow(n, r2);
    SmallMod(r1, Pow2(n));
    SmallMod(r2, Pow2(n));
  }

  lemma SmallMod(r: nat, m: nat)
    requires r < m
    ensures r % m == r
  {
    DivUnique(r, m, 0, r);
  }

  /** Every assignment of `n` truth values is one of the rows, at the
      position its row number gives. */
  lemma RowsComplete(row: seq<bool>)
    ensures OrderedCombinations(|row|)[RowNumber(row)] == row
  {
    RowOfRowNumber(row);
  }

  /** A row's number is the largest one exactly when every entry is false. */
  lemma {:induction false} AllFalseIsLast(row: seq<bool>)
    ensures RowNumber(row) == Pow2(|row|) - 1 <==> forall i :: 0 <= i < |row| ==> !row[i]
  {
    if |row| > 0 {
      var n := |row| - 1;
      AllFalseIsLast(row[..n]);
      assert forall i :: 0 <= i < n ==> row[..n][i] == row[i];
    }
  }

  /** Row 0 is all true. */
  lemma FirstRowAllTrue(n: nat)
    ensures forall i :: 0 <= i < n ==> OrderedRow(n, 0)[i]
  {
    forall i | 0 <= i < n
      ensures OrderedRow(n, 0)[i]
    {
      DivUnique(0, Pow2(n - 1 - i), 0, 0);
    }
  }

  /** The last row is all false. */
  lemma LastRowAllFalse(n: nat)
    ensures var last := OrderedRow(n, Pow2(n) - 1);
      forall i :: 0 <= i < n ==> !last[i]
  {
    var last := Pow2(n) - 1;
    RowNumberOfRow(n, last);
    SmallMod(last, Pow2(n));
    AllFalseIsLast(OrderedRow(n, last));
  }

  /** The first variable changes slowest: it is true in the first half of
      the rows and false in the second. */
  lemma FirstVariableSlowest(n: nat, r: nat)
    requires n > 0 && r < Pow2(n)
    ensures OrderedRow(n, r)[0] <==> r < Pow2(n - 1)
  {
    var h := Pow2(n - 1);
    if r < h {
      DivUnique(r, h, 0, r);
    } else {
      DivUnique(r, h, 1, r - h);
    }
  }

  /** The last variable alternates from row to row. */
  lemma LastVariableFastest(n: nat, r: nat)
    requires n > 0
    ensures OrderedRow(n, r)[n - 1] <==> r % 2 == 0
  {
    assert Pow2(0) == 1;
  }

  /** The context of a row (script.js:66-67, script2.js:115-119): each variable gets the value at its
      index, a later repeat of a name overwriting an earlier one. */
  function Context(vars: seq<string>, row: seq<bool>): (ctx: map<string, bool>)
    requires |row| == |vars|
    ensures forall v :: v in ctx <==> v in vars
  {
    if |vars| == 0 then map[]
    else
      var n := |vars| - 1;
      assert forall v :: v in vars <==> v in vars[..n] || v == vars[n];
      Context(vars[..n], row[..n])[vars[n] := row[n]]
  }

  /** A name not repeated later in the list has the value at its index. */
  lemma {:induction false} ContextValue(vars: seq<string>, row: seq<bool>, i: nat)
    requires |row| == |vars| && i < |vars| && LastOccurrence(vars, i)
    ensures Context(vars, row)[vars[i]] == row[i]
    decreases |vars|
  {
    var n := |vars| - 1;
    if i < n {
      LastOccurrencePrefix(vars, i);
      ContextValue(vars[..n], row[..n], i);
      assert vars[..n][i] == vars[i] && row[..n][i] == row[i];
      assert vars[n] != vars[i];
    }
  }

  lemma LastOccurrencePrefix(vars: seq<string>, i: nat)
    requires i < |vars| - 1 && LastOccurrence(vars, i)
    ensures LastOccurrence(vars[..|vars| - 1], i)
  {
    var p := vars[..|vars| - 1];
    assert forall j :: i < j < |p| ==> p[j] == vars[j];
  }

  /** No later entry repeats the name at index `i`. */
  predicate LastOccurrence(vars: seq<string>, i: nat)
    requires i < |vars|
  {
    forall j :: i < j < |vars| ==> vars[j] != vars[i]
  }
}
