/** The truth table of script2.js: rows read off the bits of the row index
    (script2.js:110-125) and the classification of the result column
    (script2.js:747-752). */
module BitTable {

  import opened Basics
  import opened Operators
  import opened Combinations
  import opened SplitEvaluator
  import opened Printer

  /** Bit `k` of `x`. */
  predicate Bit(x: nat, k: nat)
  {
    (x / Pow2(k)) % 2 == 1
  }

  /** 2^32, the number of 32-bit patterns. */
  const Two32: nat := 0x1_0000_0000

  /** `!!(i & (1 << (n - 1 - j)))` for every `j`: the shift count is taken
      modulo 32 and `i` is read as a 32-bit pattern, as JavaScript's `<<`
      and `&` do. */
  function BitRow(n: nat, i: nat): (row: seq<bool>)
    ensures |row| == n
  {
    seq(n, j requires 0 <= j < n => Bit(i % Two32, (n - 1 - j) % 32))
  }

  /** Every entry flipped. */
  function Negate(row: seq<bool>): (r: seq<bool>)
    ensures |r| == |row| && forall j :: 0 <= j < |row| ==> r[j] == !row[j]
  {
    seq(|row|, j requires 0 <= j < |row| => !row[j])
  }

  /** Flipping every entry mirrors the row number. */
  lemma {:induction false} RowNumberNegate(row: seq<bool>)
    ensures RowNumber(Negate(row)) == Pow2(|row|) - 1 - RowNumber(row)
    decreases |row|
  {
    if |row| > 0 {
      var n := |row| - 1;
      assert Negate(row)[..n] == Negate(row[..n]);
      RowNumberNegate(row[..n]);
    }
  }

  lemma {:induction false} Pow2Monotone(m: nat, n: nat)
    requires m <= n
    ensures Pow2(m) <= Pow2(n)
    decreases n
  {
    if m < n {
      Pow2Monotone(m, n - 1);
    }
  }

  lemma Pow2Of32()
    ensures Pow2(32) == Two32
  {
    assert Pow2(8) == 256;
    assert Pow2(16) == 256 * Pow2(8) by {
      assert Pow2(16) == 256 * Pow2(8);
    }
    assert Pow2(24) == 256 * Pow2(16);
    assert Pow2(32) == 256 * Pow2(24);
  }

  /** Up to 32 variables, variable `j` of row `i` is bit `n - 1 - j` of
      `i`: the opposite of the script.js row with the same index. */
  lemma BitRowNegates(n: nat, i: nat)
    requires n <= 32 && i < Pow2(n)
    ensures BitRow(n, i) == Negate(OrderedRow(n, i))
  {
    Pow2Monotone(n, 32);
    Pow2Of32();
    SmallMod(i, Two32);
    var row := OrderedRow(n, i);
    forall j | 0 <= j < n
      ensures BitRow(n, i)[j] == !row[j]
    {
      var k := n - 1 - j;
      assert k % 32 == k;
      assert BitRow(n, i)[j] == Bit(i, k);
      assert row[j] == ((i / Pow2(k)) % 2 == 0);
    }
  }

  /** The script.js rows counted from the other end are the flipped rows. */
  lemma OrderedRowMirror(n: nat, i: nat)
    requires i < Pow2(n)
    ensures OrderedRow(n, Pow2(n) - 1 - i) == Negate(OrderedRow(n, i))
  {
    var row := OrderedRow(n, i);
    SmallMod(i, Pow2(n));
    RowNumberOfRow(n, i);
    RowNumberNegate(row);
    RowOfRowNumber(Negate(row));
  }

  /** So row `i` of script2.js is row 2^n - 1 - i of script.js. */
  lemma BitRowMirrors(n: nat, i: nat)
    requires n <= 32 && i < Pow2(n)
    ensures BitRow(n, i) == OrderedRow(n, Pow2(n) - 1 - i)
  {
    BitRowNegates(n, i);
    OrderedRowMirror(n, i);
  }

  /** Row 0 is all false and the last row is all true. */
  lemma BitRowEnds(n: nat)
    requires n <= 32
    ensures forall j :: 0 <= j < n ==> !BitRow(n, 0)[j]
    ensures var last := BitRow(n, Pow2(n) - 1); forall j :: 0 <= j < n ==> last[j]
  {
    BitRowNegates(n, 0);
    BitRowNegates(n, Pow2(n) - 1);
    FirstRowAllTrue(n);
    LastRowAllFalse(n);
  }

  /** Every assignment of up to 32 truth values is a row: the one whose
      index is the row number of the flipped assignment. */
  lemma BitRowsComplete(row: seq<bool>)
    requires |row| <= 32
    ensures BitRow(|row|, RowNumber(Negate(row))) == row
  {
    var n := |row|;
    var c := Negate(row);
    var i := RowNumber(c);
    RowOfRowNumber(c);
    BitRowNegates(n, i);
    var b := BitRow(n, i);
    forall j | 0 <= j < n
      ensures b[j] == row[j]
    {
      assert b[j] == !OrderedRow(n, i)[j];
      assert OrderedRow(n, i)[j] == c[j];
    }
    assert b == row;
  }

  /** One row object: the variables' values and the `RESULT` entry. */
  datatype Row = Row(context: map<string, bool>, result: bool)

  function RowContext(vars: seq<string>, i: nat): (ctx: map<string, bool>)
    ensures forall v :: v in ctx <==> v in vars
  {
    Context(vars, BitRow(|vars|, i))
  }

  /** The first `k` rows; the first row whose evaluation throws ends the
      table with that error. */
  function Rows(expr: string, vars: seq<string>, k: nat): (r: Result<seq<Row>, string>)
    ensures r.Ok? ==> |r.value| == k && forall i :: 0 <= i < k ==>
      && r.value[i].context == RowContext(vars, i)
      && EvaluateLogicalExpression(expr, RowContext(vars, i)) == Ok(r.value[i].result)
    ensures r.Err? ==> exists i :: 0 <= i < k && EvaluateLogicalExpression(expr, RowContext(vars, i)) == Err(r.error)
  {
    if k == 0 then Ok([])
    else
      var front :- Rows(expr, vars, k - 1);
      var ctx := RowContext(vars, k - 1);
      var v :- EvaluateLogicalExpression(expr, ctx);
      Ok(front + [Row(ctx, v)])
  }

  /** `generateTruthTable` of script2.js:110-125. */
  function GenerateTruthTable(expr: string, vars: seq<string>): Result<seq<Row>, string>
  {
    Rows(expr, vars, Pow2(|vars|))
  }

  /** With every atom declared no row throws; with one undeclared the
      first row already does. */
  lemma {:induction false} RowsOfPrinted(e: Expr, vars: seq<string>, k: nat)
    requires Printable(e)
    ensures AtomsIn(e, vars) ==> Rows(Print(e), vars, k).Ok?
    ensures !AtomsIn(e, vars) && k > 0 ==> Rows(Print(e), vars, k).Err?
    decreases k
  {
    if k > 0 {
      RowsOfPrinted(e, vars, k - 1);
      var ctx := RowContext(vars, k - 1);
      BoundAtoms(e, vars, ctx);
      EvaluatesPrinted(e, ctx);
    }
  }

  /** For a printed expression over the declared variables the table has
      one row per assignment, holding the value of the expression; with an
      undeclared variable it fails, naming one. */
  lemma TableOfPrinted(e: Expr, vars: seq<string>)
    requires Printable(e)
    ensures var r := GenerateTruthTable(Print(e), vars);
      && (AtomsIn(e, vars) ==>
            && r.Ok? && |r.value| == Pow2(|vars|)
            && forall i :: 0 <= i < |r.value| ==>
                 var ctx := RowContext(vars, i); Bound(e, ctx) && r.value[i].result == Eval(e, ctx))
      && (!AtomsIn(e, vars) ==> r.Err? && r.error !in vars)
  {
    var r := GenerateTruthTable(Print(e), vars);
    RowsOfPrinted(e, vars, Pow2(|vars|));
    if r.Ok? {
      forall i | 0 <= i < |r.value|
        ensures var ctx := RowContext(vars, i); Bound(e, ctx) && r.value[i].result == Eval(e, ctx)
      {
        RowOfPrinted(e, vars, i);
      }
    } else {
      var i :| 0 <= i < Pow2(|vars|) && EvaluateLogicalExpression(Print(e), RowContext(vars, i)) == Err(r.error);
      EvaluatesPrinted(e, RowContext(vars, i));
    }
  }

  lemma RowOfPrinted(e: Expr, vars: seq<string>, i: nat)
    requires Printable(e) && AtomsIn(e, vars)
    ensures var ctx := RowContext(vars, i);
      Bound(e, ctx) && EvaluateLogicalExpression(Print(e), ctx) == Ok(Eval(e, ctx))
  {
    BoundAtoms(e, vars, RowContext(vars, i));
    EvaluatesPrinted(e, RowContext(vars, i));
  }

  /** A context over exactly the declared names binds every atom exactly
      when every atom is declared. */
  lemma {:induction false} BoundAtoms(e: Expr, vars: seq<string>, ctx: map<string, bool>)
    requires forall v :: v in ctx <==> v in vars
    ensures Bound(e, ctx) <==> AtomsIn(e, vars)
    decreases e
  {
    match e
    case Atom(n) =>
    case Not(x) =>
      BoundAtoms(x, vars, ctx);
    case Binary(_, l, r) =>
      BoundAtoms(l, vars, ctx);
      BoundAtoms(r, vars, ctx);
  }

  /** The three verdicts of `checkLogicType`. */
  datatype LogicType = Tautology | Contradiction | Contingency

  /** `checkLogicType`: all true, else all false, else neither. */
  function CheckLogicType(results: seq<bool>): (t: LogicType)
    ensures t == Tautology <==> forall i :: 0 <= i < |results| ==> results[i]
    ensures t == Contradiction <==>
      (exists i :: 0 <= i < |results| && !results[i]) && forall i :: 0 <= i < |results| ==> !results[i]
    ensures t == Contingency <==>
      (exists i :: 0 <= i < |results| && results[i]) && exists i :: 0 <= i < |results| && !results[i]
  {
    if forall i :: 0 <= i < |results| ==> results[i] then Tautology
    else if forall i :: 0 <= i < |results| ==> !results[i] then Contradiction
    else Contingency
  }

  function Results(rows: seq<Row>): (r: seq<bool>)
    ensures |r| == |rows| && forall i :: 0 <= i < |rows| ==> r[i] == rows[i].result
  {
    seq(|rows|, i requires 0 <= i < |rows| => rows[i].result)
  }

  /** A printed expression over at most 32 declared variables is called a
      tautology exactly when it is true under every assignment. */
  lemma TautologyOfPrinted(e: Expr, vars: seq<string>)
    requires Printable(e) && AtomsIn(e, vars) && |vars| <= 32
    ensures var r := GenerateTruthTable(Print(e), vars);
      && r.Ok?
      && (CheckLogicType(Results(r.value)) == Tautology <==>
            forall row: seq<bool> :: |row| == |vars| ==>
              Bound(e, Context(vars, row)) && Eval(e, Context(vars, row)))
  {
    TableOfPrinted(e, vars);
    var r := GenerateTruthTable(Print(e), vars);
    var n := |vars|;
    forall row: seq<bool> | |row| == n
      ensures Bound(e, Context(vars, row))
      ensures CheckLogicType(Results(r.value)) == Tautology ==> Eval(e, Context(vars, row))
    {
      BoundAtoms(e, vars, Context(vars, row));
      AssignmentIsRow(e, vars, row);
    }
  }

  /** The row of an assignment holds the expression's value under it. */
  lemma AssignmentIsRow(e: Expr, vars: seq<string>, row: seq<bool>)
    requires Printable(e) && AtomsIn(e, vars) && |vars| <= 32 && |row| == |vars|
    ensures var r := GenerateTruthTable(Print(e), vars);
      && r.Ok?
      && Bound(e, Context(vars, row))
      && exists i :: 0 <= i < |r.value| && r.value[i].result == Eval(e, Context(vars, row))
  {
    TableOfPrinted(e, vars);
    var r := GenerateTruthTable(Print(e), vars);
    BitRowsComplete(row);
    var i := RowNumber(Negate(row));
    assert RowContext(vars, i) == Context(vars, row);
    assert r.value[i].result == Eval(e, Context(vars, row));
  }
}
