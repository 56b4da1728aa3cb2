/** `generateTruthTable` and `parseExpression` of script.js: the input
    guards (script.js:26-43), the validation of the parsed tokens
    (script.js:166-201) and the table of results (script.js:47-95, its
    values without the HTML). */
module TruthTable {

  import opened Basics
  import opened Operators
  import opened Tokenizer
  import opened ShuntingYard
  import opened StackEvaluator
  import opened Combinations
  import opened Parens
  import opened SubExpressions

  /** `MAX_VARIABLES` (script.js:2). */
  const MaxVariables: nat := 6

  /** The errors `generateTruthTable` throws, in the order it checks for
      them. */
  datatype TableError =
    | NoVariables
    | TooManyVariables
    | EmptyExpression
    | Unbalanced
    | InvalidExpression

  /** The guards of script.js:26-43; on success the expression with its
      braces replaced. */
  function CheckInputs(vars: seq<string>, expr: string): (r: Result<string, TableError>)
    ensures r == Err(NoVariables) <==> |vars| == 0
    ensures r == Err(TooManyVariables) <==> |vars| > MaxVariables
    ensures r == Err(EmptyExpression) <==> 0 < |vars| <= MaxVariables && expr == []
    ensures r == Err(Unbalanced) <==>
      0 < |vars| <= MaxVariables && expr != [] && !WellNested(expr)
    ensures r.Ok? <==> 0 < |vars| <= MaxVariables && expr != [] && WellNested(expr)
    ensures r.Ok? ==> r.value == ReplaceBraces(expr) && WellNested(r.value)
    ensures r != Err(InvalidExpression)
  {
    BalanceReplaceBraces(expr);
    ParenthesesBalancedIff(expr);
    ParenthesesBalancedIff(ReplaceBraces(expr));
    if |vars| == 0 then Err(NoVariables)
    else if |vars| > MaxVariables then Err(TooManyVariables)
    else if expr == [] then Err(EmptyExpression)
    else
      var e := ReplaceBraces(expr);
      if !AreParenthesesBalanced(e) then Err(Unbalanced) else Ok(e)
  }

  /** The variable token names of `ts` that are not declared. */
  predicate Declared(ts: seq<Token>, vars: seq<string>)
  {
    forall i :: 0 <= i < |ts| && ts[i].Var? ==> ts[i].name in vars
  }

  /** The check of script.js:172-178: the first token that is neither an
      operator nor a parenthesis and is not a declared variable. */
  function FirstUndeclared(ts: seq<Token>, vars: seq<string>): (r: Option<string>)
    ensures r.None? <==> Declared(ts, vars)
    ensures r.Some? ==>
      && r.value !in vars
      && exists i :: 0 <= i < |ts| && ts[i] == Var(r.value) && Declared(ts[..i], vars)
  {
    if |ts| == 0 then None
    else
      var rest := FirstUndeclared(ts[1..], vars);
      assert forall i :: 1 <= i < |ts| ==> ts[i] == ts[1..][i - 1];
      if ts[0].Var? && ts[0].name !in vars then
        assert ts[..0] == [];
        Some(ts[0].name)
      else
        assert rest.Some? ==> exists i :: 0 <= i < |ts| && ts[i] == Var(rest.value) && Declared(ts[..i], vars) by {
          if rest.Some? {
            var i :| 0 <= i < |ts[1..]| && ts[1..][i] == Var(rest.value) && Declared(ts[1..][..i], vars);
            assert ts[..i + 1] == [ts[0]] + ts[1..][..i];
            assert ts[i + 1] == Var(rest.value);
          }
        }
        rest
  }

  /** Only the variable tokens matter to the check. */
  lemma {:induction false} FirstUndeclaredVars(ts: seq<Token>, vars: seq<string>)
    ensures FirstUndeclared(Vars(ts), vars) == FirstUndeclared(ts, vars)
    decreases |ts|
  {
    if |ts| > 0 {
      FirstUndeclaredVars(ts[1..], vars);
      if ts[0].Var? {
        assert ([ts[0]] + Vars(ts[1..]))[1..] == Vars(ts[1..]);
      }
    }
  }

  /** A successful `parseExpression`: the display columns and the
      expression itself. */
  datatype Parsed = Parsed(subExpressions: seq<string>, finalExpression: string)

  /** `parseExpression` (script.js:166-201); `Err` carries the name the
      thrown "Variable no declarada" error reports. */
  function ParseExpression(expr: string, vars: seq<string>): (r: Result<Parsed, string>)
    ensures r.Err? <==> !Declared(Tokenize(expr), vars)
    ensures r.Err? ==> r == Err(FirstUndeclared(Tokenize(expr), vars).value)
    ensures r.Ok? ==> r.value == Parsed(Columns(expr, vars), expr)
  {
    var ts := Tokenize(expr);
    var out := Shunt(ts);
    FirstUndeclaredVars(ts, vars);
    FirstUndeclaredVars(out, vars);
    match FirstUndeclared(out, vars)
    case Some(n) => Err(n)
    case None => Ok(Parsed(Columns(expr, vars), expr))
  }

  /** One body row: the assignment, the value of each display column and
      the value of the whole expression. `None` stands for the runs on
      which the original computes with `undefined`. */
  datatype TableRow = TableRow(values: seq<bool>, steps: seq<Option<bool>>, result: Option<bool>)

  /** The table: header columns and body rows. */
  datatype Table = Table(variables: seq<string>, columns: seq<string>, expression: string, rows: seq<TableRow>)

  function RowOf(vars: seq<string>, p: Parsed, values: seq<bool>): TableRow
    requires |values| == |vars|
  {
    var ctx := Context(vars, values);
    TableRow(
      values,
      seq(|p.subExpressions|, k requires 0 <= k < |p.subExpressions| =>
        EvaluateParsedExpression(p.subExpressions[k], ctx)),
      EvaluateParsedExpression(p.finalExpression, ctx))
  }

  /** `generateTruthTable` without the page: guards, then the rows, then the
      parse, then one body row per assignment in the order of
      `generateOrderedCombinations`. */
  function GenerateTruthTable(vars: seq<string>, expr: string): (r: Result<Table, TableError>)
    ensures r.Err? && r.error != InvalidExpression ==> CheckInputs(vars, expr) == Err(r.error)
    ensures r == Err(InvalidExpression) <==>
      CheckInputs(vars, expr).Ok? && !Declared(Tokenize(ReplaceBraces(expr)), vars)
    ensures r.Ok? ==>
      var e := ReplaceBraces(expr);
      var t := r.value;
      && CheckInputs(vars, expr).Ok?
      && t.variables == vars
      && t.expression == e
      && t.columns == Columns(e, vars)
      && |t.rows| == Pow2(|vars|)
      && forall k :: 0 <= k < |t.rows| ==>
           && t.rows[k].values == OrderedRow(|vars|, k)
           && |t.rows[k].steps| == |t.columns|
           && (forall j :: 0 <= j < |t.columns| ==>
                 t.rows[k].steps[j] == EvaluateParsedExpression(t.columns[j], Context(vars, OrderedRow(|vars|, k))))
           && t.rows[k].result == EvaluateParsedExpression(e, Context(vars, OrderedRow(|vars|, k)))
  {
    var e :- CheckInputs(vars, expr);
    var rows := OrderedCombinations(|vars|);
    var p := ParseExpression(e, vars);
    if p.Err? then Err(InvalidExpression)
    else Ok(Table(vars, p.value.subExpressions, p.value.finalExpression, Body(vars, p.value, rows)))
  }

  /** One body row per assignment, in order. */
  function Body(vars: seq<string>, p: Parsed, rows: seq<seq<bool>>): (body: seq<TableRow>)
    requires forall k :: 0 <= k < |rows| ==> |rows[k]| == |vars|
    ensures |body| == |rows|
    ensures forall k :: 0 <= k < |rows| ==> body[k] == RowOf(vars, p, rows[k])
  {
    seq(|rows|, k requires 0 <= k < |rows| => RowOf(vars, p, rows[k]))
  }
}
