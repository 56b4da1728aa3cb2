/** The script.js table end to end: for an expression over declared
    variables, written fully parenthesised or with the fewest parentheses
    the operator table allows, every guard passes and every body row holds
    the value of the expression under that row's assignment. */
module TableCorrect {

  import opened Basics
  import opened Operators
  import opened Tokenizer
  import opened StackEvaluator
  import opened Combinations
  import opened Parens
  import opened ShuntingCorrect
  import opened ShuntingMin
  import opened TruthTable

  /** No character changes the balance. */
  predicate Plain(s: string)
  {
    forall i :: 0 <= i < |s| ==> Delta(s[i]) == 0
  }

  lemma {:induction false} DepthAppend(a: string, b: string)
    ensures Depth(a + b) == Depth(a) + Depth(b)
    decreases |b|
  {
    if |b| == 0 {
      assert a + b == a;
    } else {
      var n := |b| - 1;
      assert (a + b)[..|a + b| - 1] == a + b[..n];
      DepthAppend(a, b[..n]);
    }
  }

  lemma {:induction false} PlainDepth(s: string)
    requires Plain(s)
    ensures Depth(s) == 0
    decreases |s|
  {
    if |s| > 0 {
      PlainDepth(s[..|s| - 1]);
    }
  }

  lemma PlainNested(s: string)
    requires Plain(s)
    ensures WellNested(s)
  {
    forall k | 0 <= k <= |s|
      ensures Depth(s[..k]) >= 0
    {
      PlainDepth(s[..k]);
    }
    PlainDepth(s);
  }

  lemma NestedAppend(a: string, b: string)
    requires WellNested(a) && WellNested(b)
    ensures WellNested(a + b)
  {
    var s := a + b;
    forall k | 0 <= k <= |s|
      ensures Depth(s[..k]) >= 0
    {
      if k <= |a| {
        assert s[..k] == a[..k];
      } else {
        assert s[..k] == a + b[..k - |a|];
        DepthAppend(a, b[..k - |a|]);
      }
    }
    DepthAppend(a, b);
  }

  lemma NestedWrap(a: string)
    requires WellNested(a)
    ensures WellNested("(" + a + ")")
  {
    var s := "(" + a + ")";
    assert Depth("(") == 1 by {
      assert "("[..0] == [];
    }
    assert Depth(")") == -1 by {
      assert ")"[..0] == [];
    }
    forall k | 0 <= k <= |s|
      ensures Depth(s[..k]) >= 0
    {
      if k == 0 {
        assert s[..k] == [];
      } else if k <= |a| + 1 {
        assert s[..k] == "(" + a[..k - 1];
        DepthAppend("(", a[..k - 1]);
      } else {
        assert s[..k] == s;
        DepthAppend("(" + a, ")");
        DepthAppend("(", a);
        assert a[..|a|] == a;
      }
    }
    DepthAppend("(" + a, ")");
    DepthAppend("(", a);
  }

  /** Renderings balance their parentheses. */
  lemma {:induction false} RenderNested(e: Expr)
    requires Named(e)
    ensures WellNested(Render(e))
    decreases e
  {
    match e
    case Atom(n) =>
      PlainNested(n);
    case Not(x) =>
      RenderNested(x);
      NotNested(x);
    case Binary(c, l, r) =>
      RenderNested(l);
      RenderNested(r);
      BinaryNested(c, l, r);
  }

  lemma NotNested(x: Expr)
    requires WellNested(Render(x))
    ensures WellNested(Render(Not(x)))
  {
    var m := [Symbol(Neg)] + Render(x);
    PlainNested([Symbol(Neg)]);
    NestedAppend([Symbol(Neg)], Render(x));
    NestedWrap(m);
    assert Render(Not(x)) == "(" + m + ")";
  }

  lemma BinaryNested(c: Connective, l: Expr, r: Expr)
    requires WellNested(Render(l)) && WellNested(Render(r))
    ensures WellNested(Render(Binary(c, l, r)))
  {
    var op := [ConnectiveSymbol(c)];
    PlainNested(op);
    WrapThree(Render(l), op, Render(r));
  }

  /** Three balanced texts side by side, in parentheses. */
  lemma WrapThree(a: string, op: string, b: string)
    requires WellNested(a) && WellNested(op) && WellNested(b)
    ensures WellNested("(" + a + op + b + ")")
  {
    NestedAppend(a, op);
    NestedAppend(a + op, b);
    NestedWrap(a + op + b);
    assert "(" + a + op + b + ")" == "(" + (a + op + b) + ")";
  }

  /** Renderings hold no braces. */
  lemma {:induction false} RenderNoBraces(e: Expr)
    requires Named(e)
    ensures forall i :: 0 <= i < |Render(e)| ==> Render(e)[i] != '{' && Render(e)[i] != '}'
    decreases e
  {
    match e
    case Atom(n) =>
    case Not(x) =>
      RenderNoBraces(x);
    case Binary(c, l, r) =>
      RenderNoBraces(l);
      RenderNoBraces(r);
  }

  lemma RenderNotEmpty(e: Expr)
    requires Named(e)
    ensures |Render(e)| > 0
  {
  }

  lemma {:induction false} RenderTokensDeclared(e: Expr, vars: seq<string>)
    requires AtomsIn(e, vars)
    ensures Declared(RenderTokens(e), vars)
    decreases e
  {
    match e
    case Atom(n) =>
    case Not(x) =>
      RenderTokensDeclared(x, vars);
    case Binary(c, l, r) =>
      RenderTokensDeclared(l, vars);
      RenderTokensDeclared(r, vars);
  }

  lemma {:induction false} AtomsBound(e: Expr, vars: seq<string>, row: seq<bool>)
    requires |row| == |vars| && AtomsIn(e, vars)
    ensures Bound(e, Context(vars, row))
    decreases e
  {
    match e
    case Atom(n) =>
    case Not(x) =>
      AtomsBound(x, vars, row);
    case Binary(c, l, r) =>
      AtomsBound(l, vars, row);
      AtomsBound(r, vars, row);
  }

  /** A fully parenthesised expression over the declared variables passes
      the guards unchanged and parses. */
  lemma RenderedParses(vars: seq<string>, e: Expr)
    requires 0 < |vars| <= MaxVariables
    requires Named(e) && AtomsIn(e, vars)
    ensures CheckInputs(vars, Render(e)) == Ok(Render(e))
    ensures ParseExpression(Render(e), vars).Ok?
  {
    var s := Render(e);
    RenderNested(e);
    RenderNoBraces(e);
    RenderNotEmpty(e);
    assert ReplaceBraces(s) == s;
    TokenizeRendered(e, []);
    assert s + [] == s;
    assert RenderTokens(e) + [] == RenderTokens(e);
    RenderTokensDeclared(e, vars);
  }

  /** With one to six variables and a fully parenthesised expression over
      them, the table is built and row `k` holds the value of the
      expression under assignment `k`. */
  lemma TableOfRendered(vars: seq<string>, e: Expr)
    requires 0 < |vars| <= MaxVariables
    requires Named(e) && AtomsIn(e, vars)
    ensures var r := GenerateTruthTable(vars, Render(e));
      && r.Ok?
      && |r.value.rows| == Pow2(|vars|)
      && forall k :: 0 <= k < |r.value.rows| ==>
           var ctx := Context(vars, OrderedRow(|vars|, k));
           Bound(e, ctx) && r.value.rows[k].result == Some(Eval(e, ctx))
  {
    RenderedParses(vars, e);
    var r := GenerateTruthTable(vars, Render(e));
    forall k | 0 <= k < |r.value.rows|
      ensures var ctx := Context(vars, OrderedRow(|vars|, k));
        Bound(e, ctx) && r.value.rows[k].result == Some(Eval(e, ctx))
    {
      var ctx := Context(vars, OrderedRow(|vars|, k));
      AtomsBound(e, vars, OrderedRow(|vars|, k));
      EvaluatesRendered(e, ctx);
    }
  }

  // ---------------------------------------------------------------------
  // The same for the text with the fewest parentheses.

  lemma WrapNested(b: bool, a: string)
    requires WellNested(a)
    ensures WellNested(WrapText(b, a))
  {
    if b {
      NestedWrap(a);
    }
  }

  lemma {:induction false} MinNested(e: Expr)
    requires Named(e)
    ensures WellNested(RenderMin(e))
    decreases e
  {
    match e
    case Atom(n) =>
      PlainNested(n);
    case Not(x) =>
      MinNested(x);
      WrapNested(x.Binary?, RenderMin(x));
      PlainNested([Symbol(Neg)]);
      NestedAppend([Symbol(Neg)], WrapText(x.Binary?, RenderMin(x)));
    case Binary(c, l, r) =>
      MinNested(l);
      MinNested(r);
      MinBinaryNested(c, l, r);
  }

  lemma MinBinaryNested(c: Connective, l: Expr, r: Expr)
    requires WellNested(RenderMin(l)) && WellNested(RenderMin(r))
    ensures WellNested(RenderMin(Binary(c, l, r)))
  {
    PlainNested([ConnectiveSymbol(c)]);
    JoinWrapped(WrapLeft(c, l), RenderMin(l), [ConnectiveSymbol(c)], WrapRight(c, r), RenderMin(r));
  }

  lemma JoinWrapped(bl: bool, a: string, op: string, br: bool, b: string)
    requires WellNested(a) && WellNested(op) && WellNested(b)
    ensures WellNested(WrapText(bl, a) + op + WrapText(br, b))
  {
    WrapNested(bl, a);
    WrapNested(br, b);
    NestedThree(WrapText(bl, a), op, WrapText(br, b));
  }

  lemma NestedThree(a: string, op: string, b: string)
    requires WellNested(a) && WellNested(op) && WellNested(b)
    ensures WellNested(a + op + b)
  {
    NestedAppend(a, op);
    NestedAppend(a + op, b);
  }

  predicate NoBraces(s: string)
  {
    forall i :: 0 <= i < |s| ==> s[i] != '{' && s[i] != '}'
  }

  lemma NoBracesJoin(a: string, b: string)
    requires NoBraces(a) && NoBraces(b)
    ensures NoBraces(a + b)
  {
    assert forall i :: |a| <= i < |a + b| ==> (a + b)[i] == b[i - |a|];
  }

  lemma NoBracesWrap(w: bool, a: string)
    requires NoBraces(a)
    ensures NoBraces(WrapText(w, a))
  {
    if w {
      NoBracesJoin("(", a);
      NoBracesJoin("(" + a, ")");
    }
  }

  lemma {:induction false} MinNoBraces(e: Expr)
    requires Named(e)
    ensures NoBraces(RenderMin(e))
    decreases e
  {
    match e
    case Atom(n) =>
    case Not(x) =>
      MinNoBraces(x);
      NoBracesWrap(x.Binary?, RenderMin(x));
      NoBracesJoin([Symbol(Neg)], WrapText(x.Binary?, RenderMin(x)));
    case Binary(c, l, r) =>
      MinNoBraces(l);
      MinNoBraces(r);
      var a := WrapText(WrapLeft(c, l), RenderMin(l));
      var b := WrapText(WrapRight(c, r), RenderMin(r));
      NoBracesWrap(WrapLeft(c, l), RenderMin(l));
      NoBracesWrap(WrapRight(c, r), RenderMin(r));
      NoBracesJoin(a, [ConnectiveSymbol(c)]);
      NoBracesJoin(a + [ConnectiveSymbol(c)], b);
      assert RenderMin(e) == a + [ConnectiveSymbol(c)] + b;
  }

  lemma DeclaredJoin(a: seq<Token>, b: seq<Token>, vars: seq<string>)
    requires Declared(a, vars) && Declared(b, vars)
    ensures Declared(a + b, vars)
  {
    assert forall i :: |a| <= i < |a + b| ==> (a + b)[i] == b[i - |a|];
  }

  lemma DeclaredWrap(w: bool, a: seq<Token>, vars: seq<string>)
    requires Declared(a, vars)
    ensures Declared(Wrap(w, a), vars)
  {
    if w {
      DeclaredJoin([LParen], a, vars);
      DeclaredJoin([LParen] + a, [RParen], vars);
    }
  }

  lemma {:induction false} MinTokensDeclared(e: Expr, vars: seq<string>)
    requires AtomsIn(e, vars)
    ensures Declared(MinTokens(e), vars)
    decreases e
  {
    match e
    case Atom(n) =>
    case Not(x) =>
      MinTokensDeclared(x, vars);
      DeclaredWrap(x.Binary?, MinTokens(x), vars);
      DeclaredJoin([Operator(Neg)], Wrap(x.Binary?, MinTokens(x)), vars);
    case Binary(c, l, r) =>
      MinTokensDeclared(l, vars);
      MinTokensDeclared(r, vars);
      var a := Wrap(WrapLeft(c, l), MinTokens(l));
      var b := Wrap(WrapRight(c, r), MinTokens(r));
      DeclaredWrap(WrapLeft(c, l), MinTokens(l), vars);
      DeclaredWrap(WrapRight(c, r), MinTokens(r), vars);
      DeclaredJoin(a, [Operator(Bin(c))], vars);
      DeclaredJoin(a + [Operator(Bin(c))], b, vars);
      assert MinTokens(e) == a + [Operator(Bin(c))] + b;
  }

  /** An expression over the declared variables, written with the fewest
      parentheses, passes the guards unchanged and parses. */
  lemma MinParses(vars: seq<string>, e: Expr)
    requires 0 < |vars| <= MaxVariables
    requires Named(e) && AtomsIn(e, vars)
    ensures CheckInputs(vars, RenderMin(e)) == Ok(RenderMin(e))
    ensures ParseExpression(RenderMin(e), vars).Ok?
  {
    var s := RenderMin(e);
    MinNested(e);
    MinNoBraces(e);
    assert |s| > 0 by {
      MinTokensDeclared(e, vars);
      TokenizeMin(e);
      assert |Tokenize(s)| > 0 ==> |s| > 0;
    }
    assert ReplaceBraces(s) == s;
    TokenizeMin(e);
    MinTokensDeclared(e, vars);
  }

  /** With one to six variables and an expression over them written with
      the fewest parentheses, the table is built and row `k` holds the
      value of the expression under assignment `k`: precedence and
      grouping decide the value the way the operator table says. */
  lemma TableOfMin(vars: seq<string>, e: Expr)
    requires 0 < |vars| <= MaxVariables
    requires Named(e) && AtomsIn(e, vars)
    ensures var r := GenerateTruthTable(vars, RenderMin(e));
      && r.Ok?
      && |r.value.rows| == Pow2(|vars|)
      && forall k :: 0 <= k < |r.value.rows| ==>
           var ctx := Context(vars, OrderedRow(|vars|, k));
           Bound(e, ctx) && r.value.rows[k].result == Some(Eval(e, ctx))
  {
    MinParses(vars, e);
    var r := GenerateTruthTable(vars, RenderMin(e));
    forall k | 0 <= k < |r.value.rows|
      ensures var ctx := Context(vars, OrderedRow(|vars|, k));
        Bound(e, ctx) && r.value.rows[k].result == Some(Eval(e, ctx))
    {
      var ctx := Context(vars, OrderedRow(|vars|, k));
      AtomsBound(e, vars, OrderedRow(|vars|, k));
      EvaluatesMin(e, ctx);
    }
  }
}
