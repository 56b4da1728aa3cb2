/** A printer that writes an expression with as few parentheses as the
    script2.js evaluator needs, and the proof that the evaluator reads the
    text back as the same tree: ¬ binds tightest, then ∧, ∨, →, ↔, and a
    chain of one connective groups to the right. */
module Printer {

  import opened Basics
  import opened Operators
  import opened SplitEvaluator

  /** Characters that would change how the evaluator splits a name. */
  predicate Special(c: char)
  {
    c == '(' || c == ')' || c == '¬' || c == '↔' || c == '→' || c == '∨' || c == '∧' || IsSpace(c)
  }

  /** A variable the evaluator reads as one atom. */
  predicate PlainName(n: string)
  {
    |n| > 0 && forall i :: 0 <= i < |n| ==> !Special(n[i])
  }

  /** Trees over plain names with the connectives script2.js knows. */
  predicate Printable(e: Expr)
  {
    match e
    case Atom(n) => PlainName(n)
    case Not(x) => Printable(x)
    case Binary(c, l, r) => c != Xor && Printable(l) && Printable(r)
  }

  /** How tightly the top of `e` binds. */
  function ExprLevel(e: Expr): nat
  {
    match e
    case Atom(_) => 5
    case Not(_) => 4
    case Binary(c, _, _) => Level(c)
  }

  /** `e` in a place that needs binding level `k`: wrapped when its top
      binds more loosely. */
  function PrintAt(e: Expr, k: nat): string
    decreases e, 1
  {
    if ExprLevel(e) < k then "(" + Print(e) + ")" else Print(e)
  }

  /** The operand of ¬ must bind at least like ¬; the left operand of a
      connective must bind tighter than it, the right one at least as
      tightly. */
  function Print(e: Expr): string
    decreases e, 0
  {
    match e
    case Atom(n) => n
    case Not(x) => "¬" + PrintAt(x, 4)
    case Binary(c, l, r) => PrintAt(l, Level(c) + 1) + [ConnectiveSymbol(c)] + PrintAt(r, Level(c))
  }

  lemma {:induction false} PrintNotEmpty(e: Expr)
    requires Printable(e)
    ensures |Print(e)| > 0
    decreases e
  {
    match e
    case Atom(n) =>
    case Not(x) =>
    case Binary(c, l, r) =>
      PrintNotEmpty(l);
  }

  lemma NameNoParens(n: string)
    requires PlainName(n)
    ensures NoParens(n)
  {
    assert forall i :: 0 <= i < |n| ==> !Special(n[i]);
  }

  lemma {:induction false} PrintNested(e: Expr)
    requires Printable(e)
    ensures Nested(Print(e))
    decreases e, 0
  {
    match e
    case Atom(n) =>
      NameNoParens(n);
      NoParensNested(n);
    case Not(x) =>
      PrintAtNested(x, 4);
      NoParensNested("¬");
      NestedConcat("¬", PrintAt(x, 4));
    case Binary(c, l, r) =>
      var a, b := PrintAt(l, Level(c) + 1), PrintAt(r, Level(c));
      PrintAtNested(l, Level(c) + 1);
      PrintAtNested(r, Level(c));
      NoParensNested([ConnectiveSymbol(c)]);
      NestedConcat(a, [ConnectiveSymbol(c)]);
      NestedConcat(a + [ConnectiveSymbol(c)], b);
  }

  lemma {:induction false} PrintAtNested(e: Expr, k: nat)
    requires Printable(e)
    ensures Nested(PrintAt(e, k))
    decreases e, 1
  {
    PrintNested(e);
    if ExprLevel(e) < k {
      NestedWrap(Print(e));
    }
  }

  /** Connectives outside every parenthesis of `a + [o] + b`: those of
      `a`, `o` itself, and those of `b`. */
  lemma TopConcat(a: string, o: char, b: string, j: nat, c: Connective)
    requires Nested(a) && ParenDelta(o) == 0
    ensures TopAt(a + [o] + b, j, c) <==>
      || (j < |a| && TopAt(a, j, c))
      || (j == |a| && o == ConnectiveSymbol(c))
      || (|a| < j && TopAt(b, j - |a| - 1, c))
  {
    var w := a + [o] + b;
    if j < |w| {
      assert w == a + ([o] + b);
      DepthPrefix(a, [o] + b, j);
      if |a| < j {
        DepthPrefix([o], b, j - |a|);
        assert [o][..1] == [o] && [o][..0] == [];
        ParenDepthStep([o], 0);
        assert ([o] + b)[..j - |a|] == [o] + b[..j - |a| - 1];
        assert w[j] == b[j - |a| - 1];
      } else if j == |a| {
        assert a[..|a|] == a;
      } else {
        assert w[j] == a[j];
      }
    }
  }

  /** Nothing inside a wrapping pair is outside every parenthesis. */
  lemma TopWrap(a: string, j: nat, c: Connective)
    requires Nested(a)
    ensures !TopAt("(" + a + ")", j, c)
  {
    var w := "(" + a + ")";
    if 0 < j <= |a| {
      WrapDepth(a, j);
      assert ParenDepth(a[..j - 1]) >= 0;
    } else if j == 0 {
      assert w[0] == '(';
    } else if j == |a| + 1 {
      assert w[j] == ')';
    }
  }

  lemma TopNeg(a: string, j: nat, c: Connective)
    ensures TopAt("¬" + a, j, c) <==> 0 < j && TopAt(a, j - 1, c)
  {
    if 0 < j <= |a| {
      DepthPrefix("¬", a, j);
      NoParensDepth("¬");
      assert ("¬" + a)[j] == a[j - 1];
    }
  }

  lemma TopName(n: string, j: nat, c: Connective)
    requires PlainName(n) && c != Xor
    ensures !TopAt(n, j, c)
  {
    if j < |n| {
      assert !Special(n[j]);
    }
  }

  /** Every connective outside all parentheses of the printed `e` binds no
      more loosely than the top of `e`. */
  lemma {:induction false} PrintTop(e: Expr, j: nat, c: Connective)
    requires Printable(e) && c != Xor && TopAt(Print(e), j, c)
    ensures Level(c) >= ExprLevel(e)
    decreases e, 0
  {
    match e
    case Atom(n) =>
      TopName(n, j, c);
    case Not(x) =>
      TopNeg(PrintAt(x, 4), j, c);
      PrintAtTop(x, 4, j - 1, c);
    case Binary(c0, l, r) =>
      var a, b := PrintAt(l, Level(c0) + 1), PrintAt(r, Level(c0));
      PrintAtNested(l, Level(c0) + 1);
      TopConcat(a, ConnectiveSymbol(c0), b, j, c);
      if j < |a| {
        PrintAtTop(l, Level(c0) + 1, j, c);
      } else if |a| < j {
        PrintAtTop(r, Level(c0), j - |a| - 1, c);
      }
  }

  lemma {:induction false} PrintAtTop(e: Expr, k: nat, j: nat, c: Connective)
    requires Printable(e) && c != Xor && TopAt(PrintAt(e, k), j, c)
    ensures Level(c) >= k
    decreases e, 1
  {
    if ExprLevel(e) < k {
      PrintNested(e);
      TopWrap(Print(e), j, c);
    } else {
      PrintTop(e, j, c);
    }
  }

  /** The evaluator strips no parenthesis from an unwrapped printing. */
  lemma PrintNotStrippable(e: Expr)
    requires Printable(e)
    ensures !Strippable(Print(e))
  {
    var s := Print(e);
    match e
    case Atom(n) =>
      assert !Special(n[0]);
    case Not(x) =>
    case Binary(c, l, r) =>
      var a := PrintAt(l, Level(c) + 1);
      PrintNotEmpty(l);
      assert |a| > 0 by {
        if ExprLevel(l) >= Level(c) + 1 {
          assert a == Print(l);
        }
      }
      PrintAtNested(l, Level(c) + 1);
      DepthPrefix(a, [ConnectiveSymbol(c)] + PrintAt(r, Level(c)), |a|);
      assert s == a + ([ConnectiveSymbol(c)] + PrintAt(r, Level(c)));
      assert a[..|a|] == a;
      EnclosedIff(s);
  }

  /** Stripping a printing leaves the unwrapped printing. */
  lemma StripPrintAt(e: Expr, k: nat)
    requires Printable(e)
    ensures StripOuter(PrintAt(e, k)) == Print(e)
  {
    var u := Print(e);
    PrintNotStrippable(e);
    PrintNested(e);
    if ExprLevel(e) < k {
      var w := "(" + u + ")";
      forall j | 0 < j < |w|
        ensures ParenDepth(w[..j]) != 0
      {
        WrapDepth(u, j);
      }
      EnclosedIff(w);
      assert w[1..|w| - 1] == u;
    }
  }

  /** The evaluator splits a printed connective at its own symbol; a
      printed atom or negation has no main connective. */
  lemma PrintMainOp(e: Expr)
    requires Printable(e)
    ensures MainOp(Print(e)) ==
      match e
      case Binary(c, l, _) => Some((|PrintAt(l, Level(c) + 1)|, c))
      case _ => None
  {
    var s := Print(e);
    PrintNested(e);
    MainOpBalanced(s);
    match e
    case Atom(n) =>
      if MainOp(s).Some? {
        TopName(n, MainOp(s).value.0, MainOp(s).value.1);
      }
    case Not(x) =>
      if MainOp(s).Some? {
        assert MainOp(s).value.1 != Xor;
        PrintTop(e, MainOp(s).value.0, MainOp(s).value.1);
      }
    case Binary(c, l, r) =>
      var a, b := PrintAt(l, Level(c) + 1), PrintAt(r, Level(c));
      PrintAtNested(l, Level(c) + 1);
      TopConcat(a, ConnectiveSymbol(c), b, |a|, c);
      BinaryMainOp(c, l, r);
  }

  lemma BinaryMainOp(c: Connective, l: Expr, r: Expr)
    requires Printable(Binary(c, l, r))
    ensures MainOp(Print(Binary(c, l, r))) == Some((|PrintAt(l, Level(c) + 1)|, c))
  {
    var e := Binary(c, l, r);
    var s := Print(e);
    var a, b := PrintAt(l, Level(c) + 1), PrintAt(r, Level(c));
    PrintNested(e);
    PrintAtNested(l, Level(c) + 1);
    MainOpBalanced(s);
    TopConcat(a, ConnectiveSymbol(c), b, |a|, c);
    assert MainOp(s).Some?;
    var (i, c') := MainOp(s).value;
    PrintTop(e, i, c');
    assert Level(c') <= Level(c);
    assert c' == c by {
      assert Level(c') == Level(c);
    }
    if i < |a| {
      TopConcat(a, ConnectiveSymbol(c), b, i, c);
      PrintAtTop(l, Level(c) + 1, i, c);
    }
  }

  /** Printing and then splitting gives the tree back. */
  lemma {:induction false} ShapeOfPrint(e: Expr)
    requires Printable(e)
    ensures Shape(Print(e)) == e
    decreases e, 0
  {
    var s := Print(e);
    PrintNotStrippable(e);
    PrintMainOp(e);
    match e
    case Atom(n) =>
    case Not(x) =>
      assert s[1..] == PrintAt(x, 4);
      ShapeOfPrintAt(x, 4);
    case Binary(c, l, r) =>
      var a, b := PrintAt(l, Level(c) + 1), PrintAt(r, Level(c));
      assert s[..|a|] == a && s[|a| + 1..] == b;
      ShapeOfPrintAt(l, Level(c) + 1);
      ShapeOfPrintAt(r, Level(c));
  }

  lemma {:induction false} ShapeOfPrintAt(e: Expr, k: nat)
    requires Printable(e)
    ensures Shape(PrintAt(e, k)) == e
    decreases e, 1
  {
    StripPrintAt(e, k);
    ShapeOfPrint(e);
    ShapeStrip(PrintAt(e, k));
  }

  /** Splitting starts by stripping, so a text and its stripped form have
      the same tree. */
  lemma ShapeStrip(s: string)
    ensures Shape(s) == Shape(StripOuter(s))
  {
    assert StripOuter(StripOuter(s)) == StripOuter(s);
  }

  lemma {:induction false} PrintSpaceFree(e: Expr)
    requires Printable(e)
    ensures SpaceFree(Print(e))
    decreases e, 0
  {
    match e
    case Atom(n) =>
      assert forall i :: 0 <= i < |n| ==> !Special(n[i]);
    case Not(x) =>
      PrintAtSpaceFree(x, 4);
    case Binary(c, l, r) =>
      PrintAtSpaceFree(l, Level(c) + 1);
      PrintAtSpaceFree(r, Level(c));
  }

  lemma {:induction false} PrintAtSpaceFree(e: Expr, k: nat)
    requires Printable(e)
    ensures SpaceFree(PrintAt(e, k))
    decreases e, 1
  {
    PrintSpaceFree(e);
  }

  /** `evaluateLogicalExpression` computes the value of a printed
      expression, or reports its first variable without a value. */
  lemma EvaluatesPrinted(e: Expr, ctx: map<string, bool>)
    requires Printable(e)
    ensures EvaluateLogicalExpression(Print(e), ctx) ==
      if Bound(e, ctx) then Ok(Eval(e, ctx)) else Err(FirstUnbound(e, ctx))
  {
    PrintSpaceFree(e);
    ShapeOfPrint(e);
    EvalStringShape(Print(e), ctx);
  }

  /** `p→q→r` means `p→(q→r)`. */
  lemma GroupsRight()
    ensures Shape("p→q→r") == Binary(Implies, Atom("p"), Binary(Implies, Atom("q"), Atom("r")))
  {
    var e := Binary(Implies, Atom("p"), Binary(Implies, Atom("q"), Atom("r")));
    assert PrintAt(Binary(Implies, Atom("q"), Atom("r")), 1) == "q→r";
    assert PrintAt(Atom("p"), 2) == "p";
    assert Print(e) == "p→q→r";
    ShapeOfPrint(e);
  }

  /** `¬p∧q∨r↔s` means `((¬p∧q)∨r)↔s`. */
  lemma BindsTighter()
    ensures Shape("¬p∧q∨r↔s") ==
      Binary(Iff, Binary(Or, Binary(And, Not(Atom("p")), Atom("q")), Atom("r")), Atom("s"))
  {
    var n := Not(Atom("p"));
    var a := Binary(And, n, Atom("q"));
    var o := Binary(Or, a, Atom("r"));
    var e := Binary(Iff, o, Atom("s"));
    assert PrintAt(n, 4) == "¬p";
    assert PrintAt(a, 3) == "¬p∧q";
    assert PrintAt(o, 1) == "¬p∧q∨r";
    assert Print(e) == "¬p∧q∨r↔s";
    ShapeOfPrint(e);
  }
}
