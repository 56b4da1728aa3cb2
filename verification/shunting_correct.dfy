/** Correctness of the script.js pipeline (tokenizer, shunting-yard pass,
    stack evaluator) on fully parenthesised renderings of an expression
    tree: the postfix the pass produces evaluates to the tree's value. */
module ShuntingCorrect {

  import opened Basics
  import opened Operators
  import opened Tokenizer
  import opened ShuntingYard
  import opened StackEvaluator

  /** Every atom of the tree is a name the tokenizer reads as one token. */
  predicate Named(e: Expr)
  {
    match e
    case Atom(n) => IsName(n)
    case Not(x) => Named(x)
    case Binary(_, l, r) => Named(l) && Named(r)
  }

  /** The fully parenthesised text: `(¬x)` and `(l op r)`. */
  function Render(e: Expr): string
  {
    match e
    case Atom(n) => n
    case Not(x) => "(" + [Symbol(Neg)] + Render(x) + ")"
    case Binary(c, l, r) => "(" + Render(l) + [ConnectiveSymbol(c)] + Render(r) + ")"
  }

  /** The tokens of `Render(e)`. */
  function RenderTokens(e: Expr): seq<Token>
  {
    match e
    case Atom(n) => [Var(n)]
    case Not(x) => [LParen, Operator(Neg)] + RenderTokens(x) + [RParen]
    case Binary(c, l, r) => [LParen] + RenderTokens(l) + [Operator(Bin(c))] + RenderTokens(r) + [RParen]
  }

  /** Operands first, operator last. */
  function PostfixOf(e: Expr): seq<Token>
  {
    match e
    case Atom(n) => [Var(n)]
    case Not(x) => PostfixOf(x) + [Operator(Neg)]
    case Binary(c, l, r) => PostfixOf(l) + PostfixOf(r) + [Operator(Bin(c))]
  }

  lemma {:induction false} ScanAppend(a: seq<Token>, b: seq<Token>, st: State)
    ensures Scan(a + b, st) == Scan(b, Scan(a, st))
    decreases |a|
  {
    if |a| == 0 {
      assert a + b == b;
    } else {
      assert (a + b)[0] == a[0];
      assert (a + b)[1..] == a[1..] + b;
      ScanAppend(a[1..], b, Step(st, a[0]));
    }
  }

  lemma ScanOne(t: Token, st: State)
    ensures Scan([t], st) == Step(st, t)
  {
    assert [t][1..] == [];
  }

  /** Reading a rendered subexpression appends its postfix to the output and
      leaves the stack as it found it, whatever is on the stack. */
  lemma {:induction false} ScanRendered(e: Expr, st: State)
    ensures Scan(RenderTokens(e), st) == State(st.output + PostfixOf(e), st.stack)
    decreases e
  {
    match e
    case Atom(n) =>
      ScanOne(Var(n), st);
    case Not(x) =>
      var s1 := State(st.output, st.stack + [LParen]);
      var s2 := State(st.output, st.stack + [LParen, Operator(Neg)]);
      var s3 := State(st.output + PostfixOf(x), s2.stack);
      ScanOne(LParen, st);
      ScanOne(Operator(Neg), s1);
      ScanRendered(x, s2);
      ScanOne(RParen, s3);
      assert Step(s1, Operator(Neg)) == s2;
      assert Pop(s3.stack) == st.stack + [LParen];
      assert PopToParen(s3) == State(s3.output + [Operator(Neg)], st.stack + [LParen]);
      assert Pop(st.stack + [LParen]) == st.stack;
      assert Step(s3, RParen) == State(st.output + PostfixOf(e), st.stack);
      ScanAppend([LParen], [Operator(Neg)], st);
      ScanAppend([LParen, Operator(Neg)], RenderTokens(x), st);
      ScanAppend([LParen, Operator(Neg)] + RenderTokens(x), [RParen], st);
    case Binary(c, l, r) =>
      var op := Operator(Bin(c));
      var s1 := State(st.output, st.stack + [LParen]);
      var s2 := State(st.output + PostfixOf(l), s1.stack);
      var s3 := State(s2.output, st.stack + [LParen, op]);
      var s4 := State(s2.output + PostfixOf(r), s3.stack);
      ScanOne(LParen, st);
      ScanRendered(l, s1);
      ScanOne(op, s2);
      ScanRendered(r, s3);
      ScanOne(RParen, s4);
      assert Step(s2, op) == s3;
      assert Pop(s4.stack) == st.stack + [LParen];
      assert PopToParen(s4) == State(s4.output + [op], st.stack + [LParen]);
      assert Pop(st.stack + [LParen]) == st.stack;
      assert Step(s4, RParen) == State(st.output + PostfixOf(e), st.stack);
      ScanAppend([LParen], RenderTokens(l), st);
      ScanAppend([LParen] + RenderTokens(l), [op], st);
      ScanAppend([LParen] + RenderTokens(l) + [op], RenderTokens(r), st);
      ScanAppend([LParen] + RenderTokens(l) + [op] + RenderTokens(r), [RParen], st);
  }

  /** The pass turns a fully parenthesised rendering into its postfix. */
  lemma ShuntRendered(e: Expr)
    ensures Shunt(RenderTokens(e)) == PostfixOf(e)
  {
    ScanRendered(e, State([], []));
  }

  /** Running the postfix of a subexpression pushes its value. */
  lemma {:induction false} RunPostfix(e: Expr, rest: seq<Token>, ctx: map<string, bool>, st: seq<bool>)
    requires Bound(e, ctx)
    ensures Run(PostfixOf(e) + rest, ctx, st) == Run(rest, ctx, st + [Eval(e, ctx)])
    decreases e
  {
    match e
    case Atom(n) =>
      RunVar(n, rest, ctx, st);
    case Not(x) =>
      var v := Eval(x, ctx);
      assert PostfixOf(e) + rest == PostfixOf(x) + ([Operator(Neg)] + rest);
      RunPostfix(x, [Operator(Neg)] + rest, ctx, st);
      RunNeg(rest, ctx, st, v);
    case Binary(c, l, r) =>
      var a := Eval(l, ctx);
      var b := Eval(r, ctx);
      assert PostfixOf(e) + rest == PostfixOf(l) + (PostfixOf(r) + ([Operator(Bin(c))] + rest));
      RunPostfix(l, PostfixOf(r) + ([Operator(Bin(c))] + rest), ctx, st);
      RunPostfix(r, [Operator(Bin(c))] + rest, ctx, st + [a]);
      RunBin(c, rest, ctx, st, a, b);
  }

  lemma RunVar(n: string, rest: seq<Token>, ctx: map<string, bool>, st: seq<bool>)
    requires n in ctx
    ensures Run([Var(n)] + rest, ctx, st) == Run(rest, ctx, st + [ctx[n]])
  {
    assert ([Var(n)] + rest)[1..] == rest;
  }

  lemma RunNeg(rest: seq<Token>, ctx: map<string, bool>, st: seq<bool>, v: bool)
    ensures Run([Operator(Neg)] + rest, ctx, st + [v]) == Run(rest, ctx, st + [!v])
  {
    assert ([Operator(Neg)] + rest)[1..] == rest;
    assert (st + [v])[..|st + [v]| - 1] == st;
  }

  lemma RunBin(c: Connective, rest: seq<Token>, ctx: map<string, bool>, st: seq<bool>, a: bool, b: bool)
    ensures Run([Operator(Bin(c))] + rest, ctx, st + [a] + [b]) == Run(rest, ctx, st + [Apply(c, a, b)])
  {
    assert ([Operator(Bin(c))] + rest)[1..] == rest;
    assert (st + [a] + [b])[..|st + [a] + [b]| - 2] == st;
  }

  /** Tokenizing a rendering followed by text that does not continue its
      last name. */
  lemma {:induction false} TokenizeRendered(e: Expr, rest: string)
    requires Named(e)
    requires rest == [] || !IsLetter(rest[0])
    ensures Tokenize(Render(e) + rest) == RenderTokens(e) + Tokenize(rest)
    decreases e
  {
    match e
    case Atom(n) =>
      TokenizeAtom(n, rest);
    case Not(x) =>
      var close := ")" + rest;
      assert close[0] == ')';
      TokenizeRendered(x, close);
      TokenizeNot(x, rest);
    case Binary(c, l, r) =>
      var close := ")" + rest;
      var mid := [ConnectiveSymbol(c)] + (Render(r) + close);
      assert close[0] == ')' && mid[0] == ConnectiveSymbol(c);
      TokenizeRendered(r, close);
      TokenizeRendered(l, mid);
      TokenizeBinary(c, l, r, rest);
  }

  lemma TokenizeAtom(n: string, rest: string)
    requires IsName(n)
    requires rest == [] || !IsLetter(rest[0])
    ensures Tokenize(n + rest) == [Var(n)] + Tokenize(rest)
  {
    var s := n + rest;
    assert s[..|n|] == n && s[|n|..] == rest;
    RunLength(s, |n|);
  }

  /** A symbol character is one token. */
  lemma TokenizeSymbol(ch: char, rest: string)
    requires SymbolToken(ch).Some?
    ensures Tokenize([ch] + rest) == [SymbolToken(ch).value] + Tokenize(rest)
  {
    assert ([ch] + rest)[0] == ch;
    assert ([ch] + rest)[1..] == rest;
  }

  lemma TokenizeNotOpen(x: Expr, rest: string)
    ensures Tokenize(Render(Not(x)) + rest) == [LParen, Operator(Neg)] + Tokenize(Render(x) + (")" + rest))
  {
    var tail := ")" + rest;
    var inner := Render(x);
    assert Render(Not(x)) == ['('] + ['¬'] + inner + ")";
    SeqAssoc4(['('], ['¬'], inner, ")", rest);
    TokenizeSymbol('(', ['¬'] + (inner + tail));
    TokenizeSymbol('¬', inner + tail);
  }

  lemma SeqAssoc4<T>(a: seq<T>, b: seq<T>, c: seq<T>, d: seq<T>, e: seq<T>)
    ensures (a + b + c + d) + e == a + (b + (c + (d + e)))
  {
  }

  lemma TokenizeNot(x: Expr, rest: string)
    requires Tokenize(Render(x) + (")" + rest)) == RenderTokens(x) + Tokenize(")" + rest)
    ensures Tokenize(Render(Not(x)) + rest) == RenderTokens(Not(x)) + Tokenize(rest)
  {
    TokenizeNotOpen(x, rest);
    TokenizeSymbol(')', rest);
    var tr := Tokenize(rest);
    assert [LParen, Operator(Neg)] + (RenderTokens(x) + ([RParen] + tr))
        == ([LParen, Operator(Neg)] + RenderTokens(x) + [RParen]) + tr;
  }

  lemma TokenizeBinaryOpen(c: Connective, l: Expr, r: Expr, rest: string)
    ensures var mid := [ConnectiveSymbol(c)] + (Render(r) + (")" + rest));
      Tokenize(Render(Binary(c, l, r)) + rest) == [LParen] + Tokenize(Render(l) + mid)
  {
    var mid := [ConnectiveSymbol(c)] + (Render(r) + (")" + rest));
    assert Render(Binary(c, l, r)) + rest == ['('] + (Render(l) + mid);
    TokenizeSymbol('(', Render(l) + mid);
  }

  lemma TokenizeBinaryMid(c: Connective, r: Expr, rest: string)
    ensures Tokenize([ConnectiveSymbol(c)] + (Render(r) + (")" + rest)))
      == [Operator(Bin(c))] + Tokenize(Render(r) + (")" + rest))
  {
    assert SymbolToken(ConnectiveSymbol(c)) == Some(Operator(Bin(c)));
    TokenizeSymbol(ConnectiveSymbol(c), Render(r) + (")" + rest));
  }

  lemma TokenizeBinary(c: Connective, l: Expr, r: Expr, rest: string)
    requires Tokenize(Render(r) + (")" + rest)) == RenderTokens(r) + Tokenize(")" + rest)
    requires var mid := [ConnectiveSymbol(c)] + (Render(r) + (")" + rest));
      Tokenize(Render(l) + mid) == RenderTokens(l) + Tokenize(mid)
    ensures Tokenize(Render(Binary(c, l, r)) + rest) == RenderTokens(Binary(c, l, r)) + Tokenize(rest)
  {
    TokenizeBinaryOpen(c, l, r, rest);
    TokenizeBinaryMid(c, r, rest);
    TokenizeSymbol(')', rest);
    var tr := Tokenize(rest);
    var a := RenderTokens(l);
    var b := RenderTokens(r);
    var op := Operator(Bin(c));
    SeqAssoc5([LParen], a, [op], b, [RParen], tr);
  }

  lemma SeqAssoc5<T>(a: seq<T>, b: seq<T>, c: seq<T>, d: seq<T>, e: seq<T>, f: seq<T>)
    ensures a + (b + (c + (d + (e + f)))) == (a + b + c + d + e) + f
  {
  }

  lemma RunLength(s: string, n: nat)
    requires n <= |s|
    requires IsName(s[..n])
    requires n == |s| || !IsLetter(s[n])
    ensures LetterRun(s) == n
    decreases |s|
  {
    if n > 0 {
      assert s[1..][..n - 1] == s[..n][1..];
      if n - 1 > 0 {
        RunLength(s[1..], n - 1);
      } else {
        assert s[1..] == [] || !IsLetter(s[1..][0]);
      }
    }
  }

  /** End to end: `evaluateParsedExpression` on a fully parenthesised
      rendering of a tree yields the tree's value. */
  lemma EvaluatesRendered(e: Expr, ctx: map<string, bool>)
    requires Named(e) && Bound(e, ctx)
    ensures EvaluateParsedExpression(Render(e), ctx) == Some(Eval(e, ctx))
  {
    TokenizeRendered(e, []);
    assert Render(e) + [] == Render(e);
    assert RenderTokens(e) + Tokenize([]) == RenderTokens(e);
    ShuntRendered(e);
    var v := Eval(e, ctx);
    RunPostfix(e, [], ctx, []);
    assert PostfixOf(e) + [] == PostfixOf(e);
    assert [] + [v] == [v];
    EvalPostfixSingle(PostfixOf(e), ctx, v);
  }

  /** A run that leaves one value yields that value. */
  lemma EvalPostfixSingle(ts: seq<Token>, ctx: map<string, bool>, v: bool)
    requires Run(ts, ctx, []) == Run([], ctx, [v])
    ensures EvalPostfix(ts, ctx) == Some(v)
  {
  }
}
