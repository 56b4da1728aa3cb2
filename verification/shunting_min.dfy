/** The script.js pipeline on text written with as few parentheses as the
    operator table allows (script.js:3-10): ¬ binds tightest, then ∧, then
    ∨ and △, then → and ↔; → groups to the right and the others to the
    left. The pop condition of script.js:139-142 reads such text as the
    tree it was written from, so precedence and grouping come out of the
    pass as the table promises. */
module ShuntingMin {

  import opened Basics
  import opened Operators
  import opened Tokenizer
  import opened ShuntingYard
  import opened StackEvaluator
  import opened ShuntingCorrect

  /** How tightly the text of `e` holds together: an atom most, then a
      negation, then the precedence of the root connective. */
  function Tightness(e: Expr): nat
  {
    match e
    case Atom(_) => 5
    case Not(_) => Prec(Neg)
    case Binary(c, _, _) => Prec(Bin(c))
  }

  /** The left operand of `c` needs parentheses: it holds together more
      loosely than `c` binds, or as loosely while `c` groups to the right. */
  predicate WrapLeft(c: Connective, l: Expr)
  {
    Tightness(l) < Prec(Bin(c)) || (Tightness(l) == Prec(Bin(c)) && !LeftAssoc(Bin(c)))
  }

  /** The right operand of `c` needs parentheses: it holds together more
      loosely than `c` binds, or as loosely while its own connective groups
      to the left. */
  predicate WrapRight(c: Connective, r: Expr)
  {
    Tightness(r) < Prec(Bin(c)) || (Tightness(r) == Prec(Bin(c)) && r.Binary? && LeftAssoc(Bin(r.c)))
  }

  function WrapText(b: bool, s: string): string
  {
    if b then "(" + s + ")" else s
  }

  function Wrap(b: bool, ts: seq<Token>): seq<Token>
  {
    if b then [LParen] + ts + [RParen] else ts
  }

  /** The text of `e` with the fewest parentheses: only a binary operand of
      ¬ and the operands `WrapLeft` and `WrapRight` name are wrapped. */
  function RenderMin(e: Expr): string
  {
    match e
    case Atom(n) => n
    case Not(x) => [Symbol(Neg)] + WrapText(x.Binary?, RenderMin(x))
    case Binary(c, l, r) =>
      WrapText(WrapLeft(c, l), RenderMin(l)) + [ConnectiveSymbol(c)] + WrapText(WrapRight(c, r), RenderMin(r))
  }

  /** The tokens of `RenderMin(e)`. */
  function MinTokens(e: Expr): seq<Token>
  {
    match e
    case Atom(n) => [Var(n)]
    case Not(x) => [Operator(Neg)] + Wrap(x.Binary?, MinTokens(x))
    case Binary(c, l, r) =>
      Wrap(WrapLeft(c, l), MinTokens(l)) + [Operator(Bin(c))] + Wrap(WrapRight(c, r), MinTokens(r))
  }

  // ---------------------------------------------------------------------
  // Tokenizing the minimal text.

  lemma TokenizeParen(s: string)
    ensures Tokenize("(" + s + ")") == [LParen] + Tokenize(s) + [RParen]
  {
    assert "(" + s + ")" == ['('] + (s + ")");
    TokenizeSymbol('(', s + ")");
    TokenizeAppend(s, ")");
    TokenizeSymbol(')', []);
    assert [')'] + [] == ")";
  }

  lemma TokenizeWrap(b: bool, s: string)
    ensures Tokenize(WrapText(b, s)) == Wrap(b, Tokenize(s))
  {
    if b {
      TokenizeParen(s);
    }
  }

  /** Two operands around a connective symbol are tokenized apart. */
  lemma TokenizeAround(a: string, ch: char, b: string)
    requires SymbolToken(ch).Some?
    ensures Tokenize(a + [ch] + b) == Tokenize(a) + [SymbolToken(ch).value] + Tokenize(b)
  {
    assert a + [ch] + b == a + ([ch] + b);
    assert ([ch] + b)[0] == ch;
    TokenizeAppend(a, [ch] + b);
    TokenizeSymbol(ch, b);
  }

  lemma TokenizeMinNot(x: Expr)
    requires Tokenize(RenderMin(x)) == MinTokens(x)
    ensures Tokenize(RenderMin(Not(x))) == MinTokens(Not(x))
  {
    var w := WrapText(x.Binary?, RenderMin(x));
    TokenizeWrap(x.Binary?, RenderMin(x));
    TokenizeSymbol(Symbol(Neg), w);
    assert RenderMin(Not(x)) == [Symbol(Neg)] + w;
  }

  lemma ConnectiveToken(c: Connective)
    ensures SymbolToken(ConnectiveSymbol(c)) == Some(Operator(Bin(c)))
  {
  }

  lemma TokenizeMinBinary(c: Connective, l: Expr, r: Expr)
    requires Tokenize(RenderMin(l)) == MinTokens(l)
    requires Tokenize(RenderMin(r)) == MinTokens(r)
    ensures Tokenize(RenderMin(Binary(c, l, r))) == MinTokens(Binary(c, l, r))
  {
    var bl, br := WrapLeft(c, l), WrapRight(c, r);
    var wl := WrapText(bl, RenderMin(l));
    var wr := WrapText(br, RenderMin(r));
    TokenizeWrap(bl, RenderMin(l));
    TokenizeWrap(br, RenderMin(r));
    ConnectiveToken(c);
    TokenizeAround(wl, ConnectiveSymbol(c), wr);
    assert Tokenize(wl + [ConnectiveSymbol(c)] + wr) ==
      Wrap(bl, MinTokens(l)) + [Operator(Bin(c))] + Wrap(br, MinTokens(r));
  }

  lemma {:induction false} TokenizeMin(e: Expr)
    requires Named(e)
    ensures Tokenize(RenderMin(e)) == MinTokens(e)
    decreases e
  {
    match e
    case Atom(n) =>
      NameToken(n);
    case Not(x) =>
      TokenizeMin(x);
      TokenizeMinNot(x);
    case Binary(c, l, r) =>
      TokenizeMin(l);
      TokenizeMin(r);
      TokenizeMinBinary(c, l, r);
  }

  // ---------------------------------------------------------------------
  // What the pass has done after reading the text of a subexpression.

  /** `s` back to front: the order in which the stack is popped. */
  function Reversed<T>(s: seq<T>): (r: seq<T>)
    ensures |r| == |s|
  {
    if |s| == 0 then [] else [s[|s| - 1]] + Reversed(s[..|s| - 1])
  }

  lemma {:induction false} ReversedCons<T>(t: T, s: seq<T>)
    ensures Reversed([t] + s) == Reversed(s) + [t]
    decreases |s|
  {
    if |s| > 0 {
      var n := |s| - 1;
      assert ([t] + s)[..|s|] == [t] + s[..n];
      ReversedCons(t, s[..n]);
    } else {
      assert [t] + s == [t];
      assert [t][..0] == [];
    }
  }

  /** The operators still on the stack after the text of `e` is read: its
      root and, down the unwrapped right operands, theirs. */
  function Pending(e: Expr): seq<Token>
  {
    match e
    case Atom(_) => []
    case Not(x) => [Operator(Neg)] + (if x.Binary? then [] else Pending(x))
    case Binary(c, l, r) => [Operator(Bin(c))] + (if WrapRight(c, r) then [] else Pending(r))
  }

  /** What the pass has output after reading the text of `e`. */
  function Emitted(e: Expr): seq<Token>
  {
    match e
    case Atom(n) => [Var(n)]
    case Not(x) => if x.Binary? then PostfixOf(x) else Emitted(x)
    case Binary(c, l, r) => PostfixOf(l) + (if WrapRight(c, r) then PostfixOf(r) else Emitted(r))
  }

  /** Popping the pending operators completes the postfix. */
  lemma {:induction false} EmittedPending(e: Expr)
    ensures Emitted(e) + Reversed(Pending(e)) == PostfixOf(e)
    decreases e
  {
    match e
    case Atom(_) =>
    case Not(x) =>
      var w := x.Binary?;
      if !w {
        EmittedPending(x);
      }
      OperandComplete(x, w);
      CompleteCons(Operator(Neg), OperandOut(x, w), OperandPending(x, w), PostfixOf(x));
      assert Emitted(e) == OperandOut(x, w);
      assert Pending(e) == [Operator(Neg)] + OperandPending(x, w);
    case Binary(c, l, r) =>
      var w := WrapRight(c, r);
      if !w {
        EmittedPending(r);
      }
      OperandComplete(r, w);
      BinaryComplete(Operator(Bin(c)), PostfixOf(l), OperandOut(r, w), OperandPending(r, w), PostfixOf(r));
      assert Emitted(e) == PostfixOf(l) + OperandOut(r, w);
      assert Pending(e) == [Operator(Bin(c))] + OperandPending(r, w);
  }

  lemma OperandComplete(x: Expr, w: bool)
    requires !w ==> Emitted(x) + Reversed(Pending(x)) == PostfixOf(x)
    ensures OperandOut(x, w) + Reversed(OperandPending(x, w)) == PostfixOf(x)
  {
    if w {
      assert Reversed(OperandPending(x, w)) == [];
    }
  }

  lemma CompleteCons(op: Token, done: seq<Token>, pend: seq<Token>, post: seq<Token>)
    requires done + Reversed(pend) == post
    ensures done + Reversed([op] + pend) == post + [op]
  {
    ReversedCons(op, pend);
    AppendAssoc(done, Reversed(pend), [op]);
  }

  lemma BinaryComplete(op: Token, left: seq<Token>, done: seq<Token>, pend: seq<Token>, post: seq<Token>)
    requires done + Reversed(pend) == post
    ensures left + done + Reversed([op] + pend) == left + post + [op]
  {
    CompleteCons(op, done, pend, post);
    AppendAssoc(left, done, Reversed([op] + pend));
    AppendAssoc(left, post, [op]);
  }

  /** Every pending operator binds at least as tightly as the text it came
      from holds together. */
  lemma {:induction false} PendingTight(e: Expr)
    ensures forall i :: 0 <= i < |Pending(e)| ==>
      Pending(e)[i].Operator? && Prec(Pending(e)[i].op) >= Tightness(e)
    decreases e
  {
    match e
    case Atom(_) =>
    case Not(x) =>
      if !x.Binary? {
        PendingTight(x);
      }
    case Binary(c, l, r) =>
      if !WrapRight(c, r) {
        PendingTight(r);
      }
  }

  /** No operator of the text of `e` outside parentheses pops `t`. */
  predicate Guarded(t: Token, e: Expr)
  {
    match e
    case Atom(_) => true
    case Not(x) => x.Binary? || Guarded(t, x)
    case Binary(c, l, r) =>
      !Pops(t, Bin(c)) && (WrapLeft(c, l) || Guarded(t, l)) && (WrapRight(c, r) || Guarded(t, r))
  }

  /** The stack top, if any, survives reading the text of `e`. */
  predicate Shielded(stack: seq<Token>, e: Expr)
  {
    |stack| == 0 || Guarded(Top(stack), e)
  }

  /** Text that holds together more tightly than `t` binds, or as tightly
      with a right-grouping root, never pops `t`. */
  lemma {:induction false} GuardedAbove(t: Op, e: Expr)
    requires Tightness(e) > Prec(t) || (Tightness(e) == Prec(t) && e.Binary? && !LeftAssoc(Bin(e.c)))
    ensures Guarded(Operator(t), e)
    decreases e
  {
    match e
    case Atom(_) =>
    case Not(x) =>
      if !x.Binary? {
        GuardedAbove(t, x);
      }
    case Binary(c, l, r) =>
      if !WrapLeft(c, l) {
        GuardedAbove(t, l);
      }
      if !WrapRight(c, r) {
        GuardedAbove(t, r);
      }
  }

  /** A `(` on top is never popped by an operator. */
  lemma {:induction false} GuardedOpen(e: Expr)
    ensures Guarded(LParen, e)
    decreases e
  {
    match e
    case Atom(_) =>
    case Not(x) =>
      GuardedOpen(x);
    case Binary(c, l, r) =>
      GuardedOpen(l);
      GuardedOpen(r);
  }

  /** What reading an operand outputs: its whole postfix when it is
      wrapped, since its `)` pops its pending operators. */
  function OperandOut(x: Expr, wrap: bool): seq<Token>
  {
    if wrap then PostfixOf(x) else Emitted(x)
  }

  /** What reading an operand leaves on the stack. */
  function OperandPending(x: Expr, wrap: bool): seq<Token>
  {
    if wrap then [] else Pending(x)
  }

  /** An incoming operator pops the pending operators above `base` and
      stops at `base`. */
  lemma {:induction false} PopPending(out: seq<Token>, base: seq<Token>, pend: seq<Token>, op: Op)
    requires forall i :: 0 <= i < |pend| ==> Pops(pend[i], op)
    requires |base| == 0 || !Pops(Top(base), op)
    ensures PopWhile(State(out, base + pend), op) == State(out + Reversed(pend), base)
    decreases |pend|
  {
    if |pend| == 0 {
      assert base + pend == base;
      assert out + Reversed(pend) == out;
    } else {
      var n := |pend| - 1;
      var rest := pend[..n];
      assert Top(base + pend) == pend[n];
      assert Pops(pend[n], op);
      assert Pop(base + pend) == base + rest;
      assert forall i :: 0 <= i < |rest| ==> rest[i] == pend[i];
      PopPending(out + [pend[n]], base, rest, op);
      assert Reversed(pend) == [pend[n]] + Reversed(rest);
      assert out + [pend[n]] + Reversed(rest) == out + Reversed(pend);
    }
  }

  /** A `)` pops the pending operators above its `(`. */
  lemma {:induction false} PopPendingToOpen(out: seq<Token>, base: seq<Token>, pend: seq<Token>)
    requires forall i :: 0 <= i < |pend| ==> pend[i].Operator?
    ensures PopToParen(State(out, base + [LParen] + pend)) == State(out + Reversed(pend), base + [LParen])
    decreases |pend|
  {
    if |pend| == 0 {
      assert base + [LParen] + pend == base + [LParen];
      assert out + Reversed(pend) == out;
    } else {
      var n := |pend| - 1;
      var rest := pend[..n];
      assert Top(base + [LParen] + pend) == pend[n];
      assert pend[n].Operator?;
      assert Pop(base + [LParen] + pend) == base + [LParen] + rest;
      assert forall i :: 0 <= i < |rest| ==> rest[i] == pend[i];
      PopPendingToOpen(out + [pend[n]], base, rest);
      assert Reversed(pend) == [pend[n]] + Reversed(rest);
      assert out + [pend[n]] + Reversed(rest) == out + Reversed(pend);
    }
  }

  /** The final flush pops everything pending. */
  lemma {:induction false} FlushPending(out: seq<Token>, pend: seq<Token>)
    ensures Flush(State(out, pend)) == out + Reversed(pend)
    decreases |pend|
  {
    if |pend| > 0 {
      var n := |pend| - 1;
      FlushPending(out + [pend[n]], pend[..n]);
      assert Reversed(pend) == [pend[n]] + Reversed(pend[..n]);
    } else {
      assert out + Reversed(pend) == out;
    }
  }

  /** A negation pops nothing and is pushed. */
  lemma PushNeg(st: State)
    ensures Step(st, Operator(Neg)) == State(st.output, st.stack + [Operator(Neg)])
  {
    assert PopWhile(st, Neg) == st;
  }

  /** The state after `¬` followed by its operand. */
  lemma NotPhases(st: State, body: seq<Token>, out: seq<Token>, pend: seq<Token>)
    requires Scan(body, State(st.output, st.stack + [Operator(Neg)])) ==
      State(st.output + out, st.stack + [Operator(Neg)] + pend)
    ensures Scan([Operator(Neg)] + body, st) == State(st.output + out, st.stack + ([Operator(Neg)] + pend))
  {
    var s1 := State(st.output, st.stack + [Operator(Neg)]);
    ScanOne(Operator(Neg), st);
    PushNeg(st);
    assert Scan([Operator(Neg)], st) == s1;
    ScanAppend([Operator(Neg)], body, st);
    assert Scan([Operator(Neg)] + body, st) == Scan(body, s1);
    AppendAssoc(st.stack, [Operator(Neg)], pend);
  }

  /** The state after a left operand, a connective and a right operand. */
  lemma BinaryPhases(st: State, tl: seq<Token>, op: Token, tr: seq<Token>,
                     lout: seq<Token>, lpend: seq<Token>, post: seq<Token>, rout: seq<Token>, rpend: seq<Token>)
    requires Scan(tl, st) == State(st.output + lout, st.stack + lpend)
    requires Step(State(st.output + lout, st.stack + lpend), op) == State(st.output + post, st.stack + [op])
    requires Scan(tr, State(st.output + post, st.stack + [op])) == State(st.output + post + rout, st.stack + [op] + rpend)
    ensures Scan(tl + [op] + tr, st) == State(st.output + (post + rout), st.stack + ([op] + rpend))
  {
    var s1 := State(st.output + lout, st.stack + lpend);
    var s2 := State(st.output + post, st.stack + [op]);
    ScanOne(op, s1);
    assert Scan([op], Scan(tl, st)) == s2;
    ScanAppend(tl, [op], st);
    assert Scan(tl + [op], st) == s2;
    ScanAppend(tl + [op], tr, st);
    assert Scan(tl + [op] + tr, st) == Scan(tr, s2);
    AppendAssoc(st.output, post, rout);
    AppendAssoc(st.stack, [op], rpend);
  }

  /** The state after a parenthesised operand. */
  lemma ParenPhases(st: State, body: seq<Token>, out: seq<Token>, pend: seq<Token>)
    requires forall i :: 0 <= i < |pend| ==> pend[i].Operator?
    requires Scan(body, State(st.output, st.stack + [LParen])) == State(st.output + out, st.stack + [LParen] + pend)
    ensures Scan([LParen] + body + [RParen], st) == State(st.output + out + Reversed(pend), st.stack)
  {
    var s2 := State(st.output + out, st.stack + [LParen] + pend);
    ScanOne(LParen, st);
    ScanAppend([LParen], body, st);
    ScanOne(RParen, s2);
    PopPendingToOpen(st.output + out, st.stack, pend);
    assert Pop(st.stack + [LParen]) == st.stack;
    ScanAppend([LParen] + body, [RParen], st);
  }

  /** Reading the minimal text of `e` outputs `Emitted(e)` and leaves
      `Pending(e)` on top of a stack whose top it does not pop. */
  lemma {:induction false} ScanMin(e: Expr, st: State)
    requires Shielded(st.stack, e)
    ensures Scan(MinTokens(e), st) == State(st.output + Emitted(e), st.stack + Pending(e))
    decreases e, 1
  {
    match e
    case Atom(n) =>
      ScanOne(Var(n), st);
      assert st.stack + Pending(e) == st.stack;
    case Not(x) =>
      ScanNot(x, st);
    case Binary(c, l, r) =>
      ScanBinary(c, l, r, st);
  }

  lemma {:induction false} ScanNot(x: Expr, st: State)
    ensures Scan(MinTokens(Not(x)), st) == State(st.output + Emitted(Not(x)), st.stack + Pending(Not(x)))
    decreases Not(x), 0
  {
    var w := x.Binary?;
    var s1 := State(st.output, st.stack + [Operator(Neg)]);
    if !w {
      UnaryGuarded(Operator(Neg), x);
      assert Top(s1.stack) == Operator(Neg);
    }
    ScanOperand(x, w, s1);
    NotPhases(st, Wrap(w, MinTokens(x)), OperandOut(x, w), OperandPending(x, w));
    assert MinTokens(Not(x)) == [Operator(Neg)] + Wrap(w, MinTokens(x));
    assert Emitted(Not(x)) == OperandOut(x, w);
    assert Pending(Not(x)) == [Operator(Neg)] + OperandPending(x, w);
  }

  /** Text with no binary operator outside parentheses pops nothing. */
  lemma {:induction false} UnaryGuarded(t: Token, x: Expr)
    requires !x.Binary?
    ensures Guarded(t, x)
    decreases x
  {
    if x.Not? && !x.arg.Binary? {
      UnaryGuarded(t, x.arg);
    }
  }

  lemma {:induction false} ScanBinary(c: Connective, l: Expr, r: Expr, st: State)
    requires Shielded(st.stack, Binary(c, l, r))
    ensures var e := Binary(c, l, r);
      Scan(MinTokens(e), st) == State(st.output + Emitted(e), st.stack + Pending(e))
    decreases Binary(c, l, r), 0
  {
    var op := Operator(Bin(c));
    var wl, wr := WrapLeft(c, l), WrapRight(c, r);
    var tl, tr := Wrap(wl, MinTokens(l)), Wrap(wr, MinTokens(r));
    var s2 := State(st.output + PostfixOf(l), st.stack + [op]);
    assert |st.stack| == 0 || !Pops(Top(st.stack), Bin(c));
    assert wl || Shielded(st.stack, l);
    ScanOperand(l, wl, st);
    OperatorStep(c, l, st.output, st.stack, wl);
    if !wr {
      GuardedAbove(Bin(c), r);
      assert Top(s2.stack) == op;
    }
    ScanOperand(r, wr, s2);
    BinaryPhases(st, tl, op, tr, OperandOut(l, wl), OperandPending(l, wl), PostfixOf(l),
                 OperandOut(r, wr), OperandPending(r, wr));
    assert MinTokens(Binary(c, l, r)) == tl + [op] + tr;
    assert Emitted(Binary(c, l, r)) == PostfixOf(l) + OperandOut(r, wr);
    assert Pending(Binary(c, l, r)) == [op] + OperandPending(r, wr);
  }

  /** The connective after its left operand pops that operand's pending
      operators and is pushed. */
  lemma OperatorStep(c: Connective, l: Expr, out: seq<Token>, base: seq<Token>, wl: bool)
    requires wl == WrapLeft(c, l)
    requires |base| == 0 || !Pops(Top(base), Bin(c))
    ensures Step(State(out + OperandOut(l, wl), base + OperandPending(l, wl)), Operator(Bin(c))) ==
      State(out + PostfixOf(l), base + [Operator(Bin(c))])
  {
    var pend := OperandPending(l, wl);
    var done := OperandOut(l, wl);
    if wl {
      assert pend == [];
    } else {
      PendingTight(l);
      AllPop(Pending(l), Tightness(l), Bin(c));
      EmittedPending(l);
    }
    PopPending(out + done, base, pend, Bin(c));
    OperandComplete(l, wl);
    AppendAssoc(out, done, Reversed(pend));
  }

  /** Operators that all bind at least as tightly as `t` pop an incoming
      `op` that binds more loosely than `t`, or as loosely while grouping
      to the left. */
  lemma AllPop(pend: seq<Token>, t: nat, op: Op)
    requires forall i :: 0 <= i < |pend| ==> pend[i].Operator? && Prec(pend[i].op) >= t
    requires t > Prec(op) || (t == Prec(op) && LeftAssoc(op))
    ensures forall i :: 0 <= i < |pend| ==> Pops(pend[i], op)
  {
  }

  /** Reading an operand, wrapped or not. */
  lemma {:induction false} ScanOperand(x: Expr, wrap: bool, st: State)
    requires wrap || Shielded(st.stack, x)
    ensures Scan(Wrap(wrap, MinTokens(x)), st) ==
      State(st.output + OperandOut(x, wrap), st.stack + OperandPending(x, wrap))
    decreases x, 2
  {
    if wrap {
      var s1 := State(st.output, st.stack + [LParen]);
      GuardedOpen(x);
      assert Top(s1.stack) == LParen;
      ScanMin(x, s1);
      PendingTight(x);
      ParenPhases(st, MinTokens(x), Emitted(x), Pending(x));
      EmittedPending(x);
      AppendAssoc(st.output, Emitted(x), Reversed(Pending(x)));
      assert Scan(Wrap(wrap, MinTokens(x)), st) == State(st.output + PostfixOf(x), st.stack);
      assert OperandPending(x, wrap) == [];
    } else {
      ScanMin(x, st);
    }
  }

  // ---------------------------------------------------------------------
  // The pass and the evaluator on minimal text.

  /** The pass turns the minimal text's tokens into the tree's postfix. */
  lemma ShuntMin(e: Expr)
    ensures Shunt(MinTokens(e)) == PostfixOf(e)
  {
    ScanMin(e, State([], []));
    assert [] + Emitted(e) == Emitted(e) && [] + Pending(e) == Pending(e);
    FlushPending(Emitted(e), Pending(e));
    EmittedPending(e);
  }

  /** The pass turns the minimal text of a tree into the tree's postfix. */
  lemma ShuntText(e: Expr)
    requires Named(e)
    ensures Shunt(Tokenize(RenderMin(e))) == PostfixOf(e)
  {
    TokenizeMin(e);
    ShuntMin(e);
  }

  /** End to end: `evaluateParsedExpression` on the minimal text of a
      tree yields the tree's value. */
  lemma EvaluatesMin(e: Expr, ctx: map<string, bool>)
    requires Named(e) && Bound(e, ctx)
    ensures EvaluateParsedExpression(RenderMin(e), ctx) == Some(Eval(e, ctx))
  {
    TokenizeMin(e);
    ShuntMin(e);
    var v := Eval(e, ctx);
    RunPostfix(e, [], ctx, []);
    assert PostfixOf(e) + [] == PostfixOf(e);
    assert [] + [v] == [v];
    EvalPostfixSingle(PostfixOf(e), ctx, v);
  }

  /** The text `xcydz` is the minimal text of `(x c y) d z` when `c`
      comes first. */
  lemma LeftFirst(c: Connective, d: Connective, x: string, y: string, z: string)
    requires Prec(Bin(c)) > Prec(Bin(d)) || (Prec(Bin(c)) == Prec(Bin(d)) && LeftAssoc(Bin(d)))
    ensures RenderMin(Binary(d, Binary(c, Atom(x), Atom(y)), Atom(z))) ==
      x + [ConnectiveSymbol(c)] + y + [ConnectiveSymbol(d)] + z
  {
    var inner := Binary(c, Atom(x), Atom(y));
    assert !WrapLeft(c, Atom(x)) && !WrapRight(c, Atom(y));
    assert RenderMin(inner) == x + [ConnectiveSymbol(c)] + y;
    assert !WrapLeft(d, inner) && !WrapRight(d, Atom(z));
  }

  /** ... and of `x c (y d z)` otherwise. */
  lemma RightFirst(c: Connective, d: Connective, x: string, y: string, z: string)
    requires !(Prec(Bin(c)) > Prec(Bin(d)) || (Prec(Bin(c)) == Prec(Bin(d)) && LeftAssoc(Bin(d))))
    ensures RenderMin(Binary(c, Atom(x), Binary(d, Atom(y), Atom(z)))) ==
      x + [ConnectiveSymbol(c)] + y + [ConnectiveSymbol(d)] + z
  {
    var inner := Binary(d, Atom(y), Atom(z));
    assert !WrapLeft(d, Atom(y)) && !WrapRight(d, Atom(z));
    assert RenderMin(inner) == y + [ConnectiveSymbol(d)] + z;
    assert !WrapLeft(c, Atom(x)) && !WrapRight(c, inner);
    assert x + [ConnectiveSymbol(c)] + (y + [ConnectiveSymbol(d)] + z) ==
      x + [ConnectiveSymbol(c)] + y + [ConnectiveSymbol(d)] + z;
  }

  lemma LeftPostfix(c: Connective, d: Connective, x: string, y: string, z: string)
    ensures PostfixOf(Binary(d, Binary(c, Atom(x), Atom(y)), Atom(z))) ==
      [Var(x), Var(y), Operator(Bin(c)), Var(z), Operator(Bin(d))]
  {
    assert PostfixOf(Binary(c, Atom(x), Atom(y))) == [Var(x), Var(y), Operator(Bin(c))];
  }

  lemma RightPostfix(c: Connective, d: Connective, x: string, y: string, z: string)
    ensures PostfixOf(Binary(c, Atom(x), Binary(d, Atom(y), Atom(z)))) ==
      [Var(x), Var(y), Var(z), Operator(Bin(d)), Operator(Bin(c))]
  {
    assert PostfixOf(Binary(d, Atom(y), Atom(z))) == [Var(y), Var(z), Operator(Bin(d))];
  }

  lemma TwoLeft(c: Connective, d: Connective, x: string, y: string, z: string)
    requires IsName(x) && IsName(y) && IsName(z)
    requires Prec(Bin(c)) > Prec(Bin(d)) || (Prec(Bin(c)) == Prec(Bin(d)) && LeftAssoc(Bin(d)))
    ensures Shunt(Tokenize(x + [ConnectiveSymbol(c)] + y + [ConnectiveSymbol(d)] + z)) ==
      [Var(x), Var(y), Operator(Bin(c)), Var(z), Operator(Bin(d))]
  {
    var e := Binary(d, Binary(c, Atom(x), Atom(y)), Atom(z));
    LeftFirst(c, d, x, y, z);
    ShuntText(e);
    LeftPostfix(c, d, x, y, z);
  }

  lemma TwoRight(c: Connective, d: Connective, x: string, y: string, z: string)
    requires IsName(x) && IsName(y) && IsName(z)
    requires !(Prec(Bin(c)) > Prec(Bin(d)) || (Prec(Bin(c)) == Prec(Bin(d)) && LeftAssoc(Bin(d))))
    ensures Shunt(Tokenize(x + [ConnectiveSymbol(c)] + y + [ConnectiveSymbol(d)] + z)) ==
      [Var(x), Var(y), Var(z), Operator(Bin(d)), Operator(Bin(c))]
  {
    var e := Binary(c, Atom(x), Binary(d, Atom(y), Atom(z)));
    RightFirst(c, d, x, y, z);
    ShuntText(e);
    RightPostfix(c, d, x, y, z);
  }

  /** Two connectives between three names: the first is applied first when
      it binds more tightly, or as tightly while the second groups to the
      left; otherwise the second is. So `p∧q∨r` is `(p∧q)∨r`, `p∨q∧r` is
      `p∨(q∧r)`, `p→q→r` is `p→(q→r)`, `p↔q↔r` is `(p↔q)↔r`, `p→q↔r` is
      `(p→q)↔r` and `p↔q→r` is `p↔(q→r)`. */
  lemma TwoConnectives(c: Connective, d: Connective, x: string, y: string, z: string)
    requires IsName(x) && IsName(y) && IsName(z)
    ensures var out := Shunt(Tokenize(x + [ConnectiveSymbol(c)] + y + [ConnectiveSymbol(d)] + z));
      var vx, vy, vz, oc, od := Var(x), Var(y), Var(z), Operator(Bin(c)), Operator(Bin(d));
      out == if Prec(Bin(c)) > Prec(Bin(d)) || (Prec(Bin(c)) == Prec(Bin(d)) && LeftAssoc(Bin(d)))
             then [vx, vy, oc, vz, od] else [vx, vy, vz, od, oc]
  {
    if Prec(Bin(c)) > Prec(Bin(d)) || (Prec(Bin(c)) == Prec(Bin(d)) && LeftAssoc(Bin(d))) {
      TwoLeft(c, d, x, y, z);
    } else {
      TwoRight(c, d, x, y, z);
    }
  }
}
