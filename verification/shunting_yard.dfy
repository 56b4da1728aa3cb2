/** The shunting-yard pass of script.js:130-163: token list to postfix. */
module ShuntingYard {

  import opened Basics
  import opened Operators
  import opened Tokenizer

  /** The variable tokens of `ts`, in order. */
  function Vars(ts: seq<Token>): (r: seq<Token>)
    ensures |r| <= |ts|
  {
    if |ts| == 0 then []
    else if ts[0].Var? then [ts[0]] + Vars(ts[1..])
    else Vars(ts[1..])
  }

  /** The operator tokens of `ts`, in order. */
  function OpsOf(ts: seq<Token>): (r: seq<Token>)
    ensures |r| <= |ts|
  {
    if |ts| == 0 then []
    else if ts[0].Operator? then [ts[0]] + OpsOf(ts[1..])
    else OpsOf(ts[1..])
  }

  lemma FilterAppend(a: seq<Token>, b: seq<Token>)
    ensures Vars(a + b) == Vars(a) + Vars(b)
    ensures OpsOf(a + b) == OpsOf(a) + OpsOf(b)
  {
    VarsAppend(a, b);
    OpsAppend(a, b);
  }

  lemma {:induction false} VarsAppend(a: seq<Token>, b: seq<Token>)
    ensures Vars(a + b) == Vars(a) + Vars(b)
    decreases |a|
  {
    if |a| == 0 {
      assert a + b == b;
    } else {
      assert (a + b)[0] == a[0];
      assert (a + b)[1..] == a[1..] + b;
      VarsAppend(a[1..], b);
      if a[0].Var? {
        AppendAssoc([a[0]], Vars(a[1..]), Vars(b));
      }
    }
  }

  lemma {:induction false} OpsAppend(a: seq<Token>, b: seq<Token>)
    ensures OpsOf(a + b) == OpsOf(a) + OpsOf(b)
    decreases |a|
  {
    if |a| == 0 {
      assert a + b == b;
    } else {
      assert (a + b)[0] == a[0];
      assert (a + b)[1..] == a[1..] + b;
      OpsAppend(a[1..], b);
      if a[0].Operator? {
        AppendAssoc([a[0]], OpsOf(a[1..]), OpsOf(b));
      }
    }
  }

  /** The two lists the pass threads through the token list. */
  datatype State = State(output: seq<Token>, stack: seq<Token>)

  function Top(stack: seq<Token>): Token
    requires |stack| > 0
  {
    stack[|stack| - 1]
  }

  function Pop(stack: seq<Token>): seq<Token>
    requires |stack| > 0
  {
    stack[..|stack| - 1]
  }

  /** The pop condition of script.js:139-142 for a stack top `top` and an
      incoming operator `op` (the stack only ever holds operators and `(`,
      so "top is not `(`" is "top is an operator"). Negation never pops
      anything; an operator pops an equal one exactly when it is
      left-associative, so → groups to the right and ∧ ∨ △ ↔ to the left. */
  predicate Pops(top: Token, op: Op)
  {
    top.Operator? &&
    (Prec(top.op) > Prec(op) || (Prec(top.op) == Prec(op) && LeftAssoc(op)))
  }

  /** The loop at script.js:138-144. */
  function PopWhile(st: State, op: Op): State
    decreases |st.stack|
  {
    if |st.stack| > 0 && Pops(Top(st.stack), op) then
      PopWhile(State(st.output + [Top(st.stack)], Pop(st.stack)), op)
    else st
  }

  /** The loop at script.js:149-151. */
  function PopToParen(st: State): State
    decreases |st.stack|
  {
    if |st.stack| > 0 && Top(st.stack) != LParen then
      PopToParen(State(st.output + [Top(st.stack)], Pop(st.stack)))
    else st
  }

  /** One iteration of the loop at script.js:136-156. At `)` the final
      `pop` removes the `(` the inner loop stopped at, or nothing when the
      stack ran empty. */
  function Step(st: State, t: Token): State
  {
    match t
    case Operator(op) =>
      var p := PopWhile(st, op);
      State(p.output, p.stack + [t])
    case LParen => State(st.output, st.stack + [LParen])
    case RParen =>
      var p := PopToParen(st);
      State(p.output, if |p.stack| > 0 then Pop(p.stack) else p.stack)
    case Var(_) => State(st.output + [t], st.stack)
  }

  function Scan(ts: seq<Token>, st: State): State
    decreases |ts|
  {
    if |ts| == 0 then st else Scan(ts[1..], Step(st, ts[0]))
  }

  /** The loop at script.js:158-160: the rest of the stack, top first. */
  function Flush(st: State): seq<Token>
    decreases |st.stack|
  {
    if |st.stack| == 0 then st.output
    else Flush(State(st.output + [Top(st.stack)], Pop(st.stack)))
  }

  // ---------------------------------------------------------------------
  // Parenthesis depth of a token list.

  function Opens(ts: seq<Token>): nat
  {
    if |ts| == 0 then 0 else (if ts[0] == LParen then 1 else 0) + Opens(ts[1..])
  }

  function Closes(ts: seq<Token>): nat
  {
    if |ts| == 0 then 0 else (if ts[0] == RParen then 1 else 0) + Closes(ts[1..])
  }

  /** No prefix closes more parentheses than it opens, and the whole list
      closes as many as it opens. */
  predicate Balanced(ts: seq<Token>)
  {
    && (forall k :: 0 <= k <= |ts| ==> Closes(ts[..k]) <= Opens(ts[..k]))
    && Closes(ts) == Opens(ts)
  }

  // ---------------------------------------------------------------------
  // The pass and what it guarantees.

  /** The postfix list: no `)` ever; no `(` when the parentheses balance;
      the variables in their input order; every operator exactly once. */
  function Shunt(ts: seq<Token>): (out: seq<Token>)
    ensures RParen !in out
    ensures Balanced(ts) ==> LParen !in out
    ensures Vars(out) == Vars(ts)
    ensures multiset(OpsOf(out)) == multiset(OpsOf(ts))
  {
    var st := Scan(ts, State([], []));
    ScanKeepsTokens(ts, State([], []));
    BalancedEmptiesStack(ts);
    FlushSpec(st);
    Flush(st)
  }

  /** The stack only holds operators and `(`; the output only variables and
      operators. */
  predicate WellSorted(st: State)
  {
    && (forall i :: 0 <= i < |st.stack| ==> st.stack[i].Operator? || st.stack[i] == LParen)
    && (forall i :: 0 <= i < |st.output| ==> st.output[i].Operator? || st.output[i].Var?)
  }

  ghost function OpBag(st: State): multiset<Token>
  {
    multiset(OpsOf(st.output)) + multiset(OpsOf(st.stack))
  }

  lemma MoveTop(st: State)
    requires WellSorted(st) && |st.stack| > 0 && Top(st.stack).Operator?
    ensures var st' := State(st.output + [Top(st.stack)], Pop(st.stack));
      && WellSorted(st')
      && Vars(st'.output) == Vars(st.output)
      && OpBag(st') == OpBag(st)
      && Opens(st'.stack) == Opens(st.stack)
  {
    MoveTopSorted(st);
    MoveTopCounts(st);
  }

  lemma MoveTopSorted(st: State)
    requires WellSorted(st) && |st.stack| > 0 && Top(st.stack).Operator?
    ensures WellSorted(State(st.output + [Top(st.stack)], Pop(st.stack)))
  {
    var rest := Pop(st.stack);
    assert forall i :: 0 <= i < |rest| ==> rest[i] == st.stack[i];
  }

  lemma MoveTopCounts(st: State)
    requires |st.stack| > 0 && Top(st.stack).Operator?
    ensures var st' := State(st.output + [Top(st.stack)], Pop(st.stack));
      && Vars(st'.output) == Vars(st.output)
      && OpBag(st') == OpBag(st)
      && Opens(st'.stack) == Opens(st.stack)
  {
    var t := Top(st.stack);
    var rest := Pop(st.stack);
    assert st.stack == rest + [t];
    FilterSingle(t);
    VarsAppend(st.output, [t]);
    OpsAppend(st.output, [t]);
    OpsAppend(rest, [t]);
    OpensAppend(rest, [t]);
    assert [t][1..] == [];
  }

  lemma {:induction false} PopWhileSpec(st: State, op: Op)
    requires WellSorted(st)
    ensures var r := PopWhile(st, op);
      && WellSorted(r)
      && Vars(r.output) == Vars(st.output)
      && OpBag(r) == OpBag(st)
      && Opens(r.stack) == Opens(st.stack)
    decreases |st.stack|
  {
    if |st.stack| > 0 && Pops(Top(st.stack), op) {
      MoveTop(st);
      PopWhileSpec(State(st.output + [Top(st.stack)], Pop(st.stack)), op);
    }
  }

  lemma {:induction false} PopToParenSpec(st: State)
    requires WellSorted(st)
    ensures var r := PopToParen(st);
      && WellSorted(r)
      && Vars(r.output) == Vars(st.output)
      && OpBag(r) == OpBag(st)
      && Opens(r.stack) == Opens(st.stack)
      && (|r.stack| > 0 ==> Top(r.stack) == LParen)
      && (Opens(st.stack) > 0 ==> |r.stack| > 0)
    decreases |st.stack|
  {
    if |st.stack| > 0 && Top(st.stack) != LParen {
      MoveTop(st);
      PopToParenSpec(State(st.output + [Top(st.stack)], Pop(st.stack)));
    }
  }

  lemma FilterSingle(t: Token)
    ensures Vars([t]) == (if t.Var? then [t] else [])
    ensures OpsOf([t]) == (if t.Operator? then [t] else [])
  {
    assert [t][1..] == [];
  }

  lemma StepSpec(st: State, t: Token)
    requires WellSorted(st)
    ensures var r := Step(st, t);
      && WellSorted(r)
      && Vars(r.output) == Vars(st.output) + Vars([t])
      && OpBag(r) == OpBag(st) + multiset(OpsOf([t]))
  {
    FilterSingle(t);
    match t
    case Operator(op) => StepOperator(st, op);
    case LParen => StepOpen(st);
    case RParen => StepClose(st);
    case Var(n) => StepVar(st, n);
  }

  lemma StepOpen(st: State)
    requires WellSorted(st)
    ensures var r := Step(st, LParen);
      && WellSorted(r)
      && Vars(r.output) == Vars(st.output)
      && OpBag(r) == OpBag(st)
      && Opens(r.stack) == Opens(st.stack) + 1
  {
    OpensAppend(st.stack, [LParen]);
    assert [LParen][1..] == [];
    FilterAppend(st.stack, [LParen]);
    FilterSingle(LParen);
  }

  lemma StepVar(st: State, n: string)
    requires WellSorted(st)
    ensures var r := Step(st, Var(n));
      && WellSorted(r)
      && Vars(r.output) == Vars(st.output) + [Var(n)]
      && OpBag(r) == OpBag(st)
  {
    FilterAppend(st.output, [Var(n)]);
    FilterSingle(Var(n));
  }

  lemma StepOperator(st: State, op: Op)
    requires WellSorted(st)
    ensures var r := Step(st, Operator(op));
      && WellSorted(r)
      && Vars(r.output) == Vars(st.output)
      && OpBag(r) == OpBag(st) + multiset{Operator(op)}
      && Opens(r.stack) == Opens(st.stack)
  {
    var p := PopWhile(st, op);
    PopWhileSpec(st, op);
    FilterSingle(Operator(op));
    FilterAppend(p.stack, [Operator(op)]);
    OpensAppend(p.stack, [Operator(op)]);
    assert [Operator(op)][1..] == [];
  }

  lemma StepClose(st: State)
    requires WellSorted(st)
    ensures var r := Step(st, RParen);
      && WellSorted(r)
      && Vars(r.output) == Vars(st.output)
      && OpBag(r) == OpBag(st)
      && (Opens(st.stack) > 0 ==> Opens(r.stack) == Opens(st.stack) - 1)
  {
    var p := PopToParen(st);
    PopToParenSpec(st);
    if |p.stack| > 0 {
      DropParen(p);
      assert Step(st, RParen) == State(p.output, Pop(p.stack));
    } else {
      assert Step(st, RParen) == p;
    }
  }

  /** Removing the `(` the inner loop stopped at. */
  lemma DropParen(p: State)
    requires WellSorted(p) && |p.stack| > 0 && Top(p.stack) == LParen
    ensures var r := State(p.output, Pop(p.stack));
      && WellSorted(r)
      && OpBag(r) == OpBag(p)
      && Opens(r.stack) == Opens(p.stack) - 1
  {
    var rest := Pop(p.stack);
    assert p.stack == rest + [LParen];
    assert forall i :: 0 <= i < |rest| ==> rest[i] == p.stack[i];
    FilterSingle(LParen);
    OpsAppend(rest, [LParen]);
    OpensAppend(rest, [LParen]);
    assert [LParen][1..] == [];
  }

  lemma {:induction false} ScanKeepsTokens(ts: seq<Token>, st: State)
    requires WellSorted(st)
    ensures var r := Scan(ts, st);
      && WellSorted(r)
      && Vars(r.output) == Vars(st.output) + Vars(ts)
      && OpBag(r) == OpBag(st) + multiset(OpsOf(ts))
    decreases |ts|
  {
    if |ts| > 0 {
      ScanStep(ts, st);
      ScanKeepsTokens(ts[1..], Step(st, ts[0]));
    }
  }

  /** One step of the scan keeps the sorts and the token counts. */
  lemma ScanStep(ts: seq<Token>, st: State)
    requires WellSorted(st) && |ts| > 0
    ensures Scan(ts, st) == Scan(ts[1..], Step(st, ts[0]))
    ensures var st' := Step(st, ts[0]);
      && WellSorted(st')
      && Vars(st'.output) + Vars(ts[1..]) == Vars(st.output) + Vars(ts)
      && OpBag(st') + multiset(OpsOf(ts[1..])) == OpBag(st) + multiset(OpsOf(ts))
  {
    var st' := Step(st, ts[0]);
    StepSpec(st, ts[0]);
    SplitFirst(ts);
    AppendAssoc(Vars(st.output), Vars([ts[0]]), Vars(ts[1..]));
  }

  lemma SplitFirst(ts: seq<Token>)
    requires |ts| > 0
    ensures Vars(ts) == Vars([ts[0]]) + Vars(ts[1..])
    ensures multiset(OpsOf(ts)) == multiset(OpsOf([ts[0]])) + multiset(OpsOf(ts[1..]))
  {
    FilterSingle(ts[0]);
    assert [] + Vars(ts[1..]) == Vars(ts[1..]);
    assert [] + OpsOf(ts[1..]) == OpsOf(ts[1..]);
  }

  lemma {:induction false} OpensAppend(a: seq<Token>, b: seq<Token>)
    ensures Opens(a + b) == Opens(a) + Opens(b)
    ensures Closes(a + b) == Closes(a) + Closes(b)
    decreases |a|
  {
    if |a| == 0 {
      assert a + b == b;
    } else {
      assert (a + b)[0] == a[0];
      assert (a + b)[1..] == a[1..] + b;
      OpensAppend(a[1..], b);
    }
  }

  /** A step keeps the count of `(` on the stack equal to the open
      parentheses of the input read so far, as long as no `)` arrives
      without a matching `(`. */
  lemma StepOpens(st: State, t: Token)
    requires WellSorted(st)
    requires t == RParen ==> Opens(st.stack) > 0
    ensures Opens(Step(st, t).stack) + Closes([t]) == Opens(st.stack) + Opens([t])
  {
    assert [t][1..] == [];
    match t
    case Operator(op) => StepOperator(st, op);
    case LParen => StepOpen(st);
    case RParen => StepClose(st);
    case Var(n) =>
  }

  lemma {:induction false} ScanClosesParens(ts: seq<Token>, st: State)
    requires WellSorted(st)
    requires forall k :: 0 <= k <= |ts| ==> Closes(ts[..k]) <= Opens(st.stack) + Opens(ts[..k])
    ensures Opens(Scan(ts, st).stack) + Closes(ts) == Opens(st.stack) + Opens(ts)
    decreases |ts|
  {
    if |ts| > 0 {
      var t := ts[0];
      assert ts[..1] == [t];
      assert [t][1..] == [];
      assert Closes(ts[..1]) <= Opens(st.stack) + Opens(ts[..1]);
      StepOpens(st, t);
      StepSpec(st, t);
      var st' := Step(st, t);
      ShiftPrefixes(ts, Opens(st.stack), Opens(st'.stack));
      ScanClosesParens(ts[1..], st');
      assert ts == [t] + ts[1..];
      OpensAppend([t], ts[1..]);
    }
  }

  /** The prefix condition, moved past the first token. */
  lemma ShiftPrefixes(ts: seq<Token>, d: nat, d': nat)
    requires |ts| > 0
    requires forall k :: 0 <= k <= |ts| ==> Closes(ts[..k]) <= d + Opens(ts[..k])
    requires d' + Closes([ts[0]]) == d + Opens([ts[0]])
    ensures forall k :: 0 <= k <= |ts[1..]| ==> Closes(ts[1..][..k]) <= d' + Opens(ts[1..][..k])
  {
    forall k | 0 <= k <= |ts[1..]|
      ensures Closes(ts[1..][..k]) <= d' + Opens(ts[1..][..k])
    {
      assert ts[..k + 1] == [ts[0]] + ts[1..][..k];
      OpensAppend([ts[0]], ts[1..][..k]);
    }
  }

  /** On balanced input every `(` pushed has been popped by its `)`. */
  lemma BalancedEmptiesStack(ts: seq<Token>)
    ensures Balanced(ts) ==> Opens(Scan(ts, State([], [])).stack) == 0
  {
    if Balanced(ts) {
      ScanClosesParens(ts, State([], []));
    }
  }

  lemma {:induction false} FlushSpec(st: State)
    requires forall i :: 0 <= i < |st.stack| ==> st.stack[i].Operator? || st.stack[i] == LParen
    requires RParen !in st.output
    ensures var out := Flush(st);
      && RParen !in out
      && (Opens(st.stack) == 0 && LParen !in st.output ==> LParen !in out)
      && Vars(out) == Vars(st.output)
      && multiset(OpsOf(out)) == OpBag(st)
    decreases |st.stack|
  {
    if |st.stack| == 0 {
      assert OpsOf(st.stack) == [];
    } else {
      var st' := State(st.output + [Top(st.stack)], Pop(st.stack));
      FlushStep(st);
      FlushSpec(st');
    }
  }

  /** One move of the final flush keeps what `FlushSpec` tracks. */
  lemma FlushStep(st: State)
    requires |st.stack| > 0
    requires forall i :: 0 <= i < |st.stack| ==> st.stack[i].Operator? || st.stack[i] == LParen
    requires RParen !in st.output
    ensures var st' := State(st.output + [Top(st.stack)], Pop(st.stack));
      && (forall i :: 0 <= i < |st'.stack| ==> st'.stack[i].Operator? || st'.stack[i] == LParen)
      && RParen !in st'.output
      && (Opens(st.stack) == 0 && LParen !in st.output ==> Opens(st'.stack) == 0 && LParen !in st'.output)
      && Vars(st'.output) == Vars(st.output)
      && OpBag(st') == OpBag(st)
  {
    FlushStepShape(st);
    FlushStepCounts(st);
  }

  lemma FlushStepShape(st: State)
    requires |st.stack| > 0
    requires forall i :: 0 <= i < |st.stack| ==> st.stack[i].Operator? || st.stack[i] == LParen
    requires RParen !in st.output
    ensures var st' := State(st.output + [Top(st.stack)], Pop(st.stack));
      && (forall i :: 0 <= i < |st'.stack| ==> st'.stack[i].Operator? || st'.stack[i] == LParen)
      && RParen !in st'.output
      && (Opens(st.stack) == 0 && LParen !in st.output ==> Opens(st'.stack) == 0 && LParen !in st'.output)
  {
    var t := Top(st.stack);
    assert t.Operator? || t == LParen;
    assert st.stack == Pop(st.stack) + [t];
    OpensAppend(Pop(st.stack), [t]);
  }

  lemma FlushStepCounts(st: State)
    requires |st.stack| > 0
    requires forall i :: 0 <= i < |st.stack| ==> st.stack[i].Operator? || st.stack[i] == LParen
    ensures var st' := State(st.output + [Top(st.stack)], Pop(st.stack));
      && Vars(st'.output) == Vars(st.output)
      && OpBag(st') == OpBag(st)
  {
    var t := Top(st.stack);
    assert t.Operator? || t == LParen;
    assert st.stack == Pop(st.stack) + [t];
    FilterAppend(st.output, [t]);
    FilterAppend(Pop(st.stack), [t]);
    FilterSingle(t);
  }
}
