/** The postfix stack evaluator of script.js:106-127. */
module StackEvaluator {

  import opened Basics
  import opened Operators
  import opened Tokenizer
  import opened ShuntingYard

  /** The loop at script.js:110-124 run from stack `st`: ¬ pops one value,
      a binary connective pops `b` then `a` and pushes `fn(a, b)`, a variable
      pushes its value. `None` marks the runs on which the original goes on
      with `undefined` (a pop from an empty stack, a parenthesis token, a
      variable missing from the context); those are not modelled. */
  function Run(ts: seq<Token>, ctx: map<string, bool>, st: seq<bool>): Option<seq<bool>>
    decreases |ts|
  {
    if |ts| == 0 then Some(st)
    else match ts[0]
      case Operator(Neg) =>
        if |st| < 1 then None
        else Run(ts[1..], ctx, st[..|st| - 1] + [!st[|st| - 1]])
      case Operator(Bin(c)) =>
        if |st| < 2 then None
        else
          var b := st[|st| - 1];
          var a := st[|st| - 2];
          Run(ts[1..], ctx, st[..|st| - 2] + [Apply(c, a, b)])
      case Var(n) =>
        if n in ctx then Run(ts[1..], ctx, st + [ctx[n]]) else None
      case LParen => None
      case RParen => None
  }

  /** Stack height after `ts` from height `d`, or `None` on underflow or a
      parenthesis: the arity discipline of postfix. */
  function Height(ts: seq<Token>, d: nat): Option<nat>
    decreases |ts|
  {
    if |ts| == 0 then Some(d)
    else match ts[0]
      case Operator(Neg) => if d < 1 then None else Height(ts[1..], d)
      case Operator(Bin(_)) => if d < 2 then None else Height(ts[1..], d - 1)
      case Var(_) => Height(ts[1..], d + 1)
      case LParen => None
      case RParen => None
  }

  /** Postfix that leaves exactly one value on the stack. */
  predicate WellFormedPostfix(ts: seq<Token>)
  {
    Height(ts, 0) == Some(1)
  }

  predicate VarsBound(ts: seq<Token>, ctx: map<string, bool>)
  {
    forall i :: 0 <= i < |ts| && ts[i].Var? ==> ts[i].name in ctx
  }

  /** The run succeeds exactly when the arity discipline holds and every
      variable has a value, and it then leaves as many values as `Height`
      predicts. */
  lemma {:induction false} RunHeight(ts: seq<Token>, ctx: map<string, bool>, st: seq<bool>)
    ensures Run(ts, ctx, st).Some? <==> Height(ts, |st|).Some? && VarsBound(ts, ctx)
    ensures Run(ts, ctx, st).Some? ==> |Run(ts, ctx, st).value| == Height(ts, |st|).value
    decreases |ts|
  {
    if |ts| > 0 {
      VarsBoundTail(ts, ctx);
      match ts[0]
      case Operator(Neg) =>
        if |st| >= 1 {
          RunHeight(ts[1..], ctx, st[..|st| - 1] + [!st[|st| - 1]]);
        }
      case Operator(Bin(c)) =>
        if |st| >= 2 {
          RunHeight(ts[1..], ctx, st[..|st| - 2] + [Apply(c, st[|st| - 2], st[|st| - 1])]);
        }
      case Var(n) =>
        if n in ctx {
          RunHeight(ts[1..], ctx, st + [ctx[n]]);
        }
      case LParen =>
      case RParen =>
    }
  }

  /** The variables are bound when the first token's is and the rest's are. */
  lemma VarsBoundTail(ts: seq<Token>, ctx: map<string, bool>)
    requires |ts| > 0
    ensures VarsBound(ts, ctx) <==> (ts[0].Var? ==> ts[0].name in ctx) && VarsBound(ts[1..], ctx)
  {
    assert forall i :: 1 <= i < |ts| ==> ts[i] == ts[1..][i - 1];
  }

  /** `evaluateParsedExpression` after the shunting-yard pass: the value at
      the bottom of the stack (`stack[0]`). On well-formed postfix whose
      variables all have values the result is defined and exactly one value
      remains, so the bottom is also the top. */
  function EvalPostfix(ts: seq<Token>, ctx: map<string, bool>): (r: Option<bool>)
    ensures WellFormedPostfix(ts) && VarsBound(ts, ctx) ==>
      && r.Some?
      && Run(ts, ctx, []).Some?
      && |Run(ts, ctx, []).value| == 1
      && r.value == Run(ts, ctx, []).value[0]
  {
    RunHeight(ts, ctx, []);
    match Run(ts, ctx, [])
    case Some(st) => if |st| > 0 then Some(st[0]) else None
    case None => None
  }

  /** script.js:106-127 on an expression string. */
  function EvaluateParsedExpression(expr: string, ctx: map<string, bool>): Option<bool>
  {
    EvalPostfix(Shunt(Tokenize(expr)), ctx)
  }
}
