/** The operator alphabet shared by both pipelines (script.js:3-10 and
    script2.js:147, 168-173) and the expression tree they both evaluate. */
module Operators {

  import opened Basics

  /** The binary connectives: ∧ ∨ → △ ↔. */
  datatype Connective = And | Or | Implies | Xor | Iff

  /** A key of the operator table: negation or a binary connective. */
  datatype Op = Neg | Bin(c: Connective)

  function ConnectiveSymbol(c: Connective): char
  {
    match c
    case And => '∧'
    case Or => '∨'
    case Implies => '→'
    case Xor => '△'
    case Iff => '↔'
  }

  function Symbol(op: Op): char
  {
    match op
    case Neg => '¬'
    case Bin(c) => ConnectiveSymbol(c)
  }

  /** The operator whose symbol is `ch`, if any. */
  function SymbolOp(ch: char): (r: Option<Op>)
    ensures r.Some? ==> Symbol(r.value) == ch
    ensures forall op :: Symbol(op) == ch ==> r == Some(op)
  {
    if ch == '¬' then Some(Neg)
    else if ch == '∧' then Some(Bin(And))
    else if ch == '∨' then Some(Bin(Or))
    else if ch == '→' then Some(Bin(Implies))
    else if ch == '△' then Some(Bin(Xor))
    else if ch == '↔' then Some(Bin(Iff))
    else None
  }

  /** The `prec` column of the operator table. */
  function Prec(op: Op): nat
  {
    match op
    case Neg => 4
    case Bin(And) => 3
    case Bin(Or) => 2
    case Bin(Xor) => 2
    case Bin(Implies) => 1
    case Bin(Iff) => 1
  }

  /** The `assoc` column: ¬ and → are right-associative, the rest left. */
  predicate LeftAssoc(op: Op)
  {
    !(op == Neg || op == Bin(Implies))
  }

  /** The `fn` column for the binary connectives. */
  function Apply(c: Connective, a: bool, b: bool): bool
  {
    match c
    case And => a && b
    case Or => a || b
    case Implies => !a || b
    case Xor => a != b
    case Iff => a == b
  }

  /** An expression tree. */
  datatype Expr =
    | Atom(name: string)
    | Not(arg: Expr)
    | Binary(c: Connective, left: Expr, right: Expr)

  /** Every atom of `e` has a value in `ctx`. */
  predicate Bound(e: Expr, ctx: map<string, bool>)
  {
    match e
    case Atom(n) => n in ctx
    case Not(x) => Bound(x, ctx)
    case Binary(_, l, r) => Bound(l, ctx) && Bound(r, ctx)
  }

  /** The meaning of an expression under an assignment. */
  function Eval(e: Expr, ctx: map<string, bool>): bool
    requires Bound(e, ctx)
  {
    match e
    case Atom(n) => ctx[n]
    case Not(x) => !Eval(x, ctx)
    case Binary(c, l, r) => Apply(c, Eval(l, ctx), Eval(r, ctx))
  }

  /** Every atom of `e` is one of `vars`. */
  predicate AtomsIn(e: Expr, vars: seq<string>)
  {
    match e
    case Atom(n) => n in vars
    case Not(x) => AtomsIn(x, vars)
    case Binary(_, l, r) => AtomsIn(l, vars) && AtomsIn(r, vars)
  }
}
