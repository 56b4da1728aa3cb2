/** `evaluateLogicalExpression` of script2.js:127-188: the recursive
    evaluator that strips enclosing parentheses, splits at a main connective
    found by scanning for ↔, →, ∨ and ∧ in that order, and otherwise reads a
    negation or a variable. */
module SplitEvaluator {

  import opened Basics
  import opened Operators

  /** The characters the pattern `\s` matches. */
  predicate IsSpace(c: char)
  {
    || c == ' ' || c == '\t' || c == '\n' || c == '\r'
    || c == '\U{000B}' || c == '\U{000C}' || c == '\U{00A0}' || c == '\U{1680}'
    || ('\U{2000}' <= c <= '\U{200A}')
    || c == '\U{2028}' || c == '\U{2029}' || c == '\U{202F}' || c == '\U{205F}'
    || c == '\U{3000}' || c == '\U{FEFF}'
  }

  predicate SpaceFree(s: string)
  {
    forall i :: 0 <= i < |s| ==> !IsSpace(s[i])
  }

  /** `replace(/\s+/g, '')`. */
  function RemoveSpaces(s: string): (r: string)
    ensures |r| <= |s|
    ensures SpaceFree(r)
    ensures SpaceFree(s) ==> r == s
  {
    if |s| == 0 then []
    else
      var rest := RemoveSpaces(s[1..]);
      assert SpaceFree(s) ==> SpaceFree(s[1..]) by {
        if SpaceFree(s) {
          assert forall i :: 0 <= i < |s[1..]| ==> s[1..][i] == s[i + 1];
        }
      }
      (if IsSpace(s[0]) then [] else [s[0]]) + rest
  }

  /** How a character moves the nesting depth. Braces are ordinary
      characters here. */
  function ParenDelta(c: char): int
  {
    if c == '(' then 1 else if c == ')' then -1 else 0
  }

  /** The nesting depth after reading all of `s`. */
  function ParenDepth(s: string): int
  {
    if |s| == 0 then 0 else ParenDepth(s[..|s| - 1]) + ParenDelta(s[|s| - 1])
  }

  /** No prefix closes more than it opens and the whole closes all it opens. */
  predicate Nested(s: string)
  {
    && (forall k :: 0 <= k <= |s| ==> ParenDepth(s[..k]) >= 0)
    && ParenDepth(s) == 0
  }

  lemma ParenDepthStep(s: string, k: nat)
    requires k < |s|
    ensures ParenDepth(s[..k + 1]) == ParenDepth(s[..k]) + ParenDelta(s[k])
  {
    assert s[..k + 1][..k] == s[..k];
  }

  lemma {:induction false} DepthConcat(a: string, b: string)
    ensures ParenDepth(a + b) == ParenDepth(a) + ParenDepth(b)
    decreases |b|
  {
    if |b| == 0 {
      assert a + b == a;
    } else {
      var n := |b| - 1;
      assert (a + b)[..|a + b| - 1] == a + b[..n];
      DepthConcat(a, b[..n]);
    }
  }

  /** The depth of a prefix of `a + b`. */
  lemma DepthPrefix(a: string, b: string, k: nat)
    requires k <= |a| + |b|
    ensures ParenDepth((a + b)[..k]) ==
      if k <= |a| then ParenDepth(a[..k]) else ParenDepth(a) + ParenDepth(b[..k - |a|])
  {
    if k <= |a| {
      DepthPrefixLeft(a, b, k);
    } else {
      DepthPrefixRight(a, b, k);
    }
  }

  lemma DepthPrefixLeft(a: string, b: string, k: nat)
    requires k <= |a|
    ensures ParenDepth((a + b)[..k]) == ParenDepth(a[..k])
  {
    assert (a + b)[..k] == a[..k];
  }

  lemma DepthPrefixRight(a: string, b: string, k: nat)
    requires |a| < k <= |a| + |b|
    ensures ParenDepth((a + b)[..k]) == ParenDepth(a) + ParenDepth(b[..k - |a|])
  {
    var t := b[..k - |a|];
    assert (a + b)[..k] == a + t;
    DepthConcat(a, t);
  }

  lemma NestedConcat(a: string, b: string)
    requires Nested(a) && Nested(b)
    ensures Nested(a + b)
  {
    forall k | 0 <= k <= |a + b|
      ensures ParenDepth((a + b)[..k]) >= 0
    {
      DepthPrefix(a, b, k);
    }
    DepthConcat(a, b);
  }

  /** A text with no parenthesis at all. */
  predicate NoParens(s: string)
  {
    forall i :: 0 <= i < |s| ==> s[i] != '(' && s[i] != ')'
  }

  lemma {:induction false} NoParensDepth(s: string)
    requires NoParens(s)
    ensures ParenDepth(s) == 0
    decreases |s|
  {
    if |s| > 0 {
      NoParensDepth(s[..|s| - 1]);
    }
  }

  lemma NoParensNested(s: string)
    requires NoParens(s)
    ensures Nested(s)
  {
    forall k | 0 <= k <= |s|
      ensures ParenDepth(s[..k]) >= 0
    {
      NoParensDepth(s[..k]);
    }
    NoParensDepth(s);
  }

  /** Inside a wrapping pair the depth stays at one or more. */
  lemma WrapDepth(a: string, k: nat)
    requires Nested(a) && 0 < k <= |a| + 1
    ensures ParenDepth(("(" + a + ")")[..k]) == 1 + ParenDepth(a[..k - 1])
  {
    assert ("(" + a + ")")[..k] == "(" + a[..k - 1];
    DepthConcat("(", a[..k - 1]);
    assert "("[..0] == [];
  }

  lemma WrapTotal(a: string)
    requires Nested(a)
    ensures ParenDepth("(" + a + ")") == 0
  {
    DepthConcat("(" + a, ")");
    DepthConcat("(", a);
    assert "("[..0] == [] && ")"[..0] == [];
  }

  lemma NestedWrap(a: string)
    requires Nested(a)
    ensures Nested("(" + a + ")")
  {
    var w := "(" + a + ")";
    WrapTotal(a);
    forall k | 0 <= k <= |w|
      ensures ParenDepth(w[..k]) >= 0
    {
      if k == 0 {
        assert w[..k] == [];
      } else if k <= |a| + 1 {
        WrapDepth(a, k);
      } else {
        assert w[..k] == w;
      }
    }
  }

  /** The `for` loop of script2.js:132-140 from index `i`: the text fails
      as soon as the balance is back to zero before the last character. */
  function EnclosedLoop(s: string, i: nat, balance: int): bool
    requires i <= |s|
    decreases |s| - i
  {
    if i == |s| then true
    else
      var b := balance + ParenDelta(s[i]);
      if b == 0 && i != |s| - 1 then false else EnclosedLoop(s, i + 1, b)
  }

  predicate Enclosed(s: string)
  {
    EnclosedLoop(s, 0, 0)
  }

  lemma {:induction false} EnclosedLoopSpec(s: string, i: nat, balance: int)
    requires i <= |s| && balance == ParenDepth(s[..i])
    ensures EnclosedLoop(s, i, balance) <==> forall k :: i < k < |s| ==> ParenDepth(s[..k]) != 0
    decreases |s| - i
  {
    if i < |s| {
      ParenDepthStep(s, i);
      EnclosedLoopSpec(s, i + 1, balance + ParenDelta(s[i]));
    }
  }

  /** The loop accepts exactly when no proper non-empty prefix is balanced:
      the first character's parenthesis is closed by the last one. */
  lemma EnclosedIff(s: string)
    ensures Enclosed(s) <==> forall k :: 0 < k < |s| ==> ParenDepth(s[..k]) != 0
  {
    assert s[..0] == [];
    EnclosedLoopSpec(s, 0, 0);
  }

  /** The text opens with `(`, closes with `)`, and the check of
      script2.js:131-141 lets the pair go. */
  predicate Strippable(s: string)
  {
    |s| > 0 && s[0] == '(' && s[|s| - 1] == ')' && Enclosed(s)
  }

  /** The `while` loop of script2.js:130-143. */
  function StripOuter(s: string): (r: string)
    ensures |r| <= |s|
    ensures !Strippable(r)
    decreases |s|
  {
    if Strippable(s) then StripOuter(s[1..|s| - 1]) else s
  }

  /** The inner loop of script2.js:149-158 for connective symbol `o`, from
      index `i` with running depth `depth`: the hit position (if any) and
      the depth the scan leaves behind. */
  function Scan(s: string, o: char, i: nat, depth: int): (r: (Option<nat>, int))
    requires i <= |s|
    ensures r.0.Some? ==> i <= r.0.value < |s| && s[r.0.value] == o
    decreases |s| - i
  {
    if i == |s| then (None, depth)
    else
      var d := depth + ParenDelta(s[i]);
      if d == 0 && s[i] == o then (Some(i), d) else Scan(s, o, i + 1, d)
  }

  /** The connectives in the order they are looked for. */
  const BinaryOps: seq<Connective> := [Iff, Implies, Or, And]

  /** The outer loop of script2.js:148-160: the scans share one `depth`,
      which is not reset between connectives. */
  function FindOp(s: string, ops: seq<Connective>, depth: int): (r: Option<(nat, Connective)>)
    ensures r.Some? ==> r.value.0 < |s| && s[r.value.0] == ConnectiveSymbol(r.value.1) && r.value.1 in ops
  {
    if |ops| == 0 then None
    else
      var sc := Scan(s, ConnectiveSymbol(ops[0]), 0, depth);
      if sc.0.Some? then Some((sc.0.value, ops[0])) else FindOp(s, ops[1..], sc.1)
  }

  function MainOp(s: string): (r: Option<(nat, Connective)>)
    ensures r.Some? ==> r.value.0 < |s| && s[r.value.0] == ConnectiveSymbol(r.value.1) && r.value.1 in BinaryOps
  {
    FindOp(s, BinaryOps, 0)
  }

  /** `o` stands at index `k` with nesting depth `start` plus the depth of
      the text before it equal to zero. */
  predicate HitAt(s: string, o: char, start: int, k: nat)
  {
    k < |s| && s[k] == o && start + ParenDepth(s[..k + 1]) == 0
  }

  lemma {:induction false} ScanSpec(s: string, o: char, i: nat, start: int)
    requires i <= |s|
    ensures var r := Scan(s, o, i, start + ParenDepth(s[..i]));
      && (r.0.None? ==>
            && r.1 == start + ParenDepth(s)
            && forall k :: i <= k < |s| ==> !HitAt(s, o, start, k))
      && (r.0.Some? ==>
            && HitAt(s, o, start, r.0.value)
            && forall k :: i <= k < r.0.value ==> !HitAt(s, o, start, k))
    decreases |s| - i
  {
    if i == |s| {
      assert s[..i] == s;
    } else {
      ParenDepthStep(s, i);
      ScanSpec(s, o, i + 1, start);
    }
  }

  /** When the scan for the first connective misses, the scan for the
      next one starts at the depth the first left behind: the starting
      depth plus the depth of the whole text. */
  lemma FindOpMiss(s: string, ops: seq<Connective>, start: int)
    requires |ops| > 0 && Scan(s, ConnectiveSymbol(ops[0]), 0, start).0.None?
    ensures FindOp(s, ops, start) == FindOp(s, ops[1..], start + ParenDepth(s))
  {
    assert s[..0] == [];
    ScanSpec(s, ConnectiveSymbol(ops[0]), 0, start);
  }

  /** `c` stands at index `k`, outside every parenthesis. */
  predicate TopAt(s: string, k: nat, c: Connective)
  {
    k < |s| && s[k] == ConnectiveSymbol(c) && ParenDepth(s[..k]) == 0
  }

  /** The first index from `i` on where `c` stands outside every
      parenthesis. */
  function FirstTop(s: string, c: Connective, i: nat): (r: Option<nat>)
    requires i <= |s|
    ensures r.Some? ==> i <= r.value && TopAt(s, r.value, c) && forall k :: i <= k < r.value ==> !TopAt(s, k, c)
    ensures r.None? ==> forall k :: i <= k < |s| ==> !TopAt(s, k, c)
    decreases |s| - i
  {
    if i == |s| then None else if TopAt(s, i, c) then Some(i) else FirstTop(s, c, i + 1)
  }

  /** The first connective of `ops` that stands outside every parenthesis,
      at its first such place. */
  function Loosest(s: string, ops: seq<Connective>): Option<(nat, Connective)>
  {
    if |ops| == 0 then None
    else match FirstTop(s, ops[0], 0)
      case Some(k) => Some((k, ops[0]))
      case None => Loosest(s, ops[1..])
  }

  lemma HitIsTop(s: string, c: Connective, k: nat)
    requires k < |s|
    ensures HitAt(s, ConnectiveSymbol(c), 0, k) <==> TopAt(s, k, c)
  {
    ParenDepthStep(s, k);
  }

  /** A scan started at depth zero finds the first place outside every
      parenthesis. */
  lemma ScanFromZero(s: string, c: Connective)
    ensures Scan(s, ConnectiveSymbol(c), 0, 0).0 == FirstTop(s, c, 0)
  {
    assert s[..0] == [];
    ScanSpec(s, ConnectiveSymbol(c), 0, 0);
    forall k | 0 <= k < |s|
      ensures HitAt(s, ConnectiveSymbol(c), 0, k) <==> TopAt(s, k, c)
    {
      HitIsTop(s, c, k);
    }
  }

  /** On text whose parentheses even out every scan starts at depth zero,
      so the shared counter does no harm. */
  lemma {:induction false} FindOpBalanced(s: string, ops: seq<Connective>)
    requires ParenDepth(s) == 0
    ensures FindOp(s, ops, 0) == Loosest(s, ops)
    decreases |ops|
  {
    if |ops| > 0 {
      ScanFromZero(s, ops[0]);
      if FirstTop(s, ops[0], 0).None? {
        FindOpMiss(s, ops, 0);
        FindOpBalanced(s, ops[1..]);
      }
    }
  }

  /** The binding level: ↔ loosest, ∧ tightest. */
  function Level(c: Connective): nat
  {
    match c
    case Iff => 0
    case Implies => 1
    case Or => 2
    case And => 3
    case Xor => 4
  }

  /** On text whose parentheses even out, the main connective is the first
      occurrence outside all parentheses of the loosest connective that
      occurs there at all; without one there is no main connective. */
  lemma MainOpBalanced(s: string)
    requires ParenDepth(s) == 0
    ensures MainOp(s).None? ==>
      forall c, k :: c != Xor && 0 <= k < |s| ==> !TopAt(s, k, c)
    ensures MainOp(s).Some? ==>
      var (i, c) := MainOp(s).value;
      && TopAt(s, i, c)
      && (forall k :: 0 <= k < i ==> !TopAt(s, k, c))
      && (forall c', k :: Level(c') < Level(c) && 0 <= k < |s| ==> !TopAt(s, k, c'))
  {
    FindOpBalanced(s, BinaryOps);
    LoosestChain(s);
    var c0, c1, c2, c3 := FirstTop(s, Iff, 0), FirstTop(s, Implies, 0), FirstTop(s, Or, 0), FirstTop(s, And, 0);
    assert forall c :: Level(c) < 1 ==> c == Iff;
    assert forall c :: Level(c) < 2 ==> c == Iff || c == Implies;
    assert forall c :: Level(c) < 3 ==> c == Iff || c == Implies || c == Or;
  }

  /** The four scans of `BinaryOps` written out. */
  lemma LoosestChain(s: string)
    ensures Loosest(s, BinaryOps) ==
      var f0, f1, f2, f3 := FirstTop(s, Iff, 0), FirstTop(s, Implies, 0), FirstTop(s, Or, 0), FirstTop(s, And, 0);
      if f0.Some? then Some((f0.value, Iff))
      else if f1.Some? then Some((f1.value, Implies))
      else if f2.Some? then Some((f2.value, Or))
      else if f3.Some? then Some((f3.value, And))
      else None
  {
    var f0, f1, f2, f3 := FirstTop(s, Iff, 0), FirstTop(s, Implies, 0), FirstTop(s, Or, 0), FirstTop(s, And, 0);
    var l3 := if f3.Some? then Some((f3.value, And)) else None;
    var l2 := if f2.Some? then Some((f2.value, Or)) else l3;
    var l1 := if f1.Some? then Some((f1.value, Implies)) else l2;
    assert [And][1..] == [];
    assert Loosest(s, [And]) == l3;
    assert [Or, And][1..] == [And];
    assert Loosest(s, [Or, And]) == l2;
    assert [Implies, Or, And][1..] == [Or, And];
    assert Loosest(s, [Implies, Or, And]) == l1;
    assert BinaryOps[1..] == [Implies, Or, And];
  }

  /** `evaluate` of script2.js:129-185 on text without spaces; `Err` carries
      the text of the "Variable desconocida" error. */
  function EvalString(s: string, ctx: map<string, bool>): Result<bool, string>
    decreases |s|
  {
    var t := StripOuter(s);
    match MainOp(t)
    case Some((i, c)) =>
      var l :- EvalString(t[..i], ctx);
      var r :- EvalString(t[i + 1..], ctx);
      Ok(Apply(c, l, r))
    case None =>
      if |t| > 0 && t[0] == '¬' then
        var v :- EvalString(t[1..], ctx);
        Ok(!v)
      else if t in ctx then Ok(ctx[t])
      else Err(t)
  }

  /** `evaluateLogicalExpression`: spaces are removed once, up front. */
  function EvaluateLogicalExpression(expr: string, ctx: map<string, bool>): Result<bool, string>
  {
    EvalString(RemoveSpaces(expr), ctx)
  }

  /** The tree the evaluator walks: the same strip, split and negation
      steps, with whatever text is left over as an atom. */
  function Shape(s: string): Expr
    decreases |s|
  {
    var t := StripOuter(s);
    match MainOp(t)
    case Some((i, c)) => Binary(c, Shape(t[..i]), Shape(t[i + 1..]))
    case None =>
      if |t| > 0 && t[0] == '¬' then Not(Shape(t[1..])) else Atom(t)
  }

  /** The first atom, left to right, that has no value. */
  function FirstUnbound(e: Expr, ctx: map<string, bool>): (n: string)
    requires !Bound(e, ctx)
    ensures n !in ctx
  {
    match e
    case Atom(n) => n
    case Not(x) => FirstUnbound(x, ctx)
    case Binary(_, l, r) => if !Bound(l, ctx) then FirstUnbound(l, ctx) else FirstUnbound(r, ctx)
  }

  /** The evaluator computes the value of its tree, or reports the first
      atom without a value. */
  lemma {:induction false} EvalStringShape(s: string, ctx: map<string, bool>)
    ensures EvalString(s, ctx) ==
      if Bound(Shape(s), ctx) then Ok(Eval(Shape(s), ctx)) else Err(FirstUnbound(Shape(s), ctx))
    decreases |s|
  {
    var t := StripOuter(s);
    match MainOp(t)
    case Some((i, c)) =>
      EvalStringShape(t[..i], ctx);
      EvalStringShape(t[i + 1..], ctx);
    case None =>
      if |t| > 0 && t[0] == '¬' {
        EvalStringShape(t[1..], ctx);
      }
  }
}
