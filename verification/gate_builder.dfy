/** The gate-tree builder of script2.js:207-348 (`processSubExpression`,
    `isBalanced`, `gateMap`, `gateCounts`): the expression is split the way
    the evaluator splits it, one gate is opened per connective or negation,
    and each gate records its inputs and its connection to its parent. */
module GateBuilder {

  import opened Basics
  import opened Operators
  import opened SplitEvaluator
  import opened Printer

  /** The keys of `gateCounts` (script2.js:214-222). */
  datatype GateType = NOT | AND | OR | NOR | NAND | XOR | XNOR

  /** A gate input, or what the builder returns: the output of gate
      `gate<id>`, or a variable by name. */
  datatype Ref = GateOut(id: nat) | Wire(name: string)

  /** `inputSide`. */
  datatype Side = Left | Right | Single

  /** A pushed gate; its `output` field is never set by the builder. */
  datatype Gate = Gate(id: nat, kind: GateType, inputs: seq<Ref>)

  /** `{from, to, toInput}`: gate `from` feeds input `toInput` of gate `to`. */
  datatype Conn = Conn(from: nat, to: nat, toInput: Side)

  /** `parentGate` and `inputSide`; the outermost call passes neither. */
  datatype Parent = Root | Under(gate: nat, side: Side)

  /** The state `processSubExpression` updates: `gates`, `connections`,
      `gateCount` and `gateCounts`. */
  datatype Circuit = Circuit(gates: seq<Gate>, connections: seq<Conn>, gateCount: nat, tally: map<GateType, nat>)

  /** The state before the outermost call. */
  const EmptyCircuit: Circuit :=
    Circuit([], [], 0, map[NOT := 0, AND := 0, OR := 0, NOR := 0, NAND := 0, XOR := 0, XNOR := 0])

  /** `gateCounts[t]`. */
  function Count(m: map<GateType, nat>, t: GateType): nat
  {
    if t in m then m[t] else 0
  }

  /** `gateCounts[t]++`. */
  function Inc(m: map<GateType, nat>, t: GateType): (r: map<GateType, nat>)
    ensures forall u :: Count(r, u) == Count(m, u) + (if u == t then 1 else 0)
    ensures forall u :: u in m ==> u in r
  {
    m[t := Count(m, t) + 1]
  }

  /** `gates.find(g => g.id === id)`: the first gate with that id. */
  function FindGate(gates: seq<Gate>, id: nat): (r: Option<Gate>)
    ensures r.Some? ==> r.value.id == id && exists k :: 0 <= k < |gates| && gates[k] == r.value
    ensures r.None? ==> forall k :: 0 <= k < |gates| ==> gates[k].id != id
  {
    if |gates| == 0 then None
    else if gates[0].id == id then Some(gates[0])
    else
      var r := FindGate(gates[1..], id);
      assert r.Some? ==> gates[1..][0] in gates[1..];
      r
  }

  /** `gates.find(g => g.id === id).inputs = inputs`: the first gate with
      that id gets the inputs; a missing id leaves the list as it is. */
  function SetInputs(gates: seq<Gate>, id: nat, inputs: seq<Ref>): (r: seq<Gate>)
    ensures |r| == |gates|
    ensures forall k :: 0 <= k < |gates| ==> r[k].id == gates[k].id && r[k].kind == gates[k].kind
  {
    if |gates| == 0 then []
    else if gates[0].id == id then [gates[0].(inputs := inputs)] + gates[1..]
    else [gates[0]] + SetInputs(gates[1..], id, inputs)
  }

  /** `gateMap` (script2.js:20-26). It has no entry for △, which the
      splitter never reports; XOR stands there. */
  function GateMap(c: Connective): (t: GateType)
    ensures t != NOT && t != NAND && t != NOR
    ensures t == AND <==> c == And
    ensures t == XNOR <==> c == Iff
    ensures t == OR <==> c == Or || c == Implies
  {
    match c
    case And => AND
    case Or => OR
    case Implies => OR
    case Iff => XNOR
    case Xor => XOR
  }

  /** The parent gate exists and is a NOT gate. */
  predicate UnderNot(gates: seq<Gate>, parent: Parent)
  {
    parent.Under? && var g := FindGate(gates, parent.gate); g.Some? && g.value.kind == NOT
  }

  /** script2.js:265-275: ∨ and ∧ become NOR and NAND right under a NOT. */
  function GateKind(c: Connective, gates: seq<Gate>, parent: Parent): (t: GateType)
    ensures t == NAND <==> c == And && UnderNot(gates, parent)
    ensures t == NOR <==> c == Or && UnderNot(gates, parent)
    ensures t != NAND && t != NOR ==> t == GateMap(c)
  {
    if c == Or && UnderNot(gates, parent) then NOR
    else if c == And && UnderNot(gates, parent) then NAND
    else GateMap(c)
  }

  /** `gate${++gateCount}` pushed with no inputs and counted. */
  function Open(b: Circuit, kind: GateType): (r: Circuit)
    ensures r.gateCount == b.gateCount + 1 && r.connections == b.connections
    ensures r.gates == b.gates + [Gate(b.gateCount + 1, kind, [])]
    ensures forall u :: Count(r.tally, u) == Count(b.tally, u) + (if u == kind then 1 else 0)
  {
    Circuit(b.gates + [Gate(b.gateCount + 1, kind, [])], b.connections, b.gateCount + 1, Inc(b.tally, kind))
  }

  /** Gate `id` gets its inputs and, under a parent, one connection to it. */
  function Close(b: Circuit, id: nat, inputs: seq<Ref>, parent: Parent): (r: Circuit)
    ensures r.gateCount == b.gateCount && r.tally == b.tally
    ensures r.gates == SetInputs(b.gates, id, inputs)
    ensures r.connections ==
      b.connections + (if parent.Under? then [Conn(id, parent.gate, parent.side)] else [])
  {
    var c := b.(gates := SetInputs(b.gates, id, inputs));
    if parent.Under? then c.(connections := c.connections + [Conn(id, parent.gate, parent.side)]) else c
  }

  /** The loop of `isBalanced` (script2.js:340-348) from index `i`. */
  function BalancedFrom(s: string, i: nat, balance: int): bool
    requires i <= |s|
    decreases |s| - i
  {
    if i == |s| then balance == 0
    else
      var b := balance + ParenDelta(s[i]);
      if b < 0 then false else BalancedFrom(s, i + 1, b)
  }

  predicate IsBalanced(s: string)
  {
    BalancedFrom(s, 0, 0)
  }

  lemma {:induction false} BalancedFromSpec(s: string, i: nat, balance: int)
    requires i <= |s| && balance == ParenDepth(s[..i])
    requires forall k :: 0 <= k <= i ==> ParenDepth(s[..k]) >= 0
    ensures BalancedFrom(s, i, balance) <==> Nested(s)
    decreases |s| - i
  {
    if i == |s| {
      assert s[..i] == s;
    } else {
      ParenDepthStep(s, i);
      if balance + ParenDelta(s[i]) >= 0 {
        BalancedFromSpec(s, i + 1, balance + ParenDelta(s[i]));
      }
    }
  }

  /** `isBalanced` holds exactly when no prefix closes more than it opens
      and the whole closes all it opens. */
  lemma IsBalancedIff(s: string)
    ensures IsBalanced(s) <==> Nested(s)
  {
    assert s[..0] == [];
    BalancedFromSpec(s, 0, 0);
  }

  /** The condition of the `while` of script2.js:233-239. */
  predicate BuilderStrippable(s: string)
  {
    |s| >= 2 && s[0] == '(' && s[|s| - 1] == ')' && IsBalanced(s[1..|s| - 1])
  }

  /** The `while` of script2.js:233-239. */
  function BuilderStrip(s: string): (r: string)
    ensures |r| <= |s|
    ensures !BuilderStrippable(r)
    decreases |s|
  {
    if BuilderStrippable(s) then BuilderStrip(s[1..|s| - 1]) else s
  }

  /** `processSubExpression` (script2.js:229-337): the reference the call
      returns and the state after it, or the text it throws on. */
  function Process(s: string, parent: Parent, b: Circuit, vars: seq<string>): (r: Result<(Ref, Circuit), string>)
    ensures r.Err? ==> r.error !in vars
    ensures r.Ok? && r.value.0.Wire? ==> r.value.0.name in vars && r.value.1 == b
    ensures r.Ok? && r.value.0.GateOut? ==> r.value.0.id == b.gateCount + 1
    decreases |s|
  {
    var t := BuilderStrip(RemoveSpaces(s));
    match MainOp(t)
    case Some((i, c)) =>
      var id := b.gateCount + 1;
      var l :- Process(t[..i], Under(id, Left), Open(b, GateKind(c, b.gates, parent)), vars);
      var r :- Process(t[i + 1..], Under(id, Right), l.1, vars);
      Ok((GateOut(id), Close(r.1, id, [l.0, r.0], parent)))
    case None =>
      if |t| > 0 && t[0] == '¬' then
        var id := b.gateCount + 1;
        var x :- Process(t[1..], Under(id, Single), Open(b, NOT), vars);
        Ok((GateOut(id), Close(x.1, id, [x.0], parent)))
      else if t in vars then Ok((Wire(t), b))
      else Err(t)
  }

  /** The outermost call of script2.js:352. */
  function GenerateCircuit(expr: string, vars: seq<string>): Result<(Ref, Circuit), string>
  {
    Process(expr, Root, EmptyCircuit, vars)
  }

  /** The tree the builder walks. */
  function BuilderShape(s: string): Expr
    decreases |s|
  {
    var t := BuilderStrip(RemoveSpaces(s));
    match MainOp(t)
    case Some((i, c)) => Binary(c, BuilderShape(t[..i]), BuilderShape(t[i + 1..]))
    case None =>
      if |t| > 0 && t[0] == '¬' then Not(BuilderShape(t[1..])) else Atom(t)
  }

  /** The first atom, left to right, that is not a declared variable. */
  function FirstOutside(e: Expr, vars: seq<string>): (n: string)
    requires !AtomsIn(e, vars)
    ensures n !in vars
  {
    match e
    case Atom(n) => n
    case Not(x) => FirstOutside(x, vars)
    case Binary(_, l, r) => if !AtomsIn(l, vars) then FirstOutside(l, vars) else FirstOutside(r, vars)
  }

  /** ∧ or ∨: the connectives with a negated gate of their own. */
  predicate Fusable(e: Expr)
  {
    e.Binary? && (e.c == And || e.c == Or)
  }

  /** The builder on its tree. With `fuse` false this is what the code
      does; with `fuse` true a negated ∧ or ∨ becomes one NAND or NOR gate
      in place of a NOT gate over it. */
  function Emit(e: Expr, parent: Parent, b: Circuit, fuse: bool): (r: (Ref, Circuit))
    ensures r.0 == if e.Atom? then Wire(e.name) else GateOut(b.gateCount + 1)
    ensures e.Atom? ==> r.1 == b
    decreases e, 1
  {
    match e
    case Atom(n) => (Wire(n), b)
    case Not(x) =>
      if fuse && Fusable(x) then EmitGate(x, if x.c == And then NAND else NOR, parent, b, fuse)
      else EmitNot(x, parent, b, fuse)
    case Binary(c, _, _) =>
      EmitGate(e, if fuse then GateMap(c) else GateKind(c, b.gates, parent), parent, b, fuse)
  }

  /** The NOT gate of a negation: opened, fed by the operand, closed. */
  function EmitNot(x: Expr, parent: Parent, b: Circuit, fuse: bool): (r: (Ref, Circuit))
    ensures r.0 == GateOut(b.gateCount + 1)
    decreases Not(x), 0
  {
    var id := b.gateCount + 1;
    var a := Emit(x, Under(id, Single), Open(b, NOT), fuse);
    (GateOut(id), Close(a.1, id, [a.0], parent))
  }

  /** The gate of a connective: opened with type `kind`, fed by the left
      operand and then the right one, closed. */
  function EmitGate(node: Expr, kind: GateType, parent: Parent, b: Circuit, fuse: bool): (r: (Ref, Circuit))
    requires node.Binary?
    ensures r.0 == GateOut(b.gateCount + 1)
    decreases node, 0
  {
    var id := b.gateCount + 1;
    var l := Emit(node.left, Under(id, Left), Open(b, kind), fuse);
    var r := Emit(node.right, Under(id, Right), l.1, fuse);
    (GateOut(id), Close(r.1, id, [l.0, r.0], parent))
  }

  /** The builder is its tree emitted, or throws on the first undeclared
      atom of the tree. */
  lemma {:induction false} ProcessIsEmit(s: string, parent: Parent, b: Circuit, vars: seq<string>)
    ensures Process(s, parent, b, vars) == EmitChecked(BuilderShape(s), parent, b, vars)
    decreases |s|
  {
    var t := BuilderStrip(RemoveSpaces(s));
    match MainOp(t)
    case Some((i, c)) =>
      var id := b.gateCount + 1;
      var b1 := Open(b, GateKind(c, b.gates, parent));
      ProcessIsEmit(t[..i], Under(id, Left), b1, vars);
      var l := Process(t[..i], Under(id, Left), b1, vars);
      if l.Ok? {
        ProcessIsEmit(t[i + 1..], Under(id, Right), l.value.1, vars);
      }
      ProcessBinaryStep(s, i, c, parent, b, vars);
    case None =>
      if |t| > 0 && t[0] == '¬' {
        ProcessIsEmit(t[1..], Under(b.gateCount + 1, Single), Open(b, NOT), vars);
        ProcessNotStep(s, parent, b, vars);
      }
  }

  /** One step of `ProcessIsEmit` at a negation. */
  lemma ProcessNotStep(s: string, parent: Parent, b: Circuit, vars: seq<string>)
    requires var t := BuilderStrip(RemoveSpaces(s)); MainOp(t).None? && |t| > 0 && t[0] == '¬'
    requires var t := BuilderStrip(RemoveSpaces(s));
      Process(t[1..], Under(b.gateCount + 1, Single), Open(b, NOT), vars) ==
      EmitChecked(BuilderShape(t[1..]), Under(b.gateCount + 1, Single), Open(b, NOT), vars)
    ensures Process(s, parent, b, vars) == EmitChecked(BuilderShape(s), parent, b, vars)
  {
    var t := BuilderStrip(RemoveSpaces(s));
    assert BuilderShape(s) == Not(BuilderShape(t[1..]));
    NotChecked(BuilderShape(t[1..]), parent, b, vars);
  }

  /** One step of `ProcessIsEmit` at a connective. */
  lemma ProcessBinaryStep(s: string, i: nat, c: Connective, parent: Parent, b: Circuit, vars: seq<string>)
    requires var t := BuilderStrip(RemoveSpaces(s)); MainOp(t) == Some((i, c))
    requires var t := BuilderStrip(RemoveSpaces(s));
      var id := b.gateCount + 1;
      var b1 := Open(b, GateKind(c, b.gates, parent));
      var l := Process(t[..i], Under(id, Left), b1, vars);
      && l == EmitChecked(BuilderShape(t[..i]), Under(id, Left), b1, vars)
      && (l.Ok? ==> Process(t[i + 1..], Under(id, Right), l.value.1, vars) ==
                    EmitChecked(BuilderShape(t[i + 1..]), Under(id, Right), l.value.1, vars))
    ensures Process(s, parent, b, vars) == EmitChecked(BuilderShape(s), parent, b, vars)
  {
    var t := BuilderStrip(RemoveSpaces(s));
    assert BuilderShape(s) == Binary(c, BuilderShape(t[..i]), BuilderShape(t[i + 1..]));
    BinaryChecked(c, BuilderShape(t[..i]), BuilderShape(t[i + 1..]), parent, b, vars);
  }

  /** Emitting after the declaration check. */
  function EmitChecked(e: Expr, parent: Parent, b: Circuit, vars: seq<string>): (r: Result<(Ref, Circuit), string>)
    ensures r.Ok? <==> AtomsIn(e, vars)
  {
    if AtomsIn(e, vars) then Ok(Emit(e, parent, b, false)) else Err(FirstOutside(e, vars))
  }

  /** The checked emission of a negation checks and emits the operand,
      then closes the NOT gate. */
  lemma NotChecked(x: Expr, parent: Parent, b: Circuit, vars: seq<string>)
    ensures var id := b.gateCount + 1;
      var a := EmitChecked(x, Under(id, Single), Open(b, NOT), vars);
      EmitChecked(Not(x), parent, b, vars) ==
        if a.Err? then Err(a.error) else Ok((GateOut(id), Close(a.value.1, id, [a.value.0], parent)))
  {
    assert Emit(Not(x), parent, b, false) == EmitNot(x, parent, b, false);
  }

  /** The checked emission of a connective checks and emits the left
      operand, then the right one, then closes the gate. */
  lemma BinaryChecked(c: Connective, le: Expr, re: Expr, parent: Parent, b: Circuit, vars: seq<string>)
    ensures var id := b.gateCount + 1;
      var l := EmitChecked(le, Under(id, Left), Open(b, GateKind(c, b.gates, parent)), vars);
      EmitChecked(Binary(c, le, re), parent, b, vars) ==
        if l.Err? then Err(l.error)
        else
          var r := EmitChecked(re, Under(id, Right), l.value.1, vars);
          if r.Err? then Err(r.error)
          else Ok((GateOut(id), Close(r.value.1, id, [l.value.0, r.value.0], parent)))
  {
    var e := Binary(c, le, re);
    assert Emit(e, parent, b, false) == EmitGate(e, GateKind(c, b.gates, parent), parent, b, false);
  }

  /** Reading `(` + `m` + `)` up to index `j + 1` is reading `m` up to
      index `j` one level deeper. */
  lemma WrapPrefix(m: string, j: nat)
    requires j <= |m|
    ensures ParenDepth(("(" + m + ")")[..j + 1]) == 1 + ParenDepth(m[..j])
  {
    assert ("(" + m + ")")[..j + 1] == "(" + m[..j];
    DepthConcat("(", m[..j]);
    assert "("[..0] == [];
  }

  /** On balanced text the builder's strip condition and the evaluator's
      are the same. */
  lemma StrippableAgree(s: string)
    requires Nested(s)
    ensures BuilderStrippable(s) <==> Strippable(s)
  {
    if |s| >= 2 && s[0] == '(' && s[|s| - 1] == ')' {
      var m := s[1..|s| - 1];
      assert s == "(" + m + ")";
      IsBalancedIff(m);
      EnclosedIff(s);
      forall j | 0 <= j <= |m|
        ensures ParenDepth(s[..j + 1]) == 1 + ParenDepth(m[..j])
      {
        WrapPrefix(m, j);
      }
      assert s[..|s|] == s;
      assert ParenDepth(m) == 0 by {
        assert m[..|m|] == m;
        assert s[..|s| - 1] == s[..|m| + 1];
      }
      if Strippable(s) {
        forall j | 0 <= j <= |m|
          ensures ParenDepth(m[..j]) >= 0
        {
          assert ParenDepth(s[..j + 1]) != 0;
        }
      }
      if Nested(m) {
        forall k | 0 < k < |s|
          ensures ParenDepth(s[..k]) != 0
        {
          assert ParenDepth(s[..(k - 1) + 1]) == 1 + ParenDepth(m[..k - 1]);
        }
      }
    } else if |s| == 1 {
      assert !Strippable(s);
    }
  }

  /** On balanced text the builder strips exactly what the evaluator
      strips. */
  lemma {:induction false} StripAgree(s: string)
    requires Nested(s)
    ensures BuilderStrip(s) == StripOuter(s)
    decreases |s|
  {
    StrippableAgree(s);
    if BuilderStrippable(s) {
      IsBalancedIff(s[1..|s| - 1]);
      StripAgree(s[1..|s| - 1]);
    }
  }

  /** The builder reads a printed expression as the tree it came from. */
  lemma {:induction false} BuilderShapeOfPrint(e: Expr)
    requires Printable(e)
    ensures BuilderShape(Print(e)) == e
    decreases e, 0
  {
    var s := Print(e);
    BuilderStripPrint(e);
    PrintMainOp(e);
    match e
    case Atom(n) =>
      ShapeAtom(s);
    case Not(x) =>
      assert s == "¬" + PrintAt(x, 4);
      SplitParts("", '¬', PrintAt(x, 4));
      ShapeNeg(s);
      BuilderShapeOfPrintAt(x, 4);
    case Binary(c, l, r) =>
      var a, b := PrintAt(l, Level(c) + 1), PrintAt(r, Level(c));
      assert s == a + [ConnectiveSymbol(c)] + b;
      SplitParts(a, ConnectiveSymbol(c), b);
      ShapeSplit(s, |a|, c);
      BuilderShapeOfPrintAt(l, Level(c) + 1);
      BuilderShapeOfPrintAt(r, Level(c));
  }

  /** The two sides of a character in the middle of a text. */
  lemma SplitParts(a: string, o: char, b: string)
    ensures (a + [o] + b)[..|a|] == a && (a + [o] + b)[|a|] == o && (a + [o] + b)[|a| + 1..] == b
  {
  }

  /** One step of the builder's tree on a text it does not strip, with a
      main connective. */
  lemma ShapeSplit(s: string, i: nat, c: Connective)
    requires BuilderStrip(RemoveSpaces(s)) == s && MainOp(s) == Some((i, c))
    ensures BuilderShape(s) == Binary(c, BuilderShape(s[..i]), BuilderShape(s[i + 1..]))
  {
  }

  /** One step of the builder's tree on a negation it does not strip. */
  lemma ShapeNeg(s: string)
    requires BuilderStrip(RemoveSpaces(s)) == s && MainOp(s).None? && |s| > 0 && s[0] == '¬'
    ensures BuilderShape(s) == Not(BuilderShape(s[1..]))
  {
  }

  /** One step of the builder's tree on an atom it does not strip. */
  lemma ShapeAtom(s: string)
    requires BuilderStrip(RemoveSpaces(s)) == s && MainOp(s).None? && !(|s| > 0 && s[0] == '¬')
    ensures BuilderShape(s) == Atom(s)
  {
  }

  lemma {:induction false} BuilderShapeOfPrintAt(e: Expr, k: nat)
    requires Printable(e)
    ensures BuilderShape(PrintAt(e, k)) == e
    decreases e, 1
  {
    var u := PrintAt(e, k);
    PrintAtSpaceFree(e, k);
    PrintAtNested(e, k);
    StripAgree(u);
    StripPrintAt(e, k);
    BuilderStripPrint(e);
    SameStripSameShape(u, Print(e));
    BuilderShapeOfPrint(e);
  }

  /** Texts the builder strips to the same text have the same tree. */
  lemma SameStripSameShape(s: string, t: string)
    requires BuilderStrip(RemoveSpaces(s)) == BuilderStrip(RemoveSpaces(t))
    ensures BuilderShape(s) == BuilderShape(t)
  {
  }

  /** The builder leaves a printed expression as it is before splitting. */
  lemma BuilderStripPrint(e: Expr)
    requires Printable(e)
    ensures BuilderStrip(RemoveSpaces(Print(e))) == Print(e)
  {
    PrintSpaceFree(e);
    PrintNested(e);
    PrintNotStrippable(e);
    StripAgree(Print(e));
  }

}
