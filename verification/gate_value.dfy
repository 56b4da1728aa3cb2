/** What a drawn circuit computes: each gate applies its type to the
    values on its inputs, variables read the assignment. The builder only
    draws the circuit; this is the meaning the drawing stands for. */
module GateValue {

  import opened Basics
  import opened Operators
  import opened GateBuilder
  import opened GateFacts
  import opened Printer
  import opened SplitEvaluator

  /** The truth function of a gate type; a NOT gate ignores `b`. */
  function GateFn(kind: GateType, a: bool, b: bool): bool
  {
    match kind
    case NOT => !a
    case AND => a && b
    case OR => a || b
    case NOR => !(a || b)
    case NAND => !(a && b)
    case XOR => a != b
    case XNOR => a == b
  }

  /** Each connective's gate computes the connective, except →, which is
      drawn as an OR gate and so computes ∨. */
  lemma GateMapApply(c: Connective, a: bool, b: bool)
    ensures c != Implies ==> GateFn(GateMap(c), a, b) == Apply(c, a, b)
    ensures c == Implies ==> GateFn(GateMap(c), a, b) == (a || b)
  {
  }

  /** Every input that is a gate output comes from a gate numbered above
      `id`, so a value is always computed from later gates. */
  predicate Feeds(inputs: seq<Ref>, id: nat)
  {
    forall k :: 0 <= k < |inputs| ==> inputs[k].GateOut? ==> inputs[k].id > id
  }

  /** How far a reference is from the end of the gate list. */
  function RefRank(gates: seq<Gate>, r: Ref): nat
  {
    if r.GateOut? && 1 <= r.id <= |gates| then |gates| + 1 - r.id else 0
  }

  /** The value on a reference: a variable's value, or the gate's truth
      function applied to its inputs' values. None when a variable has no
      value, the gate is missing, it has the wrong number of inputs, or an
      input comes from a gate that is not numbered after it. */
  function RefValue(gates: seq<Gate>, r: Ref, ctx: map<string, bool>): Option<bool>
    decreases RefRank(gates, r)
  {
    match r
    case Wire(n) => if n in ctx then Some(ctx[n]) else None
    case GateOut(id) =>
      if !(1 <= id <= |gates|) then None
      else
        var g := gates[id - 1];
        if |g.inputs| != Arity(g.kind) || !Feeds(g.inputs, id) then None
        else
          var a := RefValue(gates, g.inputs[0], ctx);
          if a.None? then None
          else if g.kind == NOT then Some(!a.value)
          else
            var c := RefValue(gates, g.inputs[1], ctx);
            if c.None? then None else Some(GateFn(g.kind, a.value, c.value))
  }

  /** A value read from gates numbered above `lo` survives any change to
      the gates numbered `lo` or below and any gates added at the end. */
  lemma {:induction false} RefValueFrame(g1: seq<Gate>, g2: seq<Gate>, r: Ref, ctx: map<string, bool>, lo: nat)
    requires RefValue(g1, r, ctx).Some? && (r.GateOut? ==> r.id > lo) && AgreeFrom(g1, g2, lo)
    ensures RefValue(g2, r, ctx) == RefValue(g1, r, ctx)
    decreases RefRank(g1, r)
  {
    match r
    case Wire(_) =>
    case GateOut(id) =>
      var g := g1[id - 1];
      assert g2[id - 1] == g;
      RefValueFrame(g1, g2, g.inputs[0], ctx, lo);
      if g.kind != NOT {
        RefValueFrame(g1, g2, g.inputs[1], ctx, lo);
      }
  }

  /** `g2` has the gates of `g1` from index `lo` on, and maybe more. */
  predicate AgreeFrom(g1: seq<Gate>, g2: seq<Gate>, lo: nat)
  {
    |g1| <= |g2| && forall k :: lo <= k < |g1| ==> g2[k] == g1[k]
  }

  /** Gates kept and then gate `id` closed: the gates above `id` agree. */
  lemma CloseAgree(g1: seq<Gate>, g2: seq<Gate>, id: nat, closed: Gate)
    requires Keeps(g1, g2) && 1 <= id <= |g2|
    ensures AgreeFrom(g1, g2[id - 1 := closed], id)
  {
  }

  /** Two inputs, each a variable or the gate opened right after `id`
      or after `mid`. */
  lemma FeedsPair(x: Ref, y: Ref, id: nat, mid: nat)
    requires (x.GateOut? ==> x.id == id + 1) && (y.GateOut? ==> y.id == mid + 1) && id <= mid
    ensures Feeds([x, y], id)
  {
  }

  /** The value on a closed gate, from the values on its inputs. */
  lemma ClosedValue(g: seq<Gate>, id: nat, kind: GateType, inputs: seq<Ref>, ctx: map<string, bool>, a: bool, b: bool)
    requires 1 <= id <= |g| && g[id - 1] == Gate(id, kind, inputs)
    requires |inputs| == Arity(kind) && Feeds(inputs, id)
    requires RefValue(g, inputs[0], ctx) == Some(a)
    requires kind != NOT ==> RefValue(g, inputs[1], ctx) == Some(b)
    ensures RefValue(g, GateOut(id), ctx) == Some(GateFn(kind, a, b))
  {
  }

  /** Closing a two-input gate over the left operand's output `x`
      (computed on `g1`) and the right operand's output `y` (computed on
      `g2`, which keeps `g1`). */
  lemma CloseGateValue(g1: seq<Gate>, g2: seq<Gate>, g3: seq<Gate>, id: nat, kind: GateType,
                       x: Ref, y: Ref, ctx: map<string, bool>, a: bool, b: bool)
    requires Keeps(g1, g2) && 1 <= id <= |g1| && kind != NOT
    requires g3 == g2[id - 1 := Gate(id, kind, [x, y])]
    requires RefValue(g1, x, ctx) == Some(a) && RefValue(g2, y, ctx) == Some(b)
    requires (x.GateOut? ==> x.id == id + 1) && (y.GateOut? ==> y.id == |g1| + 1)
    ensures RefValue(g3, GateOut(id), ctx) == Some(GateFn(kind, a, b))
  {
    CloseAgree(g1, g2, id, Gate(id, kind, [x, y]));
    CloseAgree(g2, g2, id, Gate(id, kind, [x, y]));
    RefValueFrame(g1, g3, x, ctx, id);
    RefValueFrame(g2, g3, y, ctx, id);
    FeedsPair(x, y, id, |g1|);
    ClosedValue(g3, id, kind, [x, y], ctx, a, b);
  }

  /** No → anywhere in the tree. */
  predicate NoImplies(e: Expr)
  {
    match e
    case Atom(_) => true
    case Not(x) => NoImplies(x)
    case Binary(c, l, r) => c != Implies && NoImplies(l) && NoImplies(r)
  }

  /** With fusion the emitted circuit computes the tree: the value on the
      call's output is the expression's value. */
  lemma {:induction false} FusedComputes(e: Expr, parent: Parent, b: Circuit, ctx: map<string, bool>)
    requires Numbered(b) && NoImplies(e) && Bound(e, ctx)
    ensures var r := Emit(e, parent, b, true);
      RefValue(r.1.gates, r.0, ctx) == Some(Eval(e, ctx))
    decreases e, 1
  {
    match e
    case Atom(_) =>
    case Not(x) =>
      if Fusable(x) {
        var kind := if x.c == And then NAND else NOR;
        GateComputes(x, kind, parent, b, ctx);
        assert Emit(e, parent, b, true) == EmitGate(x, kind, parent, b, true);
      } else {
        NotComputes(x, parent, b, ctx);
      }
    case Binary(c, _, _) =>
      GateComputes(e, GateMap(c), parent, b, ctx);
      GateMapApply(c, Eval(e.left, ctx), Eval(e.right, ctx));
  }

  lemma {:induction false} NotComputes(x: Expr, parent: Parent, b: Circuit, ctx: map<string, bool>)
    requires Numbered(b) && NoImplies(x) && Bound(x, ctx) && !Fusable(x)
    ensures var r := EmitNot(x, parent, b, true);
      RefValue(r.1.gates, r.0, ctx) == Some(!Eval(x, ctx))
    decreases Not(x), 0
  {
    var id := b.gateCount + 1;
    var b1 := Open(b, NOT);
    OpenNumbered(b, NOT);
    EmitGrows(x, Under(id, Single), b1, true);
    FusedComputes(x, Under(id, Single), b1, ctx);
    var a := Emit(x, Under(id, Single), b1, true);
    SetInputsNumbered(a.1, id, [a.0]);
    var r := Close(a.1, id, [a.0], parent);
    assert r == EmitNot(x, parent, b, true).1;
    assert r.gates == a.1.gates[id - 1 := Gate(id, NOT, [a.0])];
    CloseAgree(a.1.gates, a.1.gates, id, Gate(id, NOT, [a.0]));
    RefValueFrame(a.1.gates, r.gates, a.0, ctx, id);
    ClosedValue(r.gates, id, NOT, [a.0], ctx, Eval(x, ctx), false);
  }

  lemma {:induction false} GateComputes(node: Expr, kind: GateType, parent: Parent, b: Circuit, ctx: map<string, bool>)
    requires node.Binary? && Numbered(b) && NoImplies(node.left) && NoImplies(node.right)
    requires Bound(node.left, ctx) && Bound(node.right, ctx) && kind != NOT
    ensures var r := EmitGate(node, kind, parent, b, true);
      RefValue(r.1.gates, r.0, ctx) == Some(GateFn(kind, Eval(node.left, ctx), Eval(node.right, ctx)))
    decreases node, 0
  {
    var id := b.gateCount + 1;
    var b1 := Open(b, kind);
    OpenNumbered(b, kind);
    EmitGrows(node.left, Under(id, Left), b1, true);
    FusedComputes(node.left, Under(id, Left), b1, ctx);
    var l := Emit(node.left, Under(id, Left), b1, true);
    EmitGrows(node.right, Under(id, Right), l.1, true);
    FusedComputes(node.right, Under(id, Right), l.1, ctx);
    var d := Emit(node.right, Under(id, Right), l.1, true);
    SetInputsNumbered(d.1, id, [l.0, d.0]);
    var r := Close(d.1, id, [l.0, d.0], parent);
    assert r == EmitGate(node, kind, parent, b, true).1;
    assert r.gates == d.1.gates[id - 1 := Gate(id, kind, [l.0, d.0])];
    assert l.1.gateCount >= id;
    CloseGateValue(l.1.gates, d.1.gates, r.gates, id, kind, l.0, d.0, ctx, Eval(node.left, ctx), Eval(node.right, ctx));
  }

  /** The builder with a negated ∧ or ∨ drawn as one NAND or NOR gate in
      place of the NOT gate over it; otherwise as `GenerateCircuit`. */
  function FusedCircuit(expr: string, vars: seq<string>): (r: Result<(Ref, Circuit), string>)
    ensures r.Ok? <==> AtomsIn(BuilderShape(expr), vars)
    ensures r.Err? ==> r.error !in vars
  {
    var e := BuilderShape(expr);
    if AtomsIn(e, vars) then Ok(Emit(e, Root, EmptyCircuit, true)) else Err(FirstOutside(e, vars))
  }

  /** The fused circuit is well-formed and computes the expression's tree. */
  lemma FusedCircuitComputes(expr: string, vars: seq<string>, ctx: map<string, bool>)
    requires FusedCircuit(expr, vars).Ok? && NoImplies(BuilderShape(expr)) && Bound(BuilderShape(expr), ctx)
    ensures var r := FusedCircuit(expr, vars).value;
      WellFormed(r.0, r.1) && RefValue(r.1.gates, r.0, ctx) == Some(Eval(BuilderShape(expr), ctx))
  {
    var e := BuilderShape(expr);
    EmptyTallied();
    EmitWellFormed(e, true);
    FusedComputes(e, Root, EmptyCircuit, ctx);
  }

  /** On a printed expression without → whose atoms are all declared, the
      fused circuit gives the value the evaluator gives to the same text. */
  lemma FusedAgreesWithEvaluator(e: Expr, vars: seq<string>, ctx: map<string, bool>)
    requires Printable(e) && NoImplies(e) && AtomsIn(e, vars) && Bound(e, ctx)
    ensures FusedCircuit(Print(e), vars).Ok?
    ensures var r := FusedCircuit(Print(e), vars).value;
      RefValue(r.1.gates, r.0, ctx).Some? &&
      EvaluateLogicalExpression(Print(e), ctx) == Ok(RefValue(r.1.gates, r.0, ctx).value)
  {
    BuilderShapeOfPrint(e);
    EvaluatesPrinted(e, ctx);
    FusedCircuitComputes(Print(e), vars, ctx);
  }

  /** The text ¬(p∧q), printed from its tree. */
  lemma PrintNotAnd()
    ensures Printable(Not(Binary(And, Atom("p"), Atom("q"))))
    ensures Print(Not(Binary(And, Atom("p"), Atom("q")))) == "¬(p∧q)"
  {
    var x := Binary(And, Atom("p"), Atom("q"));
    assert PlainName("p") && PlainName("q");
    assert PrintAt(Atom("p"), 4) == "p" && PrintAt(Atom("q"), 3) == "q";
    assert Print(x) == "p∧q";
    assert PrintAt(x, 4) == "(p∧q)";
  }

  /** The builder on printed text is the builder on the printed tree. */
  lemma GenerateOfPrint(e: Expr, vars: seq<string>)
    requires Printable(e)
    ensures GenerateCircuit(Print(e), vars) == EmitChecked(e, Root, EmptyCircuit, vars)
  {
    BuilderShapeOfPrint(e);
    ProcessIsEmit(Print(e), Root, EmptyCircuit, vars);
  }

  /** The inputs of the second of two gates are filled in. */
  lemma SetSecond(g1: Gate, g2: Gate, inputs: seq<Ref>)
    requires g1.id != g2.id
    ensures SetInputs([g1, g2], g2.id, inputs) == [g1, g2.(inputs := inputs)]
  {
    assert [g1, g2][1..] == [g2];
  }

  /** The inputs of the first of two gates are filled in. */
  lemma SetFirst(g1: Gate, g2: Gate, inputs: seq<Ref>)
    ensures SetInputs([g1, g2], g1.id, inputs) == [g1.(inputs := inputs), g2]
  {
    assert [g1, g2][1..] == [g2];
  }

  /** The tree of ¬(p∧q) emitted as the code does on an empty circuit: a
      NOT gate and, under it, a NAND gate. */
  lemma EmitNotAnd(p: string, q: string, b: Circuit)
    requires b.gates == [] && b.gateCount == 0
    ensures var r := Emit(Not(Binary(And, Atom(p), Atom(q))), Root, b, false);
      && r.0 == GateOut(1)
      && r.1.gates == [Gate(1, NOT, [GateOut(2)]), Gate(2, NAND, [Wire(p), Wire(q)])]
      && r.1.connections == b.connections + [Conn(2, 1, Single)]
  {
    var x := Binary(And, Atom(p), Atom(q));
    var b1 := Open(b, NOT);
    assert b1.gates == [Gate(1, NOT, [])];
    assert GateKind(And, b1.gates, Under(1, Single)) == NAND;
    var b2 := Open(b1, NAND);
    SetSecond(Gate(1, NOT, []), Gate(2, NAND, []), [Wire(p), Wire(q)]);
    var d := Close(b2, 2, [Wire(p), Wire(q)], Under(1, Single));
    assert Emit(x, Under(1, Single), b1, false) == (GateOut(2), d);
    SetFirst(Gate(1, NOT, []), Gate(2, NAND, [Wire(p), Wire(q)]), [GateOut(2)]);
    var c := Close(d, 1, [GateOut(2)], Root);
    assert EmitNot(x, Root, b, false) == (GateOut(1), c);
  }

  /** A NOT gate over a NAND gate computes the ∧ of the NAND's inputs. */
  lemma NotOverNand(p: string, q: string, ctx: map<string, bool>)
    requires p in ctx && q in ctx
    ensures RefValue([Gate(1, NOT, [GateOut(2)]), Gate(2, NAND, [Wire(p), Wire(q)])], GateOut(1), ctx)
      == Some(ctx[p] && ctx[q])
  {
    var gates := [Gate(1, NOT, [GateOut(2)]), Gate(2, NAND, [Wire(p), Wire(q)])];
    assert Feeds(gates[1].inputs, 2);
    assert RefValue(gates, GateOut(2), ctx) == Some(!(ctx[p] && ctx[q]));
    assert Feeds(gates[0].inputs, 1);
  }

  /** ¬(p∧q), for any two variables, as the builder draws it: a NOT gate
      over a NAND gate, so the drawing computes p∧q; with p true and q
      false it gives false. */
  lemma AsWrittenNotAnd(p: string, q: string)
    requires PlainName(p) && PlainName(q) && p != q
    ensures var r := GenerateCircuit(Print(Not(Binary(And, Atom(p), Atom(q)))), [p, q]);
      && r.Ok?
      && r.value.0 == GateOut(1)
      && r.value.1.gates == [Gate(1, NOT, [GateOut(2)]), Gate(2, NAND, [Wire(p), Wire(q)])]
      && r.value.1.connections == [Conn(2, 1, Single)]
      && RefValue(r.value.1.gates, GateOut(1), map[p := true, q := false]) == Some(false)
  {
    var e := Not(Binary(And, Atom(p), Atom(q)));
    GenerateOfPrint(e, [p, q]);
    assert AtomsIn(e, [p, q]);
    EmitNotAnd(p, q, EmptyCircuit);
    NotOverNand(p, q, map[p := true, q := false]);
  }

  /** The evaluator, on the same text and assignment, gives true. */
  lemma EvaluatesNotAnd(p: string, q: string)
    requires PlainName(p) && PlainName(q) && p != q
    ensures EvaluateLogicalExpression(Print(Not(Binary(And, Atom(p), Atom(q)))), map[p := true, q := false]) == Ok(true)
  {
    var e := Not(Binary(And, Atom(p), Atom(q)));
    var ctx := map[p := true, q := false];
    assert Printable(e) && Bound(e, ctx);
    assert Eval(e.arg, ctx) == (ctx[p] && ctx[q]);
    EvaluatesPrinted(e, ctx);
  }

  /** The tree of ¬(p∧q) emitted with fusion on an empty circuit: one
      NAND gate. */
  lemma FusedEmitNotAnd(p: string, q: string, b: Circuit)
    requires b.gates == [] && b.gateCount == 0
    ensures var r := Emit(Not(Binary(And, Atom(p), Atom(q))), Root, b, true);
      r.0 == GateOut(1) && r.1.gates == [Gate(1, NAND, [Wire(p), Wire(q)])]
  {
    var x := Binary(And, Atom(p), Atom(q));
    var b1 := Open(b, NAND);
    assert b1.gates == [Gate(1, NAND, [])];
    assert Emit(Atom(p), Under(1, Left), b1, true) == (Wire(p), b1);
    assert Emit(Atom(q), Under(1, Right), b1, true) == (Wire(q), b1);
    var c := Close(b1, 1, [Wire(p), Wire(q)], Root);
    assert c.gates == [Gate(1, NAND, [Wire(p), Wire(q)])];
    assert EmitGate(x, NAND, Root, b, true) == (GateOut(1), c);
  }

  /** The fused builder on printed text is the fused builder on the tree. */
  lemma FusedOfPrint(e: Expr, vars: seq<string>)
    requires Printable(e)
    ensures FusedCircuit(Print(e), vars).Ok? <==> AtomsIn(e, vars)
    ensures FusedCircuit(Print(e), vars).Ok? ==> FusedCircuit(Print(e), vars).value == Emit(e, Root, EmptyCircuit, true)
  {
    BuilderShapeOfPrint(e);
  }

  /** A lone NAND gate computes the NAND of its inputs. */
  lemma LoneNand(p: string, q: string, ctx: map<string, bool>)
    requires p in ctx && q in ctx
    ensures RefValue([Gate(1, NAND, [Wire(p), Wire(q)])], GateOut(1), ctx) == Some(!(ctx[p] && ctx[q]))
  {
    var gates := [Gate(1, NAND, [Wire(p), Wire(q)])];
    assert Feeds(gates[0].inputs, 1);
  }

  /** The same text drawn with fusion: one NAND gate, which gives true. */
  lemma FusedNotAnd(p: string, q: string)
    requires PlainName(p) && PlainName(q) && p != q
    ensures var r := FusedCircuit(Print(Not(Binary(And, Atom(p), Atom(q)))), [p, q]);
      && r.Ok?
      && r.value.0 == GateOut(1)
      && r.value.1.gates == [Gate(1, NAND, [Wire(p), Wire(q)])]
      && RefValue(r.value.1.gates, GateOut(1), map[p := true, q := false]) == Some(true)
  {
    var e := Not(Binary(And, Atom(p), Atom(q)));
    FusedOfPrint(e, [p, q]);
    assert AtomsIn(e, [p, q]);
    FusedEmitNotAnd(p, q, EmptyCircuit);
    LoneNand(p, q, map[p := true, q := false]);
  }
}
