/** What the gate builder promises about the circuit it leaves behind:
    pre-order numbering, one connection per non-output gate, the right
    number of inputs per gate, counters that add up, and NAND/NOR only
    under a NOT gate that is kept. */
module GateFacts {

  import opened Basics
  import opened Operators
  import opened GateBuilder

  /** Gate `k` of the list is `gate<k+1>`, and `gateCount` is the length. */
  predicate Numbered(b: Circuit)
  {
    b.gateCount == |b.gates| && forall k :: 0 <= k < |b.gates| ==> b.gates[k].id == k + 1
  }

  /** `after` starts with `before`. */
  predicate Keeps<T(==)>(before: seq<T>, after: seq<T>)
  {
    |before| <= |after| && forall k :: 0 <= k < |before| ==> after[k] == before[k]
  }

  /** A NOT gate takes one input, every other gate two. */
  function Arity(t: GateType): nat
  {
    if t == NOT then 1 else 2
  }

  /** The number of gates of type `t`. */
  function KindCount(gates: seq<Gate>, t: GateType): (n: nat)
    ensures n <= |gates|
  {
    if |gates| == 0 then 0
    else KindCount(gates[..|gates| - 1], t) + (if gates[|gates| - 1].kind == t then 1 else 0)
  }

  /** The counters match the gates. */
  predicate Tallied(b: Circuit)
  {
    forall t :: Count(b.tally, t) == KindCount(b.gates, t)
  }

  /** The sum of all seven counters. */
  function TallySum(m: map<GateType, nat>): nat
  {
    Count(m, NOT) + Count(m, AND) + Count(m, OR) + Count(m, NOR) + Count(m, NAND) + Count(m, XOR) + Count(m, XNOR)
  }

  /** The number of gates the builder opens for `e`. */
  function GateSize(e: Expr, fuse: bool): (n: nat)
    ensures n == 0 <==> e.Atom?
  {
    match e
    case Atom(_) => 0
    case Not(x) =>
      if fuse && Fusable(x) then 1 + GateSize(x.left, fuse) + GateSize(x.right, fuse)
      else 1 + GateSize(x, fuse)
    case Binary(_, l, r) => 1 + GateSize(l, fuse) + GateSize(r, fuse)
  }

  /** Every connection comes from a gate numbered in `(lo, hi]` and goes
      to a gate with a smaller number. */
  predicate FromsIn(cs: seq<Conn>, lo: nat, hi: nat)
  {
    forall j :: 0 <= j < |cs| ==> lo < cs[j].from <= hi && cs[j].to < cs[j].from
  }

  /** No gate feeds two connections. */
  predicate DistinctFroms(cs: seq<Conn>)
  {
    forall i, j :: 0 <= i < j < |cs| ==> cs[i].from != cs[j].from
  }

  /** A NAND or NOR gate at index `k` sits right after a NOT gate whose
      only input is that gate. */
  predicate Upgraded(gates: seq<Gate>, k: nat)
    requires k < |gates|
  {
    (gates[k].kind == NAND || gates[k].kind == NOR) ==>
      k > 0 && gates[k - 1].kind == NOT && gates[k - 1].inputs == [GateOut(k + 1)]
  }

  lemma {:induction false} SetInputsAt(gates: seq<Gate>, id: nat, inputs: seq<Ref>, j: nat)
    requires j < |gates| && gates[j].id == id
    requires forall k :: 0 <= k < j ==> gates[k].id != id
    ensures SetInputs(gates, id, inputs) == gates[j := gates[j].(inputs := inputs)]
    decreases j
  {
    var u := gates[j].(inputs := inputs);
    if j > 0 {
      var t := gates[1..];
      forall k | 0 <= k < j - 1
        ensures t[k].id != id
      {
        assert t[k] == gates[k + 1];
      }
      SetInputsAt(t, id, inputs, j - 1);
      assert t[j - 1] == gates[j];
      UpdateCons(gates, j, u);
    } else {
      UpdateCons(gates, 0, u);
    }
  }

  /** Updating a non-empty list is updating its head or its tail. */
  lemma UpdateCons<T>(s: seq<T>, j: nat, u: T)
    requires j < |s|
    ensures j == 0 ==> s[j := u] == [u] + s[1..]
    ensures j > 0 ==> s[j := u] == [s[0]] + s[1..][j - 1 := u]
  {
  }

  /** On a numbered list, `find` by id is indexing. */
  lemma {:induction false} FindAt(gates: seq<Gate>, id: nat, j: nat)
    requires j < |gates| && gates[j].id == id
    requires forall k :: 0 <= k < j ==> gates[k].id != id
    ensures FindGate(gates, id) == Some(gates[j])
    decreases j
  {
    if j > 0 {
      FindAt(gates[1..], id, j - 1);
    }
  }

  lemma SetInputsNumbered(b: Circuit, id: nat, inputs: seq<Ref>)
    requires Numbered(b) && 1 <= id <= |b.gates|
    ensures SetInputs(b.gates, id, inputs) == b.gates[id - 1 := b.gates[id - 1].(inputs := inputs)]
    ensures FindGate(b.gates, id) == Some(b.gates[id - 1])
  {
    SetInputsAt(b.gates, id, inputs, id - 1);
    FindAt(b.gates, id, id - 1);
  }

  lemma OpenNumbered(b: Circuit, kind: GateType)
    requires Numbered(b)
    ensures Numbered(Open(b, kind))
  {
  }

  /** Emitting only appends gates and connections, apart from filling in
      the inputs of its own gates, and keeps the numbering. */
  lemma {:induction false} EmitGrows(e: Expr, parent: Parent, b: Circuit, fuse: bool)
    requires Numbered(b)
    ensures var r := Emit(e, parent, b, fuse).1;
      && Numbered(r)
      && Keeps(b.gates, r.gates)
      && Keeps(b.connections, r.connections)
      && |r.gates| == |b.gates| + GateSize(e, fuse)
    decreases e, 1
  {
    match e
    case Atom(_) =>
    case Not(x) =>
      if fuse && Fusable(x) {
        EmitGateGrows(x, if x.c == And then NAND else NOR, parent, b, fuse);
      } else {
        EmitNotGrows(x, parent, b, fuse);
      }
    case Binary(c, _, _) =>
      EmitGateGrows(e, if fuse then GateMap(c) else GateKind(c, b.gates, parent), parent, b, fuse);
  }

  lemma {:induction false} EmitNotGrows(x: Expr, parent: Parent, b: Circuit, fuse: bool)
    requires Numbered(b) && !(fuse && Fusable(x))
    ensures var r := EmitNot(x, parent, b, fuse).1;
      && Numbered(r)
      && Keeps(b.gates, r.gates)
      && Keeps(b.connections, r.connections)
      && |r.gates| == |b.gates| + 1 + GateSize(x, fuse)
    decreases Not(x), 0
  {
    var id := b.gateCount + 1;
    var b1 := Open(b, NOT);
    OpenNumbered(b, NOT);
    EmitGrows(x, Under(id, Single), b1, fuse);
    var a := Emit(x, Under(id, Single), b1, fuse);
    assert Keeps(b.gates, b1.gates);
    KeepsTrans(b.gates, b1.gates, a.1.gates);
    CloseGrows(b.gates, b.connections, a.1, id, [a.0], parent);
    assert Close(a.1, id, [a.0], parent) == EmitNot(x, parent, b, fuse).1;
  }

  lemma KeepsTrans<T>(a: seq<T>, b: seq<T>, c: seq<T>)
    requires Keeps(a, b) && Keeps(b, c)
    ensures Keeps(a, c)
  {
  }

  /** Closing a gate opened after `before` keeps the numbering and the
      earlier gates and connections. */
  lemma CloseGrows(before: seq<Gate>, conns: seq<Conn>, a: Circuit, id: nat, inputs: seq<Ref>, parent: Parent)
    requires Numbered(a) && |before| < id <= |a.gates|
    requires Keeps(before, a.gates) && Keeps(conns, a.connections)
    ensures var r := Close(a, id, inputs, parent);
      && Numbered(r)
      && Keeps(before, r.gates)
      && Keeps(conns, r.connections)
      && |r.gates| == |a.gates|
  {
    SetInputsNumbered(a, id, inputs);
  }

  lemma {:induction false} EmitGateGrows(node: Expr, kind: GateType, parent: Parent, b: Circuit, fuse: bool)
    requires node.Binary? && Numbered(b)
    ensures var r := EmitGate(node, kind, parent, b, fuse).1;
      && Numbered(r)
      && Keeps(b.gates, r.gates)
      && Keeps(b.connections, r.connections)
      && |r.gates| == |b.gates| + 1 + GateSize(node.left, fuse) + GateSize(node.right, fuse)
    decreases node, 0
  {
    var id := b.gateCount + 1;
    var b1 := Open(b, kind);
    OpenNumbered(b, kind);
    EmitGrows(node.left, Under(id, Left), b1, fuse);
    var l := Emit(node.left, Under(id, Left), b1, fuse);
    EmitGrows(node.right, Under(id, Right), l.1, fuse);
    var d := Emit(node.right, Under(id, Right), l.1, fuse);
    assert Keeps(b.gates, b1.gates);
    KeepsTrans(b.gates, b1.gates, l.1.gates);
    KeepsTrans(b.gates, l.1.gates, d.1.gates);
    KeepsTrans(b.connections, l.1.connections, d.1.connections);
    CloseGrows(b.gates, b.connections, d.1, id, [l.0, d.0], parent);
    assert Close(d.1, id, [l.0, d.0], parent) == EmitGate(node, kind, parent, b, fuse).1;
  }

  /** Every gate from index `lo` on has as many inputs as its type takes. */
  predicate AritiesFrom(gates: seq<Gate>, lo: nat)
  {
    forall k :: lo <= k < |gates| ==> |gates[k].inputs| == Arity(gates[k].kind)
  }

  /** Every gate the call adds has as many inputs as its type takes. */
  lemma {:induction false} EmitArity(e: Expr, parent: Parent, b: Circuit, fuse: bool)
    requires Numbered(b)
    ensures var r := Emit(e, parent, b, fuse).1;
      AritiesFrom(r.gates, |b.gates|)
    decreases e, 1
  {
    match e
    case Atom(_) =>
    case Not(x) =>
      if fuse && Fusable(x) {
        var kind := if x.c == And then NAND else NOR;
        EmitGateArity(x, kind, parent, b, fuse);
        assert Emit(e, parent, b, fuse) == EmitGate(x, kind, parent, b, fuse);
      } else {
        EmitNotArity(x, parent, b, fuse);
      }
    case Binary(c, _, _) =>
      EmitGateArity(e, if fuse then GateMap(c) else GateKind(c, b.gates, parent), parent, b, fuse);
  }

  lemma {:induction false} EmitNotArity(x: Expr, parent: Parent, b: Circuit, fuse: bool)
    requires Numbered(b)
    ensures var r := EmitNot(x, parent, b, fuse).1;
      AritiesFrom(r.gates, |b.gates|)
    decreases Not(x), 0
  {
    var id := b.gateCount + 1;
    var b1 := Open(b, NOT);
    OpenNumbered(b, NOT);
    EmitGrows(x, Under(id, Single), b1, fuse);
    EmitArity(x, Under(id, Single), b1, fuse);
    var a := Emit(x, Under(id, Single), b1, fuse);
    SetInputsNumbered(a.1, id, [a.0]);
    var r := Close(a.1, id, [a.0], parent);
    assert r == EmitNot(x, parent, b, fuse).1;
    assert r.gates == a.1.gates[id - 1 := Gate(id, NOT, [a.0])];
    CloseArity(a.1.gates, id, Gate(id, NOT, [a.0]));
  }

  /** Closing gate `id` with as many inputs as its type takes. */
  lemma CloseArity(g: seq<Gate>, id: nat, closed: Gate)
    requires 1 <= id <= |g| && AritiesFrom(g, id) && |closed.inputs| == Arity(closed.kind)
    ensures AritiesFrom(g[id - 1 := closed], id - 1)
  {
  }

  lemma {:induction false} EmitGateArity(node: Expr, kind: GateType, parent: Parent, b: Circuit, fuse: bool)
    requires node.Binary? && Numbered(b) && kind != NOT
    ensures var r := EmitGate(node, kind, parent, b, fuse).1;
      AritiesFrom(r.gates, |b.gates|)
    decreases node, 0
  {
    var id := b.gateCount + 1;
    var b1 := Open(b, kind);
    OpenNumbered(b, kind);
    EmitGrows(node.left, Under(id, Left), b1, fuse);
    EmitArity(node.left, Under(id, Left), b1, fuse);
    var l := Emit(node.left, Under(id, Left), b1, fuse);
    EmitGrows(node.right, Under(id, Right), l.1, fuse);
    EmitArity(node.right, Under(id, Right), l.1, fuse);
    var d := Emit(node.right, Under(id, Right), l.1, fuse);
    SetInputsNumbered(d.1, id, [l.0, d.0]);
    var r := Close(d.1, id, [l.0, d.0], parent);
    assert r.gates[id - 1].kind == kind;
  }

  /** Both lists come from gates in disjoint ranges: the joined list still
      has distinct sources. */
  lemma JoinLinks(x: seq<Conn>, y: seq<Conn>, lx: nat, hx: nat, ly: nat, hy: nat)
    requires FromsIn(x, lx, hx) && FromsIn(y, ly, hy) && (hx <= ly || hy <= lx)
    requires DistinctFroms(x) && DistinctFroms(y)
    ensures DistinctFroms(x + y)
  {
    var z := x + y;
    forall i, j | 0 <= i < j < |z|
      ensures z[i].from != z[j].from
    {
      if j < |x| {
        assert z[i] == x[i] && z[j] == x[j];
      } else if i >= |x| {
        assert z[i] == y[i - |x|] && z[j] == y[j - |x|];
      } else {
        assert z[i] == x[i] && z[j] == y[j - |x|];
      }
    }
  }

  lemma WidenLinks(x: seq<Conn>, y: seq<Conn>, lo: nat, hi: nat, lx: nat, hx: nat, ly: nat, hy: nat)
    requires FromsIn(x, lx, hx) && FromsIn(y, ly, hy)
    requires lo <= lx && lo <= ly && hx <= hi && hy <= hi
    ensures FromsIn(x + y, lo, hi)
  {
    var z := x + y;
    forall j | 0 <= j < |z|
      ensures lo < z[j].from <= hi && z[j].to < z[j].from
    {
      if j < |x| {
        assert z[j] == x[j];
      } else {
        assert z[j] == y[j - |x|];
      }
    }
  }

  /** The input of a gate that `inputSide` names: the only input of a NOT
      gate, the first or the second of any other. */
  function SideIndex(s: Side): nat
  {
    if s == Right then 1 else 0
  }

  /** Connection `cn` lands on its parent: gate `cn.to` exists, is a NOT
      gate exactly when the side is `Single`, and reads gate `cn.from` on
      the input the side names. */
  predicate Lands(gates: seq<Gate>, cn: Conn)
  {
    && 1 <= cn.to <= |gates|
    && (cn.toInput == Single <==> gates[cn.to - 1].kind == NOT)
    && SideIndex(cn.toInput) < |gates[cn.to - 1].inputs|
    && gates[cn.to - 1].inputs[SideIndex(cn.toInput)] == GateOut(cn.from)
  }

  /** Every connection of `cs` lands, on a gate numbered above `lo`. */
  predicate LandsAbove(gates: seq<Gate>, cs: seq<Conn>, lo: nat)
  {
    forall j :: 0 <= j < |cs| ==> lo < cs[j].to && Lands(gates, cs[j])
  }

  /** The connection gate `id` adds towards its parent: none at the root. */
  function ParentLink(id: nat, parent: Parent): seq<Conn>
  {
    if parent.Under? then [Conn(id, parent.gate, parent.side)] else []
  }

  /** The connection a call adds towards its parent, which lands only once
      the parent is closed: none for an atom or at the root. */
  function OwnLink(e: Expr, parent: Parent, b: Circuit): seq<Conn>
  {
    if e.Atom? then [] else ParentLink(b.gateCount + 1, parent)
  }

  /** The connection that an operand returning `a` leaves for input `side`
      of gate `id`. */
  function OperandLink(a: Ref, id: nat, side: Side): seq<Conn>
  {
    if a.GateOut? then [Conn(a.id, id, side)] else []
  }

  lemma OwnLinkOf(e: Expr, id: nat, side: Side, b: Circuit, fuse: bool)
    ensures OwnLink(e, Under(id, side), b) == OperandLink(Emit(e, Under(id, side), b, fuse).0, id, side)
  {
  }

  /** `after` extends `before` and ends with `own`; every connection added
      in between lands, on a gate numbered above `lo`. */
  predicate LeavesOwn(before: seq<Conn>, after: seq<Conn>, own: seq<Conn>, gates: seq<Gate>, lo: nat)
  {
    && |before| + |own| <= |after|
    && after[|after| - |own|..] == own
    && LandsAbove(gates, after[|before|..|after| - |own|], lo)
  }

  lemma LandsJoin(g: seq<Gate>, a: seq<Conn>, b: seq<Conn>, lo: nat)
    requires LandsAbove(g, a, lo) && LandsAbove(g, b, lo)
    ensures LandsAbove(g, a + b, lo)
  {
    var z := a + b;
    forall j | 0 <= j < |z|
      ensures lo < z[j].to && Lands(g, z[j])
    {
      if j < |a| {
        assert z[j] == a[j];
      } else {
        assert z[j] == b[j - |a|];
      }
    }
  }

  /** Landed connections stay landed when gates are appended and a gate
      numbered `id`, at or below `lo`, gets new inputs. */
  lemma LandsUpdate(g: seq<Gate>, g2: seq<Gate>, cs: seq<Conn>, lo: nat, id: nat, inputs: seq<Ref>)
    requires LandsAbove(g, cs, lo) && Keeps(g, g2) && 1 <= id <= lo && id <= |g2|
    ensures LandsAbove(g2[id - 1 := g2[id - 1].(inputs := inputs)], cs, id - 1)
  {
    var g3 := g2[id - 1 := g2[id - 1].(inputs := inputs)];
    forall j | 0 <= j < |cs|
      ensures id - 1 < cs[j].to && Lands(g3, cs[j])
    {
      assert Lands(g, cs[j]);
      assert g3[cs[j].to - 1] == g[cs[j].to - 1];
    }
  }

  /** The operand's connections split into those that landed and its own. */
  lemma SplitAdded(c0: seq<Conn>, c1: seq<Conn>, own: seq<Conn>)
    requires Keeps(c0, c1) && |c0| + |own| <= |c1| && c1[|c1| - |own|..] == own
    ensures c1[|c0|..] == c1[|c0|..|c1| - |own|] + own
  {
  }

  /** An operand's own connection lands once gate `id` reads it on `side`. */
  lemma OperandLands(g: seq<Gate>, a: Ref, id: nat, side: Side)
    requires 1 <= id <= |g| && (side == Single <==> g[id - 1].kind == NOT)
    requires SideIndex(side) < |g[id - 1].inputs| && g[id - 1].inputs[SideIndex(side)] == a
    ensures LandsAbove(g, OperandLink(a, id, side), id - 1)
  {
  }

  /** The connections added by an operand (landed ones, then its own) and
      by the gate itself. */
  lemma AddedOne(c0: seq<Conn>, c1: seq<Conn>, ownX: seq<Conn>, own: seq<Conn>)
    requires Keeps(c0, c1) && |c0| + |ownX| <= |c1| && c1[|c1| - |ownX|..] == ownX
    ensures (c1 + own)[|c0|..|c1 + own| - |own|] == c1[|c0|..|c1| - |ownX|] + ownX
    ensures (c1 + own)[|c1 + own| - |own|..] == own
  {
    SplitAdded(c0, c1, ownX);
  }

  /** The same with two operands, left then right. */
  lemma AddedTwo(c0: seq<Conn>, c1: seq<Conn>, c2: seq<Conn>, ownL: seq<Conn>, ownR: seq<Conn>, own: seq<Conn>)
    requires Keeps(c0, c1) && |c0| + |ownL| <= |c1| && c1[|c1| - |ownL|..] == ownL
    requires Keeps(c1, c2) && |c1| + |ownR| <= |c2| && c2[|c2| - |ownR|..] == ownR
    ensures (c2 + own)[|c0|..|c2 + own| - |own|]
      == c1[|c0|..|c1| - |ownL|] + ownL + (c2[|c1|..|c2| - |ownR|] + ownR)
    ensures (c2 + own)[|c2 + own| - |own|..] == own
  {
    SplitAdded(c0, c1, ownL);
    SplitAdded(c1, c2, ownR);
    assert c2[|c0|..] == c1[|c0|..] + c2[|c1|..];
  }

  /** Closing a NOT gate `id` lands its operand's own connection. */
  lemma CloseNotLands(c0: seq<Conn>, a1: Circuit, id: nat, a: Ref, parent: Parent)
    requires Numbered(a1) && Keeps(c0, a1.connections) && 1 <= id <= |a1.gates| && a1.gates[id - 1].kind == NOT
    requires LeavesOwn(c0, a1.connections, OperandLink(a, id, Single), a1.gates, id)
    ensures var r := Close(a1, id, [a], parent);
      LeavesOwn(c0, r.connections, ParentLink(id, parent), r.gates, id - 1)
  {
    var g3 := a1.gates[id - 1 := a1.gates[id - 1].(inputs := [a])];
    NotLandsCore(c0, a1.connections, a1.gates, id, a, parent);
    SetInputsNumbered(a1, id, [a]);
    var r := Close(a1, id, [a], parent);
    assert r.connections == a1.connections + ParentLink(id, parent);
    assert r.gates == g3;
  }

  lemma NotLandsCore(c0: seq<Conn>, c1: seq<Conn>, g: seq<Gate>, id: nat, a: Ref, parent: Parent)
    requires Keeps(c0, c1) && 1 <= id <= |g| && g[id - 1].kind == NOT
    requires LeavesOwn(c0, c1, OperandLink(a, id, Single), g, id)
    ensures LeavesOwn(c0, c1 + ParentLink(id, parent), ParentLink(id, parent),
      g[id - 1 := g[id - 1].(inputs := [a])], id - 1)
  {
    var ownX := OperandLink(a, id, Single);
    var g3 := g[id - 1 := g[id - 1].(inputs := [a])];
    var x := c1[|c0|..|c1| - |ownX|];
    AddedOne(c0, c1, ownX, ParentLink(id, parent));
    OperandPartLands(c0, c1, g, g, ownX, id, id, [a], a, Single);
    LeavesOwnOf(c0, c1, ParentLink(id, parent), g3, id - 1, x + ownX);
  }

  /** Closing a two-input gate `id` lands both operands' own connections. */
  lemma CloseGateLands(c0: seq<Conn>, c1: seq<Conn>, g1: seq<Gate>, d1: Circuit, id: nat, mid: nat, a: Ref, d: Ref, parent: Parent)
    requires Numbered(d1) && Keeps(c0, c1) && Keeps(c1, d1.connections) && Keeps(g1, d1.gates)
    requires 1 <= id <= mid && id <= |g1| && d1.gates[id - 1].kind != NOT
    requires LeavesOwn(c0, c1, OperandLink(a, id, Left), g1, id)
    requires LeavesOwn(c1, d1.connections, OperandLink(d, id, Right), d1.gates, mid)
    ensures LeavesOwn(c0, d1.connections + ParentLink(id, parent), ParentLink(id, parent),
      d1.gates[id - 1 := d1.gates[id - 1].(inputs := [a, d])], id - 1)
  {
    var c2 := d1.connections;
    var ownL, ownR := OperandLink(a, id, Left), OperandLink(d, id, Right);
    var g3 := d1.gates[id - 1 := d1.gates[id - 1].(inputs := [a, d])];
    var xl := c1[|c0|..|c1| - |ownL|];
    var xr := c2[|c1|..|c2| - |ownR|];
    AddedTwo(c0, c1, c2, ownL, ownR, ParentLink(id, parent));
    OperandPartLands(c0, c1, g1, d1.gates, ownL, id, id, [a, d], a, Left);
    OperandPartLands(c1, c2, d1.gates, d1.gates, ownR, mid, id, [a, d], d, Right);
    LandsJoin(g3, xl + ownL, xr + ownR, id - 1);
    LeavesOwnOf(c0, c2, ParentLink(id, parent), g3, id - 1, xl + ownL + (xr + ownR));
  }

  /** What one operand added lands once gate `id` takes `inputs`, which
      hold the operand's output on its side. */
  lemma OperandPartLands(c0: seq<Conn>, c1: seq<Conn>, g: seq<Gate>, g2: seq<Gate>, own: seq<Conn>,
                         lo: nat, id: nat, inputs: seq<Ref>, a: Ref, side: Side)
    requires LeavesOwn(c0, c1, own, g, lo) && own == OperandLink(a, id, side)
    requires Keeps(g, g2) && 1 <= id <= lo && id <= |g2|
    requires (side == Single <==> g2[id - 1].kind == NOT)
    requires SideIndex(side) < |inputs| && inputs[SideIndex(side)] == a
    ensures LandsAbove(g2[id - 1 := g2[id - 1].(inputs := inputs)], c1[|c0|..|c1| - |own|] + own, id - 1)
  {
    var g3 := g2[id - 1 := g2[id - 1].(inputs := inputs)];
    var x := c1[|c0|..|c1| - |own|];
    LandsUpdate(g, g2, x, lo, id, inputs);
    OperandLands(g3, a, id, side);
    LandsJoin(g3, x, own, id - 1);
  }

  lemma LeavesOwnOf(c0: seq<Conn>, c2: seq<Conn>, own: seq<Conn>, g: seq<Gate>, lo: nat, x: seq<Conn>)
    requires |c0| <= |c2| && (c2 + own)[|c0|..|c2 + own| - |own|] == x
    requires (c2 + own)[|c2 + own| - |own|..] == own && LandsAbove(g, x, lo)
    ensures LeavesOwn(c0, c2 + own, own, g, lo)
  {
  }

  /** `after` extends `before` by `n` connections, each from a gate
      numbered in `(lo, hi]` to a smaller one, no gate twice. */
  predicate AddedLinks(before: seq<Conn>, after: seq<Conn>, lo: nat, hi: nat, n: nat)
  {
    |before| <= |after| && |after| - |before| == n
    && FromsIn(after[|before|..], lo, hi) && DistinctFroms(after[|before|..])
  }

  /** The connections of an operand (or two) and of the gate itself. */
  lemma ChainLinks(c0: seq<Conn>, c1: seq<Conn>, c2: seq<Conn>, own: seq<Conn>,
                   lo: nat, id: nat, mid: nat, hi: nat, n1: nat, n2: nat)
    requires AddedLinks(c0, c1, id, mid, n1) && AddedLinks(c1, c2, mid, hi, n2)
    requires Keeps(c1, c2) && FromsIn(own, lo, id) && |own| <= 1 && lo <= id <= mid <= hi
    ensures AddedLinks(c0, c2 + own, lo, hi, n1 + n2 + |own|)
  {
    var left := c1[|c0|..];
    var right := c2[|c1|..];
    assert c2[|c0|..] == left + right;
    assert (c2 + own)[|c0|..] == left + right + own;
    JoinLinks(left, right, id, mid, mid, hi);
    WidenLinks(left, right, id, hi, id, mid, mid, hi);
    JoinLinks(left + right, own, id, hi, lo, id);
    WidenLinks(left + right, own, lo, hi, id, hi, lo, id);
  }

  /** The connections a call adds: one per gate it opens, except for its
      own gate when it has no parent; each from one of its gates (never its
      own gate when it has no parent) to a gate with a smaller number, and
      no gate twice. */
  lemma {:induction false} EmitLinks(e: Expr, parent: Parent, b: Circuit, fuse: bool)
    requires Numbered(b) && (parent.Under? ==> parent.gate <= b.gateCount)
    ensures AddedLinks(b.connections, Emit(e, parent, b, fuse).1.connections,
      if parent.Root? then b.gateCount + 1 else b.gateCount, Emit(e, parent, b, fuse).1.gateCount,
      if e.Atom? then 0 else GateSize(e, fuse) - 1 + (if parent.Under? then 1 else 0))
    ensures var r := Emit(e, parent, b, fuse).1;
      LeavesOwn(b.connections, r.connections, OwnLink(e, parent, b), r.gates, b.gateCount)
    decreases e, 1
  {
    EmitGrows(e, parent, b, fuse);
    EmitLands(e, parent, b, fuse);
    match e
    case Atom(_) =>
    case Not(x) =>
      if fuse && Fusable(x) {
        EmitGateLinks(x, if x.c == And then NAND else NOR, parent, b, fuse);
      } else {
        EmitNotLinks(x, parent, b, fuse);
      }
    case Binary(c, _, _) =>
      EmitGateLinks(e, if fuse then GateMap(c) else GateKind(c, b.gates, parent), parent, b, fuse);
  }

  lemma {:induction false} EmitNotLinks(x: Expr, parent: Parent, b: Circuit, fuse: bool)
    requires Numbered(b) && (parent.Under? ==> parent.gate <= b.gateCount)
    ensures AddedLinks(b.connections, EmitNot(x, parent, b, fuse).1.connections,
      if parent.Root? then b.gateCount + 1 else b.gateCount, EmitNot(x, parent, b, fuse).1.gateCount,
      GateSize(x, fuse) + (if parent.Under? then 1 else 0))
    ensures var r := EmitNot(x, parent, b, fuse).1;
      LeavesOwn(b.connections, r.connections, OwnLink(Not(x), parent, b), r.gates, b.gateCount)
    decreases Not(x), 0
  {
    var id := b.gateCount + 1;
    var b1 := Open(b, NOT);
    OpenNumbered(b, NOT);
    EmitGrows(x, Under(id, Single), b1, fuse);
    EmitLinks(x, Under(id, Single), b1, fuse);
    var a := Emit(x, Under(id, Single), b1, fuse);
    var own: seq<Conn> := if parent.Under? then [Conn(id, parent.gate, parent.side)] else [];
    var r := Close(a.1, id, [a.0], parent);
    assert r == EmitNot(x, parent, b, fuse).1;
    assert r.connections == a.1.connections + own;
    ChainLinks(b.connections, b.connections, a.1.connections, own,
      if parent.Root? then id else b.gateCount, id, id, a.1.gateCount, 0,
      if x.Atom? then 0 else GateSize(x, fuse));
    EmitNotLands(x, parent, b, fuse);
  }

  lemma {:induction false} EmitGateLinks(node: Expr, kind: GateType, parent: Parent, b: Circuit, fuse: bool)
    requires node.Binary? && Numbered(b) && (parent.Under? ==> parent.gate <= b.gateCount) && kind != NOT
    ensures AddedLinks(b.connections, EmitGate(node, kind, parent, b, fuse).1.connections,
      if parent.Root? then b.gateCount + 1 else b.gateCount, EmitGate(node, kind, parent, b, fuse).1.gateCount,
      GateSize(node.left, fuse) + GateSize(node.right, fuse) + (if parent.Under? then 1 else 0))
    ensures var r := EmitGate(node, kind, parent, b, fuse).1;
      LeavesOwn(b.connections, r.connections, OwnLink(node, parent, b), r.gates, b.gateCount)
    decreases node, 0
  {
    var id := b.gateCount + 1;
    var b1 := Open(b, kind);
    OpenNumbered(b, kind);
    EmitGrows(node.left, Under(id, Left), b1, fuse);
    EmitLinks(node.left, Under(id, Left), b1, fuse);
    var l := Emit(node.left, Under(id, Left), b1, fuse);
    EmitGrows(node.right, Under(id, Right), l.1, fuse);
    EmitLinks(node.right, Under(id, Right), l.1, fuse);
    var d := Emit(node.right, Under(id, Right), l.1, fuse);
    var own: seq<Conn> := if parent.Under? then [Conn(id, parent.gate, parent.side)] else [];
    var r := Close(d.1, id, [l.0, d.0], parent);
    assert r == EmitGate(node, kind, parent, b, fuse).1;
    assert r.connections == d.1.connections + own;
    ChainLinks(b.connections, l.1.connections, d.1.connections, own,
      if parent.Root? then id else b.gateCount, id, l.1.gateCount, d.1.gateCount,
      if node.left.Atom? then 0 else GateSize(node.left, fuse),
      if node.right.Atom? then 0 else GateSize(node.right, fuse));
    EmitGateLands(node, kind, parent, b, fuse);
  }

  /** Every connection a call adds, except the one towards its own parent,
      lands on the gate it names, on the input that reads its source. */
  lemma {:induction false} EmitLands(e: Expr, parent: Parent, b: Circuit, fuse: bool)
    requires Numbered(b)
    ensures var r := Emit(e, parent, b, fuse).1;
      LeavesOwn(b.connections, r.connections, OwnLink(e, parent, b), r.gates, b.gateCount)
    decreases e, 1
  {
    match e
    case Atom(_) =>
      assert b.connections[|b.connections|..|b.connections|] == [];
    case Not(x) =>
      if fuse && Fusable(x) {
        EmitGateLands(x, if x.c == And then NAND else NOR, parent, b, fuse);
      } else {
        EmitNotLands(x, parent, b, fuse);
      }
    case Binary(c, _, _) =>
      EmitGateLands(e, if fuse then GateMap(c) else GateKind(c, b.gates, parent), parent, b, fuse);
  }

  lemma {:induction false} EmitNotLands(x: Expr, parent: Parent, b: Circuit, fuse: bool)
    requires Numbered(b)
    ensures var r := EmitNot(x, parent, b, fuse).1;
      LeavesOwn(b.connections, r.connections, OwnLink(Not(x), parent, b), r.gates, b.gateCount)
    decreases Not(x), 0
  {
    var id := b.gateCount + 1;
    var b1 := Open(b, NOT);
    OpenNumbered(b, NOT);
    EmitGrows(x, Under(id, Single), b1, fuse);
    EmitLands(x, Under(id, Single), b1, fuse);
    var a := Emit(x, Under(id, Single), b1, fuse);
    OwnLinkOf(x, id, Single, b1, fuse);
    assert a.1.gates[id - 1] == b1.gates[id - 1];
    CloseNotLands(b.connections, a.1, id, a.0, parent);
    assert Close(a.1, id, [a.0], parent) == EmitNot(x, parent, b, fuse).1;
  }

  lemma {:induction false} EmitGateLands(node: Expr, kind: GateType, parent: Parent, b: Circuit, fuse: bool)
    requires node.Binary? && Numbered(b) && kind != NOT
    ensures var r := EmitGate(node, kind, parent, b, fuse).1;
      LeavesOwn(b.connections, r.connections, OwnLink(node, parent, b), r.gates, b.gateCount)
    decreases node, 0
  {
    var id := b.gateCount + 1;
    var b1 := Open(b, kind);
    OpenNumbered(b, kind);
    EmitGrows(node.left, Under(id, Left), b1, fuse);
    EmitLands(node.left, Under(id, Left), b1, fuse);
    var l := Emit(node.left, Under(id, Left), b1, fuse);
    EmitGrows(node.right, Under(id, Right), l.1, fuse);
    EmitLands(node.right, Under(id, Right), l.1, fuse);
    var d := Emit(node.right, Under(id, Right), l.1, fuse);
    OwnLinkOf(node.left, id, Left, b1, fuse);
    OwnLinkOf(node.right, id, Right, l.1, fuse);
    assert d.1.gates[id - 1] == l.1.gates[id - 1] == b1.gates[id - 1];
    CloseGateLands(b.connections, l.1.connections, l.1.gates, d.1, id, l.1.gateCount, l.0, d.0, parent);
    SetInputsNumbered(d.1, id, [l.0, d.0]);
    var r := Close(d.1, id, [l.0, d.0], parent);
    assert r == EmitGate(node, kind, parent, b, fuse).1;
    assert r.connections == d.1.connections + ParentLink(id, parent);
  }

  /** Pushing a gate adds one to the count of its type. */
  lemma KindCountPush(gates: seq<Gate>, g: Gate, t: GateType)
    ensures KindCount(gates + [g], t) == KindCount(gates, t) + (if g.kind == t then 1 else 0)
  {
    assert (gates + [g])[..|gates|] == gates;
  }

  /** Lists with the same types in the same places count alike. */
  lemma {:induction false} KindCountSame(g1: seq<Gate>, g2: seq<Gate>, t: GateType)
    requires |g1| == |g2| && forall k :: 0 <= k < |g1| ==> g1[k].kind == g2[k].kind
    ensures KindCount(g1, t) == KindCount(g2, t)
    decreases |g1|
  {
    if |g1| > 0 {
      KindCountSame(g1[..|g1| - 1], g2[..|g2| - 1], t);
    }
  }

  /** The seven counts add up to the number of gates. */
  lemma {:induction false} KindCountTotal(gates: seq<Gate>)
    ensures KindCount(gates, NOT) + KindCount(gates, AND) + KindCount(gates, OR) + KindCount(gates, NOR)
      + KindCount(gates, NAND) + KindCount(gates, XOR) + KindCount(gates, XNOR) == |gates|
    decreases |gates|
  {
    if |gates| > 0 {
      KindCountTotal(gates[..|gates| - 1]);
    }
  }

  lemma OpenTallied(b: Circuit, kind: GateType)
    requires Tallied(b)
    ensures Tallied(Open(b, kind))
  {
    var r := Open(b, kind);
    forall t ensures Count(r.tally, t) == KindCount(r.gates, t) {
      KindCountPush(b.gates, Gate(b.gateCount + 1, kind, []), t);
    }
  }

  lemma CloseTallied(b: Circuit, id: nat, inputs: seq<Ref>, parent: Parent)
    requires Tallied(b)
    ensures Tallied(Close(b, id, inputs, parent))
  {
    var r := Close(b, id, inputs, parent);
    forall t ensures Count(r.tally, t) == KindCount(r.gates, t) {
      KindCountSame(b.gates, r.gates, t);
    }
  }

  /** `gateCounts` keeps counting the gates of each type. */
  lemma {:induction false} EmitTallied(e: Expr, parent: Parent, b: Circuit, fuse: bool)
    requires Tallied(b)
    ensures Tallied(Emit(e, parent, b, fuse).1)
    decreases e, 1
  {
    match e
    case Atom(_) =>
    case Not(x) =>
      if fuse && Fusable(x) {
        EmitGateTallied(x, if x.c == And then NAND else NOR, parent, b, fuse);
      } else {
        EmitNotTallied(x, parent, b, fuse);
      }
    case Binary(c, _, _) =>
      EmitGateTallied(e, if fuse then GateMap(c) else GateKind(c, b.gates, parent), parent, b, fuse);
  }

  lemma {:induction false} EmitNotTallied(x: Expr, parent: Parent, b: Circuit, fuse: bool)
    requires Tallied(b)
    ensures Tallied(EmitNot(x, parent, b, fuse).1)
    decreases Not(x), 0
  {
    var id := b.gateCount + 1;
    OpenTallied(b, NOT);
    EmitTallied(x, Under(id, Single), Open(b, NOT), fuse);
    var a := Emit(x, Under(id, Single), Open(b, NOT), fuse);
    CloseTallied(a.1, id, [a.0], parent);
  }

  lemma {:induction false} EmitGateTallied(node: Expr, kind: GateType, parent: Parent, b: Circuit, fuse: bool)
    requires node.Binary? && Tallied(b)
    ensures Tallied(EmitGate(node, kind, parent, b, fuse).1)
    decreases node, 0
  {
    var id := b.gateCount + 1;
    OpenTallied(b, kind);
    EmitTallied(node.left, Under(id, Left), Open(b, kind), fuse);
    var l := Emit(node.left, Under(id, Left), Open(b, kind), fuse);
    EmitTallied(node.right, Under(id, Right), l.1, fuse);
    var d := Emit(node.right, Under(id, Right), l.1, fuse);
    CloseTallied(d.1, id, [l.0, d.0], parent);
  }

  /** On a counted, numbered circuit the counters add up to `gateCount`. */
  lemma TallySumIsCount(b: Circuit)
    requires Tallied(b) && Numbered(b)
    ensures TallySum(b.tally) == b.gateCount
  {
    KindCountTotal(b.gates);
  }

  /** Every index in `[lo, hi)` satisfies `Upgraded`. */
  predicate UpgradedIn(gates: seq<Gate>, lo: nat, hi: nat)
    requires hi <= |gates|
  {
    forall k :: lo <= k < hi ==> Upgraded(gates, k)
  }

  /** A NOT parent is the gate opened just before the call. */
  predicate NotParentLast(b: Circuit, parent: Parent)
  {
    parent.Under? ==>
      (1 <= parent.gate <= |b.gates| && (b.gates[parent.gate - 1].kind == NOT ==> parent.gate == |b.gates|))
  }

  /** Closing a NOT gate whose operand's gates follow it. */
  lemma CloseNotUpgraded(g: seq<Gate>, id: nat, child: Ref)
    requires 1 <= id <= |g| && UpgradedIn(g, id + 1, |g|) && (id < |g| ==> child == GateOut(id + 1))
    ensures UpgradedIn(g[id - 1 := Gate(id, NOT, [child])], id, |g|)
  {
    var g2 := g[id - 1 := Gate(id, NOT, [child])];
    forall k | id <= k < |g| ensures Upgraded(g2, k) {
      if k > id {
        assert Upgraded(g, k);
      }
    }
  }

  /** Closing a two-input gate `id` (not a NOT gate) whose left operand's
      gates end at `|g1|` and whose right operand's gates end at `|g2|`. */
  lemma CloseGateUpgraded(g0: seq<Gate>, g1: seq<Gate>, g2: seq<Gate>, id: nat, inputs: seq<Ref>)
    requires |g0| == id >= 1 && g0[id - 1].kind != NOT && Keeps(g0, g1) && Keeps(g1, g2)
    requires UpgradedIn(g1, id + 1, |g1|) && UpgradedIn(g2, |g1| + 1, |g2|)
    requires id < |g1| && (g1[id].kind == NAND || g1[id].kind == NOR) ==> g0[id - 1].kind == NOT
    requires |g1| < |g2| && (g2[|g1|].kind == NAND || g2[|g1|].kind == NOR) ==> g1[id - 1].kind == NOT
    ensures UpgradedIn(g2[id - 1 := g2[id - 1].(inputs := inputs)], id, |g2|)
  {
    var g3 := g2[id - 1 := g2[id - 1].(inputs := inputs)];
    forall k | id <= k < |g2| ensures Upgraded(g3, k) {
      if k == id && id < |g1| {
        assert g3[k] == g1[k];
        assert g1[id - 1] == g0[id - 1];
      } else if k < |g1| {
        assert Upgraded(g1, k);
        assert g3[k] == g1[k] && g3[k - 1] == g1[k - 1];
      } else if k == |g1| {
        assert g3[k] == g2[k] && g1[id - 1] == g0[id - 1];
      } else {
        assert Upgraded(g2, k);
      }
    }
  }

  /** Without fusion every NAND or NOR gate the call adds is the only input
      of the NOT gate opened just before it; for the call's own gate this
      holds once the parent is closed, and its parent is that NOT gate. */
  lemma {:induction false} EmitUpgraded(e: Expr, parent: Parent, b: Circuit)
    requires Numbered(b) && NotParentLast(b, parent)
    ensures var r := Emit(e, parent, b, false).1;
      |b.gates| <= |r.gates|
      && UpgradedIn(r.gates, |b.gates| + 1, |r.gates|)
      && (|b.gates| < |r.gates| && (r.gates[|b.gates|].kind == NAND || r.gates[|b.gates|].kind == NOR) ==>
            parent.Under? && parent.gate == |b.gates| && b.gates[parent.gate - 1].kind == NOT)
    decreases e, 1
  {
    EmitGrows(e, parent, b, false);
    match e
    case Atom(_) =>
    case Not(x) =>
      EmitNotUpgraded(x, parent, b);
    case Binary(c, _, _) =>
      var kind := GateKind(c, b.gates, parent);
      if kind == NAND || kind == NOR {
        assert UnderNot(b.gates, parent);
        SetInputsNumbered(b, parent.gate, []);
      }
      EmitGateUpgraded(e, kind, parent, b);
  }

  lemma {:induction false} EmitNotUpgraded(x: Expr, parent: Parent, b: Circuit)
    requires Numbered(b) && NotParentLast(b, parent)
    ensures var r := EmitNot(x, parent, b, false).1;
      |b.gates| < |r.gates| && UpgradedIn(r.gates, |b.gates| + 1, |r.gates|) && r.gates[|b.gates|].kind == NOT
    decreases Not(x), 0
  {
    var id := b.gateCount + 1;
    var b1 := Open(b, NOT);
    OpenNumbered(b, NOT);
    EmitGrows(x, Under(id, Single), b1, false);
    EmitUpgraded(x, Under(id, Single), b1);
    var a := Emit(x, Under(id, Single), b1, false);
    SetInputsNumbered(a.1, id, [a.0]);
    assert a.1.gates[id - 1] == b1.gates[id - 1];
    var r := Close(a.1, id, [a.0], parent);
    assert r == EmitNot(x, parent, b, false).1;
    assert r.gates == a.1.gates[id - 1 := Gate(id, NOT, [a.0])];
    CloseNotUpgraded(a.1.gates, id, a.0);
  }

  lemma {:induction false} EmitGateUpgraded(node: Expr, kind: GateType, parent: Parent, b: Circuit)
    requires node.Binary? && Numbered(b) && NotParentLast(b, parent) && kind != NOT
    requires (kind == NAND || kind == NOR) ==>
      parent.Under? && parent.gate == |b.gates| && b.gates[parent.gate - 1].kind == NOT
    ensures var r := EmitGate(node, kind, parent, b, false).1;
      |b.gates| < |r.gates| && UpgradedIn(r.gates, |b.gates| + 1, |r.gates|) && r.gates[|b.gates|].kind == kind
    decreases node, 0
  {
    var id := b.gateCount + 1;
    var b1 := Open(b, kind);
    OpenNumbered(b, kind);
    EmitGrows(node.left, Under(id, Left), b1, false);
    EmitUpgraded(node.left, Under(id, Left), b1);
    var l := Emit(node.left, Under(id, Left), b1, false);
    EmitGrows(node.right, Under(id, Right), l.1, false);
    EmitUpgraded(node.right, Under(id, Right), l.1);
    var d := Emit(node.right, Under(id, Right), l.1, false);
    SetInputsNumbered(d.1, id, [l.0, d.0]);
    var r := Close(d.1, id, [l.0, d.0], parent);
    assert r == EmitGate(node, kind, parent, b, false).1;
    assert r.gates == d.1.gates[id - 1 := d.1.gates[id - 1].(inputs := [l.0, d.0])];
    CloseGateUpgraded(b1.gates, l.1.gates, d.1.gates, id, [l.0, d.0]);
  }

  /** The shape of a finished circuit: gates numbered from 1, each with
      its number of inputs, counters that match and add up to
      `gateCount`, the output read from gate 1 (or from a variable when
      there are no gates), and one connection out of every gate but gate 1,
      each landing on the input of its parent that reads that gate. */
  predicate WellFormed(out: Ref, c: Circuit)
  {
    && Numbered(c)
    && AritiesFrom(c.gates, 0)
    && Tallied(c)
    && TallySum(c.tally) == c.gateCount
    && (out.Wire? <==> c.gateCount == 0)
    && (out.GateOut? ==> out.id == 1)
    && |c.connections| == (if c.gateCount == 0 then 0 else c.gateCount - 1)
    && FromsIn(c.connections, 1, c.gateCount)
    && DistinctFroms(c.connections)
    && LandsAbove(c.gates, c.connections, 0)
  }

  /** The gates the connections come from. */
  function Froms(cs: seq<Conn>): (r: set<nat>)
    ensures forall j :: 0 <= j < |cs| ==> cs[j].from in r
    ensures forall id :: id in r ==> exists j :: 0 <= j < |cs| && cs[j].from == id
  {
    if |cs| == 0 then {}
    else
      var rest := Froms(cs[1..]);
      assert forall j :: 1 <= j < |cs| ==> cs[j] == cs[1..][j - 1];
      {cs[0].from} + rest
  }

  lemma {:induction false} FromsCard(cs: seq<Conn>)
    requires DistinctFroms(cs)
    ensures |Froms(cs)| == |cs|
    decreases |cs|
  {
    if |cs| > 0 {
      var t := cs[1..];
      assert DistinctFroms(t) by {
        forall i, j | 0 <= i < j < |t| ensures t[i].from != t[j].from {
          assert t[i] == cs[i + 1] && t[j] == cs[j + 1];
        }
      }
      FromsCard(t);
      assert cs[0].from !in Froms(t);
    }
  }

  /** The gate numbers in `(lo, hi]`. */
  function Range(lo: nat, hi: nat): (r: set<nat>)
    ensures forall id :: id in r <==> lo < id <= hi
    ensures |r| == if lo < hi then hi - lo else 0
    decreases hi
  {
    if hi <= lo then {} else Range(lo, hi - 1) + {hi}
  }

  lemma {:induction false} SubsetCard(a: set<nat>, b: set<nat>)
    requires a <= b
    ensures |a| <= |b|
    decreases |a|
  {
    if a != {} {
      var y :| y in a;
      SubsetCard(a - {y}, b - {y});
    }
  }

  lemma SubsetFull(a: set<nat>, b: set<nat>)
    requires a <= b && |a| == |b|
    ensures a == b
  {
    if a != b {
      var x :| x in b && x !in a;
      SubsetCard(a, b - {x});
    }
  }

  /** In a well-formed circuit every gate but gate 1 feeds exactly one
      connection, and gate 1 feeds none. */
  lemma OneLinkPerGate(out: Ref, c: Circuit, id: nat)
    requires WellFormed(out, c) && 1 <= id <= c.gateCount
    ensures id > 1 ==> exists j :: 0 <= j < |c.connections| && c.connections[j].from == id
    ensures forall i, j :: 0 <= i < j < |c.connections| && c.connections[i].from == id ==> c.connections[j].from != id
    ensures id == 1 ==> forall j :: 0 <= j < |c.connections| ==> c.connections[j].from != id
  {
    FromsCard(c.connections);
    SubsetFull(Froms(c.connections), Range(1, c.gateCount));
    assert id > 1 ==> id in Range(1, c.gateCount);
  }

  lemma EmptyTallied()
    ensures Numbered(EmptyCircuit) && Tallied(EmptyCircuit)
  {
    forall t ensures Count(EmptyCircuit.tally, t) == KindCount(EmptyCircuit.gates, t) {
      match t
      case NOT => case AND => case OR => case NOR => case NAND => case XOR => case XNOR =>
    }
  }

  /** A tree emitted from scratch, fused or not, is a well-formed circuit. */
  lemma EmitWellFormed(e: Expr, fuse: bool)
    ensures var r := Emit(e, Root, EmptyCircuit, fuse); WellFormed(r.0, r.1)
  {
    var r := Emit(e, Root, EmptyCircuit, fuse);
    EmptyTallied();
    EmitGrows(e, Root, EmptyCircuit, fuse);
    EmitArity(e, Root, EmptyCircuit, fuse);
    EmitTallied(e, Root, EmptyCircuit, fuse);
    TallySumIsCount(r.1);
    RootLinks(e, fuse);
  }

  /** The connections of a whole build: one per gate but `gate1`, from
      distinct gates, each landing on its parent. */
  lemma RootLinks(e: Expr, fuse: bool)
    ensures var r := Emit(e, Root, EmptyCircuit, fuse).1;
      && |r.connections| == (if r.gateCount == 0 then 0 else r.gateCount - 1)
      && FromsIn(r.connections, 1, r.gateCount)
      && DistinctFroms(r.connections)
      && LandsAbove(r.gates, r.connections, 0)
  {
    var r := Emit(e, Root, EmptyCircuit, fuse).1;
    EmitGrows(e, Root, EmptyCircuit, fuse);
    EmitLinks(e, Root, EmptyCircuit, fuse);
    assert OwnLink(e, Root, EmptyCircuit) == [];
    assert r.connections[0..] == r.connections;
    assert r.connections[0..|r.connections| - 0] == r.connections;
  }

  /** `generateCircuitDiagram`'s builder succeeds exactly when every atom of
      the expression's tree is a declared variable; its circuit is then
      well-formed, and every NAND or NOR gate in it is the only input of a
      NOT gate just before it. */
  lemma GenerateWellFormed(expr: string, vars: seq<string>)
    ensures GenerateCircuit(expr, vars).Ok? <==> AtomsIn(BuilderShape(expr), vars)
    ensures GenerateCircuit(expr, vars).Ok? ==>
      var r := GenerateCircuit(expr, vars).value;
      WellFormed(r.0, r.1) && UpgradedIn(r.1.gates, 0, |r.1.gates|)
  {
    var e := BuilderShape(expr);
    ProcessIsEmit(expr, Root, EmptyCircuit, vars);
    if AtomsIn(e, vars) {
      var r := Emit(e, Root, EmptyCircuit, false);
      assert GenerateCircuit(expr, vars) == Ok(r);
      EmitWellFormed(e, false);
      EmitUpgraded(e, Root, EmptyCircuit);
      EmitGrows(e, Root, EmptyCircuit, false);
      if |r.1.gates| > 0 {
        assert Upgraded(r.1.gates, 0);
      }
    }
  }
}
