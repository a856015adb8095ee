/**
 The tracer of `hom_op_tracer.py`: it runs the `forward` of nested operators on value handles and records a graph.
 Operators written with +, -, *, ** on handles are desugared as in `hom_value.py`.
 */
module Tracing {
  import opened Wrappers
  import opened OpGraph

  // ----- programs -----

  datatype Op =
    | LeafOp(kind: Kind, data: seq<Tensor>)
    | Composite(params: seq<Id>, body: Expr)

  /** What a `forward` body does with its parameters: operator calls, local names, and overloaded operators. */
  datatype Expr =
    | Var(name: Id)
    | Let(name: Id, bound: Expr, rest: Expr)
    | Call(op: Op, args: seq<Expr>)
    | Add(l: Expr, r: Expr)
    | Sub(l: Expr, r: Expr)
    | Mul(l: Expr, r: Expr)
    | AddConst(e: Expr, c: Tensor)
    | SubConst(e: Expr, c: Tensor)
    | ConstSub(c: Tensor, e: Expr)
    | MulConst(e: Expr, c: Tensor)
    | Neg(e: Expr)
    | Square(e: Expr)

  // ----- direct clear execution: HomOp.forward_clear on tensors -----

  function Both(op: Arith, a: Option<Vec>, b: Option<Vec>): Option<Vec> {
    if a.Some? && b.Some? then Elementwise(op, a.value, b.value) else None
  }

  function Negated(v: Vec): (r: Vec)
    ensures |r| == |v|
  {
    seq(|v|, i requires 0 <= i < |v| => -v[i])
  }

  function DataContents(data: seq<Tensor>, w: World): (r: seq<Vec>)
    ensures |r| == |data|
  {
    seq(|data|, i requires 0 <= i < |data| => Contents(data[i], w))
  }

  function EvalOp(op: Op, inputs: seq<Vec>, w: World): Option<Vec>
    decreases op, 0
  {
    match op
    case LeafOp(kind, data) => LeafValue(kind, DataContents(data, w), inputs, w)
    case Composite(params, body) =>
      if |params| != |inputs| then None else EvalExpr(body, Bind(params, inputs), w)
  }

  function EvalExpr(e: Expr, env: map<Id, Vec>, w: World): Option<Vec>
    decreases e, 0
  {
    match e
    case Var(name) => if name in env then Some(env[name]) else None
    case Let(name, bound, rest) =>
      var v := EvalExpr(bound, env, w);
      if v.None? then None else EvalExpr(rest, env[name := v.value], w)
    case Call(op, args) =>
      var vs := EvalArgs(args, env, w);
      if vs.None? then None else EvalOp(op, vs.value, w)
    case Add(l, r) => Both(Plus, EvalExpr(l, env, w), EvalExpr(r, env, w))
    case Sub(l, r) => Both(Minus, EvalExpr(l, env, w), EvalExpr(r, env, w))
    case Mul(l, r) => Both(Times, EvalExpr(l, env, w), EvalExpr(r, env, w))
    case AddConst(e, c) => Both(Plus, EvalExpr(e, env, w), Some(Contents(c, w)))
    case SubConst(e, c) => Both(Minus, EvalExpr(e, env, w), Some(Contents(c, w)))
    case ConstSub(c, e) => Both(Minus, Some(Contents(c, w)), EvalExpr(e, env, w))
    case MulConst(e, c) => Both(Times, EvalExpr(e, env, w), Some(Contents(c, w)))
    case Neg(e) => var v := EvalExpr(e, env, w); if v.None? then None else Some(Negated(v.value))
    case Square(e) => var v := EvalExpr(e, env, w); Both(Times, v, v)
  }

  function EvalArgs(args: seq<Expr>, env: map<Id, Vec>, w: World): (r: Option<seq<Vec>>)
    ensures r.Some? ==> |r.value| == |args|
    decreases args, 0
  {
    if args == [] then Some([])
    else
      var p := |args| - 1;
      var before := EvalArgs(args[..p], env, w);
      var v := EvalExpr(args[p], env, w);
      if before.None? || v.None? then None else Some(before.value + [v.value])
  }

  // ----- names -----

  function Digit(d: nat): char
    requires d < 10
  {
    "0123456789"[d]
  }

  function Decimal(n: nat): (s: string)
    ensures |s| >= 1
  {
    if n < 10 then [Digit(n)] else Decimal(n / 10) + [Digit(n % 10)]
  }

  /** `f"v{n}"`. */
  function FreshName(n: nat): Id { "v" + Decimal(n) }

  /** What a string of decimal digits stands for. */
  function Value(s: string): int {
    if s == [] then 0 else 10 * Value(s[..|s| - 1]) + (s[|s| - 1] as int - '0' as int)
  }

  predicate Digits(s: string) { s != [] && (forall i :: 0 <= i < |s| ==> '0' <= s[i] <= '9') &&
    (s[0] == '0' ==> |s| == 1) }

  lemma DigitIs(d: nat)
    requires d < 10
    ensures '0' <= Digit(d) <= '9' && Digit(d) as int == '0' as int + d
  {}

  /** A decimal name consists of digits, without leading zeros, and reads as its number. */
  lemma {:induction false} DecimalReads(n: nat)
    ensures Digits(Decimal(n)) && Value(Decimal(n)) == n && (Decimal(n)[0] == '0' <==> n == 0)
  {
    DigitIs(n % 10);
    if n < 10 {
      assert Value(Decimal(n)[..0]) == 0;
    } else {
      DecimalReads(n / 10);
      var s := Decimal(n);
      assert s[..|s| - 1] == Decimal(n / 10);
      hide Digit;
    }
  }

  /** Conversely every such string is the decimal name of the number that it reads as. */
  lemma {:induction false} ReadsAsDecimal(s: string)
    requires Digits(s)
    ensures Value(s) >= 0 && Decimal(Value(s)) == s
    decreases |s|
  {
    var p := |s| - 1;
    var d := s[p] as int - '0' as int;
    DigitIs(d);
    DigitIsChar(d, s[p]);
    if p == 0 {
      assert Value(s[..0]) == 0 && s == [s[0]];
    } else {
      ReadsAsDecimal(s[..p]);
      FirstIsNotZero(s);
      assert s == s[..p] + [s[p]];
      assert (10 * Value(s[..p]) + d) / 10 == Value(s[..p]) && (10 * Value(s[..p]) + d) % 10 == d;
      hide Digit;
    }
  }

  lemma DigitIsChar(d: nat, c: char)
    requires d < 10 && c as int == '0' as int + d
    ensures Digit(d) == c
  {}

  lemma FirstIsNotZero(s: string)
    requires Digits(s) && |s| > 1 && Value(s[..|s| - 1]) >= 0 && Decimal(Value(s[..|s| - 1])) == s[..|s| - 1]
    ensures Value(s[..|s| - 1]) > 0
  {
    assert s[..|s| - 1][0] == s[0] != '0';
    DecimalReads(Value(s[..|s| - 1]));
  }

  /** The fresh names are exactly "v" followed by the decimal digits of a number. */
  lemma FreshNames(name: Id)
    ensures (exists n: nat :: name == FreshName(n)) <==> name != [] && name[0] == 'v' && Digits(name[1..])
    ensures name != [] && name[0] == 'v' && Digits(name[1..]) ==>
      Value(name[1..]) >= 0 && name == FreshName(Value(name[1..]))
  {
    if n: nat :| name == FreshName(n) {
      DecimalReads(n);
      assert name[1..] == Decimal(n);
    }
    if name != [] && name[0] == 'v' && Digits(name[1..]) {
      ReadsAsDecimal(name[1..]);
      assert name == "v" + name[1..];
      assert name == FreshName(Value(name[1..]));
    }
  }

  lemma {:induction false} DecimalInjective(a: nat, b: nat)
    requires Decimal(a) == Decimal(b)
    ensures a == b
    decreases a + b
  {
    var s := Decimal(a);
    assert s[|s| - 1] == Digit(a % 10) && s[|s| - 1] == Digit(b % 10);
    assert a % 10 == b % 10;
    assert (a >= 10 <==> |s| >= 2) && (b >= 10 <==> |s| >= 2);
    if a >= 10 {
      assert Decimal(a / 10) == s[..|s| - 1] && Decimal(b / 10) == s[..|s| - 1];
      DecimalInjective(a / 10, b / 10);
    }
  }

  lemma FreshInjective(a: nat, b: nat)
    ensures FreshName(a) == FreshName(b) ==> a == b
  {
    if FreshName(a) == FreshName(b) {
      assert FreshName(a)[1..] == Decimal(a) && FreshName(b)[1..] == Decimal(b);
      DecimalInjective(a, b);
    }
  }

  /** Parameter names are distinct, as in any Python signature, and none is a fresh name `v<digits>`. */
  ghost predicate NamesOk(op: Op)
    decreases op
  {
    match op
    case LeafOp(_, _) => true
    case Composite(params, body) =>
      (forall i, j :: 0 <= i < j < |params| ==> params[i] != params[j]) &&
      (forall i, n: nat :: 0 <= i < |params| ==> params[i] != FreshName(n)) && BodyNamesOk(body)
  }

  ghost predicate BodyNamesOk(e: Expr)
    decreases e
  {
    match e
    case Var(_) => true
    case Let(_, bound, rest) => BodyNamesOk(bound) && BodyNamesOk(rest)
    case Call(op, args) => NamesOk(op) && forall i :: 0 <= i < |args| ==> BodyNamesOk(args[i])
    case Add(l, r) => BodyNamesOk(l) && BodyNamesOk(r)
    case Sub(l, r) => BodyNamesOk(l) && BodyNamesOk(r)
    case Mul(l, r) => BodyNamesOk(l) && BodyNamesOk(r)
    case AddConst(e, _) => BodyNamesOk(e)
    case SubConst(e, _) => BodyNamesOk(e)
    case ConstSub(_, e) => BodyNamesOk(e)
    case MulConst(e, _) => BodyNamesOk(e)
    case Neg(e) => BodyNamesOk(e)
    case Square(e) => BodyNamesOk(e)
  }

  // ----- what the tracer records -----

  /** The handle passed around while tracing; its shape and level metadata do not reach the clear graph. */
  datatype HomValue = HomValue(id: Id)

  datatype Traced = Traced(value: HomValue, children: seq<Child>, table: seq<Tensor>)

  /** The reference under which this very object is already stored. */
  function FindRef(table: seq<Tensor>, t: Tensor, i: nat): (r: Option<nat>)
    requires i <= |table|
    ensures r.Some? ==> t.Object? && r.value < |table| && table[r.value] == t
    decreases |table| - i
  {
    if i == |table| then None
    else if t.Object? && table[i] == t then Some(i)
    else FindRef(table, t, i + 1)
  }

  function Register(table: seq<Tensor>, t: Tensor): (r: (nat, seq<Tensor>))
    ensures table <= r.1 && r.0 < |r.1| && r.1[r.0] == t
  {
    var found := FindRef(table, t, 0);
    if found.Some? then (found.value, table) else (|table|, table + [t])
  }

  function RegisterAll(table: seq<Tensor>, data: seq<Tensor>): (r: (seq<nat>, seq<Tensor>))
    ensures table <= r.1 && |r.0| == |data|
    ensures forall i :: 0 <= i < |data| ==> r.0[i] < |r.1| && r.1[r.0[i]] == data[i]
  {
    if data == [] then ([], table)
    else
      var p := |data| - 1;
      var before := RegisterAll(table, data[..p]);
      var last := Register(before.1, data[p]);
      (before.0 + [last.0], last.1)
  }

  function Ids(vs: seq<HomValue>): (r: seq<Id>)
    ensures |r| == |vs|
  {
    seq(|vs|, i requires 0 <= i < |vs| => vs[i].id)
  }

  /** Append one recorded op, whose output gets the next fresh id. */
  function Recorded(g: Graph, inputs: seq<HomValue>, children: seq<Child>): seq<Child> {
    children + [Child(g, Ids(inputs), FreshName(|children|), [])]
  }

  function RecordLeaf(kind: Kind, data: seq<Tensor>, inputs: seq<HomValue>, children: seq<Child>,
          table: seq<Tensor>): (r: Traced)
    ensures children <= r.children && table <= r.table
  {
    var reg := RegisterAll(table, data);
    Traced(HomValue(FreshName(|children|)), Recorded(LeafNode(kind, reg.0), inputs, children), reg.1)
  }

  /** `finalize`: every input occurrence marked with whether it is the last read of its name. */
  function Finalized(children: seq<Child>): (r: seq<Child>)
    ensures |r| == |children|
  {
    seq(|children|, i requires 0 <= i < |children| => children[i].(lastUses :=
      seq(|children[i].inputs|, p requires 0 <= p < |children[i].inputs| => IsLastUse(children, i, p))))
  }

  function HandlesOf(params: seq<Id>): (r: seq<HomValue>)
    ensures |r| == |params|
  {
    seq(|params|, i requires 0 <= i < |params| => HomValue(params[i]))
  }

  function TraceOp(op: Op, arity: nat, table: seq<Tensor>, w: World): (r: Option<(Graph, seq<Tensor>)>)
    ensures r.Some? ==> table <= r.value.1
    decreases op, 0
  {
    match op
    case LeafOp(kind, data) =>
      var reg := RegisterAll(table, data);
      Some((LeafNode(kind, reg.0), reg.1))
    case Composite(params, body) =>
      if |params| != arity then None
      else
        var t := TraceExpr(body, Bind(params, HandlesOf(params)), [], table, w);
        if t.None? then None
        else Some((Scope(params, Finalized(t.value.children), t.value.value.id), t.value.table))
  }

  function TraceExpr(e: Expr, vars: map<Id, HomValue>, children: seq<Child>, table: seq<Tensor>,
          w: World): (r: Option<Traced>)
    ensures r.Some? ==> children <= r.value.children && table <= r.value.table
    decreases e, 0
  {
    match e
    case Var(name) => if name in vars then Some(Traced(vars[name], children, table)) else None
    case Let(name, bound, rest) =>
      var t := TraceExpr(bound, vars, children, table, w);
      if t.None? then None
      else TraceExpr(rest, vars[name := t.value.value], t.value.children, t.value.table, w)
    case Call(op, args) =>
      var t := TraceArgs(args, vars, children, table, w);
      if t.None? then None
      else
        var g := TraceOp(op, |args|, t.value.table, w);
        if g.None? then None
        else Some(Traced(HomValue(FreshName(|t.value.children|)),
          Recorded(g.value.0, t.value.values, t.value.children), g.value.1))
    case Add(l, r) => TraceBinary(e, l, r, vars, children, table, w, AddOp(false))
    case Sub(l, r) => TraceBinary(e, l, r, vars, children, table, w, AddOp(true))
    case Mul(l, r) => TraceBinary(e, l, r, vars, children, table, w, MulOp)
    case AddConst(x, c) => TraceConst(e, x, vars, children, table, w, ConstAddOp, c)
    case SubConst(x, c) => TraceConst(e, x, vars, children, table, w, ConstAddOp, Temporary(Negated(Contents(c, w))))
    case ConstSub(c, x) =>
      var t := TraceConst(e, x, vars, children, table, w, ConstMulOp, MinusOne());
      if t.None? then None
      else Some(RecordLeaf(ConstAddOp, [c], [t.value.value], t.value.children, t.value.table))
    case MulConst(x, c) => TraceConst(e, x, vars, children, table, w, ConstMulOp, c)
    case Neg(x) => TraceConst(e, x, vars, children, table, w, ConstMulOp, MinusOne())
    case Square(x) =>
      var t := TraceExpr(x, vars, children, table, w);
      if t.None? then None
      else Some(RecordLeaf(MulOp, [], [t.value.value, t.value.value], t.value.children, t.value.table))
  }

  function MinusOne(): Tensor { Temporary([-1.0]) }

  function TraceBinary(e: Expr, l: Expr, r: Expr, vars: map<Id, HomValue>, children: seq<Child>, table: seq<Tensor>,
                       w: World, kind: Kind): (t: Option<Traced>)
    requires l < e && r < e
    ensures t.Some? ==> children <= t.value.children && table <= t.value.table
    decreases e, 0, 0
  {
    var a := TraceExpr(l, vars, children, table, w);
    if a.None? then None
    else
      var b := TraceExpr(r, vars, a.value.children, a.value.table, w);
      if b.None? then None
      else Some(RecordLeaf(kind, [], [a.value.value, b.value.value], b.value.children, b.value.table))
  }

  function TraceConst(e: Expr, x: Expr, vars: map<Id, HomValue>, children: seq<Child>, table: seq<Tensor>, w: World,
                      kind: Kind, c: Tensor): (t: Option<Traced>)
    requires x < e
    ensures t.Some? ==> children <= t.value.children && table <= t.value.table
    decreases e, 0, 0
  {
    var a := TraceExpr(x, vars, children, table, w);
    if a.None? then None
    else Some(RecordLeaf(kind, [c], [a.value.value], a.value.children, a.value.table))
  }

  datatype TracedArgs = TracedArgs(values: seq<HomValue>, children: seq<Child>, table: seq<Tensor>)

  function TraceArgs(args: seq<Expr>, vars: map<Id, HomValue>, children: seq<Child>, table: seq<Tensor>,
          w: World): (r: Option<TracedArgs>)
    ensures r.Some? ==> |r.value.values| == |args| && children <= r.value.children && table <= r.value.table
    decreases args, 0
  {
    if args == [] then Some(TracedArgs([], children, table))
    else
      var p := |args| - 1;
      var before := TraceArgs(args[..p], vars, children, table, w);
      if before.None? then None
      else
        var t := TraceExpr(args[p], vars, before.value.children, before.value.table, w);
        if t.None? then None
        else Some(TracedArgs(before.value.values + [t.value.value], t.value.children, t.value.table))
  }
}
