/**
 Compiling a program with the tracer and executing the recorded graph gives what running the program directly gives:
 the same value, and a failure exactly when the direct run fails.
 */
module TracingCorrect {
  import opened Wrappers
  import opened OpGraph
  import opened Tracing

  // ----- a program that cannot be traced cannot be run -----

  lemma {:induction false} UntraceableOp(op: Op, args: seq<Vec>, table: seq<Tensor>, w: World)
    requires TraceOp(op, |args|, table, w).None?
    ensures EvalOp(op, args, w).None?
    decreases op, 0
  {
    match op
    case LeafOp(_, _) =>
    case Composite(params, body) =>
      if |params| == |args| {
        UntraceableExpr(body, Bind(params, HandlesOf(params)), Bind(params, args), [], table, w);
      }
  }

  lemma {:induction false} UntraceableExpr(e: Expr, vars: map<Id, HomValue>, env: map<Id, Vec>, children: seq<Child>,
          table: seq<Tensor>, w: World)
    requires vars.Keys == env.Keys && TraceExpr(e, vars, children, table, w).None?
    ensures EvalExpr(e, env, w).None?
    decreases e, 0
  {
    match e
    case Var(_) =>
    case Let(name, bound, rest) =>
      var t := TraceExpr(bound, vars, children, table, w);
      if t.None? {
        UntraceableExpr(bound, vars, env, children, table, w);
      } else if EvalExpr(bound, env, w).Some? {
        var v := EvalExpr(bound, env, w).value;
        UntraceableExpr(rest, vars[name := t.value.value], env[name := v], t.value.children, t.value.table, w);
      }
    case Call(op, args) =>
      var t := TraceArgs(args, vars, children, table, w);
      if t.None? {
        UntraceableArgs(args, vars, env, children, table, w);
      } else if EvalArgs(args, env, w).Some? {
        UntraceableOp(op, EvalArgs(args, env, w).value, t.value.table, w);
      }
    case Add(l, r) => UntraceableBoth(e, l, r, vars, env, children, table, w);
    case Sub(l, r) => UntraceableBoth(e, l, r, vars, env, children, table, w);
    case Mul(l, r) => UntraceableBoth(e, l, r, vars, env, children, table, w);
    case AddConst(x, _) => UntraceableExpr(x, vars, env, children, table, w);
    case SubConst(x, _) => UntraceableExpr(x, vars, env, children, table, w);
    case ConstSub(_, x) => UntraceableExpr(x, vars, env, children, table, w);
    case MulConst(x, _) => UntraceableExpr(x, vars, env, children, table, w);
    case Neg(x) => UntraceableExpr(x, vars, env, children, table, w);
    case Square(x) => UntraceableExpr(x, vars, env, children, table, w);
  }

  lemma {:induction false} UntraceableBoth(e: Expr, l: Expr, r: Expr, vars: map<Id, HomValue>, env: map<Id, Vec>,
          children: seq<Child>, table: seq<Tensor>, w: World)
    requires l < e && r < e && vars.Keys == env.Keys
    requires var a := TraceExpr(l, vars, children, table, w);
      a.None? || TraceExpr(r, vars, a.value.children, a.value.table, w).None?
    ensures EvalExpr(l, env, w).None? || EvalExpr(r, env, w).None?
    decreases e, 0, 0
  {
    var a := TraceExpr(l, vars, children, table, w);
    if a.None? {
      UntraceableExpr(l, vars, env, children, table, w);
    } else {
      UntraceableExpr(r, vars, env, a.value.children, a.value.table, w);
    }
  }

  lemma {:induction false} UntraceableArgs(args: seq<Expr>, vars: map<Id, HomValue>, env: map<Id, Vec>,
          children: seq<Child>, table: seq<Tensor>, w: World)
    requires vars.Keys == env.Keys && TraceArgs(args, vars, children, table, w).None?
    ensures EvalArgs(args, env, w).None?
    decreases args, 0
  {
    var p := |args| - 1;
    var before := TraceArgs(args[..p], vars, children, table, w);
    if before.None? {
      UntraceableArgs(args[..p], vars, env, children, table, w);
    } else {
      UntraceableExpr(args[p], vars, env, before.value.children, before.value.table, w);
    }
  }

  // ----- the recorded scope simulates the direct run -----

  /** The scope being recorded: its input environment, the final tensor table, and the world. */
  datatype Frame = Frame(start: map<Id, Vec>, table: seq<Tensor>, w: World)

  function RunSoFar(f: Frame, children: seq<Child>): Option<map<Id, Vec>> {
    ExecAll(children, f.start, f.table, f.w)
  }

  /** Ids from n on are still unused. */
  ghost predicate FreshFrom(full: map<Id, Vec>, n: nat) {
    forall k: nat :: k >= n ==> FreshName(k) !in full
  }

  ghost predicate Extends(full: map<Id, Vec>, more: map<Id, Vec>) {
    forall id :: id in full ==> id in more && more[id] == full[id]
  }

  /** Every local name has a handle whose id is bound to the value the direct run gives that name. */
  ghost predicate Tracks(vars: map<Id, HomValue>, env: map<Id, Vec>, full: map<Id, Vec>) {
    vars.Keys == env.Keys && forall x :: x in vars ==> vars[x].id in full && full[vars[x].id] == env[x]
  }

  /** `now` is the outcome of running a longer recording, and v the direct outcome of what was traced meanwhile. */
  ghost predicate Simulates(full: map<Id, Vec>, now: Option<map<Id, Vec>>, n: nat, id: Id, v: Option<Vec>) {
    (now.Some? <==> v.Some?) &&
    (now.Some? ==> Extends(full, now.value) && FreshFrom(now.value, n) && id in now.value && now.value[id] == v.value)
  }

  lemma TracksMore(vars: map<Id, HomValue>, env: map<Id, Vec>, full: map<Id, Vec>, more: map<Id, Vec>)
    requires Tracks(vars, env, full) && Extends(full, more)
    ensures Tracks(vars, env, more)
  {}

  lemma Fails(f: Frame, children: seq<Child>, more: seq<Child>)
    requires children <= more && RunSoFar(f, children).None?
    ensures RunSoFar(f, more).None?
  {
    assert children == more[..|children|];
    ExecAllStops(more, |children|, f.start, f.table, f.w);
  }

  /** Recording one op binds the next fresh id to the op's value and disturbs nothing else. */
  lemma RecordedRuns(f: Frame, g: Graph, inputs: seq<HomValue>, children: seq<Child>, full: map<Id, Vec>,
          args: seq<Vec>, v: Option<Vec>)
    requires RunSoFar(f, children) == Some(full) && FreshFrom(full, |children|)
    requires |inputs| == |args| && forall i :: 0 <= i < |inputs| ==>
      inputs[i].id in full && full[inputs[i].id] == args[i]
    requires Exec(g, args, f.table, f.w) == v
    ensures Simulates(full, RunSoFar(f, Recorded(g, inputs, children)), |children| + 1, FreshName(|children|), v)
  {
    var n := |children|;
    var c := Child(g, Ids(inputs), FreshName(n), []);
    var more := children + [c];
    assert more[..n] == children && more[n] == c;
    ExecAllSnoc(more, n, f.start, f.table, f.w);
    assert more[..n + 1] == more;
    LookupHandles(full, inputs, args);
    if v.Some? {
      BindNextFresh(full, n, v.value);
    }
  }

  lemma LookupHandles(full: map<Id, Vec>, inputs: seq<HomValue>, args: seq<Vec>)
    requires |inputs| == |args| && forall i :: 0 <= i < |inputs| ==>
      inputs[i].id in full && full[inputs[i].id] == args[i]
    ensures Lookup(full, Ids(inputs)) == Some(args)
  {
    var ids := Ids(inputs);
    assert forall i :: 0 <= i < |inputs| ==> ids[i] == inputs[i].id;
    assert Lookup(full, ids).value == args;
  }

  lemma BindNextFresh(full: map<Id, Vec>, n: nat, v: Vec)
    requires FreshFrom(full, n)
    ensures FreshFrom(full[FreshName(n) := v], n + 1) && Extends(full, full[FreshName(n) := v])
  {
    forall k: nat | k >= n + 1
      ensures FreshName(k) != FreshName(n)
    {
      FreshInjective(k, n);
    }
  }

  /** A serialized leaf computes the leaf on its own data, whatever is registered after it. */
  lemma LeafRuns(kind: Kind, data: seq<Tensor>, table: seq<Tensor>, args: seq<Vec>, f: Frame)
    requires RegisterAll(table, data).1 <= f.table
    ensures Exec(LeafNode(kind, RegisterAll(table, data).0), args, f.table, f.w) ==
      LeafValue(kind, DataContents(data, f.w), args, f.w)
  {
    var reg := RegisterAll(table, data);
    assert forall i :: 0 <= i < |data| ==> reg.0[i] < |f.table| && f.table[reg.0[i]] == data[i];
    assert forall r :: r in reg.0 ==> r < |f.table|;
    assert Resolve(reg.0, f.table, f.w).value == DataContents(data, f.w);
  }

  lemma LeafSimulates(f: Frame, kind: Kind, data: seq<Tensor>, inputs: seq<HomValue>, children: seq<Child>,
          table: seq<Tensor>,
                      full: map<Id, Vec>, args: seq<Vec>)
    requires RunSoFar(f, children) == Some(full) && FreshFrom(full, |children|)
    requires |inputs| == |args| && forall i :: 0 <= i < |inputs| ==>
      inputs[i].id in full && full[inputs[i].id] == args[i]
    requires RecordLeaf(kind, data, inputs, children, table).table <= f.table
    ensures var t := RecordLeaf(kind, data, inputs, children, table);
      Simulates(full, RunSoFar(f, t.children), |t.children|, t.value.id,
        LeafValue(kind, DataContents(data, f.w), args, f.w))
  {
    LeafRuns(kind, data, table, args, f);
    RecordedRuns(f, LeafNode(kind, RegisterAll(table, data).0), inputs, children, full, args,
      LeafValue(kind, DataContents(data, f.w), args, f.w));
  }

  /** The last-use flags do not affect execution. */
  lemma {:induction false} FlagsIgnored(a: seq<Child>, b: seq<Child>, env: map<Id, Vec>, table: seq<Tensor>, w: World)
    requires |a| == |b|
    requires forall i :: 0 <= i < |a| ==>
      a[i].graph == b[i].graph && a[i].inputs == b[i].inputs && a[i].output == b[i].output
    ensures ExecAll(a, env, table, w) == ExecAll(b, env, table, w)
    decreases |a|
  {
    if a != [] {
      FlagsIgnored(a[..|a| - 1], b[..|a| - 1], env, table, w);
    }
  }

  /** Every name stands for the handle of that name. */
  ghost predicate OwnHandles(vars: map<Id, HomValue>) { forall x :: x in vars ==> vars[x].id == x }

  lemma BindLast<T>(names: seq<Id>, values: seq<T>, p: nat)
    requires |names| == |values| == p + 1
    ensures Bind(names, values) == Bind(names[..p], values[..p])[names[p] := values[p]]
  {}

  lemma LastNameIsNew<T>(names: seq<Id>, values: seq<T>, p: nat)
    requires |names| == |values| == p + 1 && forall i, j :: 0 <= i < j < |names| ==> names[i] != names[j]
    ensures names[p] !in Bind(names[..p], values[..p])
  {
    assert names[p] !in names[..p];
  }

  /** Binding a new name to its own handle keeps the tracking. */
  lemma TracksOneMore(vars: map<Id, HomValue>, env: map<Id, Vec>, x: Id, v: Vec)
    requires Tracks(vars, env, env) && OwnHandles(vars) && x !in env
    ensures Tracks(vars[x := HomValue(x)], env[x := v], env[x := v]) && OwnHandles(vars[x := HomValue(x)])
  {}

  lemma {:induction false} BindTracks(params: seq<Id>, args: seq<Vec>)
    requires |params| == |args|
    requires forall i, j :: 0 <= i < j < |params| ==> params[i] != params[j]
    ensures var vars, env := Bind(params, HandlesOf(params)), Bind(params, args);
      Tracks(vars, env, env) && OwnHandles(vars)
    decreases |params|
  {
    if params == [] {
      assert HandlesOf(params) == [];
    } else {
      var p := |params| - 1;
      assert HandlesOf(params)[..p] == HandlesOf(params[..p]) && HandlesOf(params)[p] == HomValue(params[p]);
      hide Tracks, Bind, OwnHandles, HandlesOf;
      BindTracks(params[..p], args[..p]);
      BindLast(params, HandlesOf(params), p);
      BindLast(params, args, p);
      LastNameIsNew(params, args, p);
      TracksOneMore(Bind(params[..p], HandlesOf(params[..p])), Bind(params[..p], args[..p]), params[p], args[p]);
    }
  }

  lemma {:induction false} OpSimulates(op: Op, args: seq<Vec>, table: seq<Tensor>, final: seq<Tensor>, w: World)
    requires NamesOk(op) && TraceOp(op, |args|, table, w).Some? && TraceOp(op, |args|, table, w).value.1 <= final
    ensures Exec(TraceOp(op, |args|, table, w).value.0, args, final, w) == EvalOp(op, args, w)
    decreases op, 0
  {
    match op
    case LeafOp(kind, data) => LeafRuns(kind, data, table, args, Frame(map[], final, w));
    case Composite(params, body) =>
      var vars, env := Bind(params, HandlesOf(params)), Bind(params, args);
      var f := Frame(env, final, w);
      BindTracks(params, args);
      assert RunSoFar(f, []) == Some(env);
      ExprSimulates(body, vars, env, [], table, f, env);
      var t := TraceExpr(body, vars, [], table, w).value;
      FlagsIgnored(Finalized(t.children), t.children, env, final, w);
  }

  lemma {:induction false} ExprSimulates(e: Expr, vars: map<Id, HomValue>, env: map<Id, Vec>, children: seq<Child>,
          table: seq<Tensor>, f: Frame, full: map<Id, Vec>)
    requires BodyNamesOk(e) && RunSoFar(f, children) == Some(full) && FreshFrom(full, |children|)
    requires Tracks(vars, env, full)
    requires TraceExpr(e, vars, children, table, f.w).Some?
    requires TraceExpr(e, vars, children, table, f.w).value.table <= f.table
    ensures var t := TraceExpr(e, vars, children, table, f.w).value;
      Simulates(full, RunSoFar(f, t.children), |t.children|, t.value.id, EvalExpr(e, env, f.w))
    decreases e, 0
  {
    match e
    case Var(name) =>
    case Let(name, bound, rest) => LetSimulates(e, name, bound, rest, vars, env, children, table, f, full);
    case Call(op, args) => CallSimulates(e, op, args, vars, env, children, table, f, full);
    case Add(l, r) => BinarySimulates(e, l, r, vars, env, children, table, f, full, AddOp(false));
    case Sub(l, r) => BinarySimulates(e, l, r, vars, env, children, table, f, full, AddOp(true));
    case Mul(l, r) => BinarySimulates(e, l, r, vars, env, children, table, f, full, MulOp);
    case AddConst(x, c) => ConstSimulates(e, x, vars, env, children, table, f, full, ConstAddOp, c);
    case SubConst(x, c) => SubConstSimulates(e, x, c, vars, env, children, table, f, full);
    case ConstSub(c, x) => ConstSubSimulates(e, x, c, vars, env, children, table, f, full);
    case MulConst(x, c) => ConstSimulates(e, x, vars, env, children, table, f, full, ConstMulOp, c);
    case Neg(x) => NegSimulates(e, x, vars, env, children, table, f, full);
    case Square(x) => SquareSimulates(e, x, vars, env, children, table, f, full);
  }

  lemma {:induction false} CallSimulates(e: Expr, op: Op, args: seq<Expr>, vars: map<Id, HomValue>, env: map<Id, Vec>,
          children: seq<Child>, table: seq<Tensor>, f: Frame, full: map<Id, Vec>)
    requires e == Call(op, args) && BodyNamesOk(e)
    requires RunSoFar(f, children) == Some(full) && FreshFrom(full, |children|) && Tracks(vars, env, full)
    requires TraceExpr(e, vars, children, table, f.w).Some?
    requires TraceExpr(e, vars, children, table, f.w).value.table <= f.table
    ensures var t := TraceExpr(e, vars, children, table, f.w).value;
      Simulates(full, RunSoFar(f, t.children), |t.children|, t.value.id, EvalExpr(e, env, f.w))
    decreases e, 0, 0
  {
    var a := TraceArgs(args, vars, children, table, f.w).value;
    var g := TraceOp(op, |args|, a.table, f.w).value;
    var t := TraceExpr(e, vars, children, table, f.w).value;
    ArgsSimulate(args, vars, env, children, table, f, full);
    var mid := RunSoFar(f, a.children);
    if mid.None? {
      Fails(f, a.children, t.children);
    } else {
      var vs := EvalArgs(args, env, f.w).value;
      OpSimulates(op, vs, a.table, f.table, f.w);
      RecordedRuns(f, g.0, a.values, a.children, mid.value, vs, EvalOp(op, vs, f.w));
    }
  }

  lemma {:induction false} BinarySimulates(e: Expr, l: Expr, r: Expr, vars: map<Id, HomValue>, env: map<Id, Vec>,
          children: seq<Child>, table: seq<Tensor>, f: Frame, full: map<Id, Vec>, kind: Kind)
    requires l < e && r < e && BodyNamesOk(l) && BodyNamesOk(r) && (kind.AddOp? || kind.MulOp?)
    requires RunSoFar(f, children) == Some(full) && FreshFrom(full, |children|) && Tracks(vars, env, full)
    requires TraceBinary(e, l, r, vars, children, table, f.w, kind).Some?
    requires TraceBinary(e, l, r, vars, children, table, f.w, kind).value.table <= f.table
    ensures var t := TraceBinary(e, l, r, vars, children, table, f.w, kind).value;
      var op := if kind.MulOp? then Times else if kind.isSub then Minus else Plus;
      Simulates(full, RunSoFar(f, t.children), |t.children|, t.value.id,
        Tracing.Both(op, EvalExpr(l, env, f.w), EvalExpr(r, env, f.w)))
    decreases e, 0, 0
  {
    var a := TraceExpr(l, vars, children, table, f.w).value;
    var b := TraceExpr(r, vars, a.children, a.table, f.w).value;
    var t := TraceBinary(e, l, r, vars, children, table, f.w, kind).value;
    ExprSimulates(l, vars, env, children, table, f, full);
    var mid := RunSoFar(f, a.children);
    if mid.None? {
      Fails(f, a.children, t.children);
    } else {
      TracksMore(vars, env, full, mid.value);
      ExprSimulates(r, vars, env, a.children, a.table, f, mid.value);
      var last := RunSoFar(f, b.children);
      if last.None? {
        Fails(f, b.children, t.children);
      } else {
        BinaryLast(f, kind, a.value, b.value, b.children, b.table, full, mid.value, last.value,
          EvalExpr(l, env, f.w).value, EvalExpr(r, env, f.w).value);
      }
    }
  }

  /** The recorded leaf on two handles whose values are known. */
  lemma BinaryLast(f: Frame, kind: Kind, a: HomValue, b: HomValue, children: seq<Child>, table: seq<Tensor>,
          full: map<Id, Vec>, mid: map<Id, Vec>, last: map<Id, Vec>, u: Vec, v: Vec)
    requires kind.AddOp? || kind.MulOp?
    requires RunSoFar(f, children) == Some(last) && FreshFrom(last, |children|)
    requires Extends(full, mid) && Extends(mid, last)
    requires a.id in mid && mid[a.id] == u && b.id in last && last[b.id] == v
    requires RecordLeaf(kind, [], [a, b], children, table).table <= f.table
    ensures var t := RecordLeaf(kind, [], [a, b], children, table);
      var op := if kind.MulOp? then Times else if kind.isSub then Minus else Plus;
      Simulates(full, RunSoFar(f, t.children), |t.children|, t.value.id, Elementwise(op, u, v))
  {
    LeafSimulates(f, kind, [], [a, b], children, table, last, [u, v]);
  }

  /** One traced operand followed by one leaf that reads it once. */
  lemma {:induction false} UnarySimulates(e: Expr, x: Expr, vars: map<Id, HomValue>, env: map<Id, Vec>,
          children: seq<Child>, table: seq<Tensor>, f: Frame, full: map<Id, Vec>, kind: Kind, data: seq<Tensor>)
    requires x < e && BodyNamesOk(x)
    requires RunSoFar(f, children) == Some(full) && FreshFrom(full, |children|) && Tracks(vars, env, full)
    requires TraceExpr(x, vars, children, table, f.w).Some?
    requires var a := TraceExpr(x, vars, children, table, f.w).value;
      RecordLeaf(kind, data, [a.value], a.children, a.table).table <= f.table
    ensures var a := TraceExpr(x, vars, children, table, f.w).value;
      var t := RecordLeaf(kind, data, [a.value], a.children, a.table);
      var v := EvalExpr(x, env, f.w);
      Simulates(full, RunSoFar(f, t.children), |t.children|, t.value.id,
        if v.None? then None else LeafValue(kind, DataContents(data, f.w), [v.value], f.w))
    decreases e, 0, 0
  {
    var a := TraceExpr(x, vars, children, table, f.w).value;
    var t := RecordLeaf(kind, data, [a.value], a.children, a.table);
    ExprSimulates(x, vars, env, children, table, f, full);
    var mid := RunSoFar(f, a.children);
    if mid.None? {
      Fails(f, a.children, t.children);
    } else {
      LeafSimulates(f, kind, data, [a.value], a.children, a.table, mid.value, [EvalExpr(x, env, f.w).value]);
    }
  }

  lemma {:induction false} ConstSimulates(e: Expr, x: Expr, vars: map<Id, HomValue>, env: map<Id, Vec>,
          children: seq<Child>, table: seq<Tensor>, f: Frame, full: map<Id, Vec>, kind: Kind, c: Tensor)
    requires x < e && BodyNamesOk(x) && (kind.ConstAddOp? || kind.ConstMulOp?)
    requires RunSoFar(f, children) == Some(full) && FreshFrom(full, |children|) && Tracks(vars, env, full)
    requires TraceConst(e, x, vars, children, table, f.w, kind, c).Some?
    requires TraceConst(e, x, vars, children, table, f.w, kind, c).value.table <= f.table
    ensures var t := TraceConst(e, x, vars, children, table, f.w, kind, c).value;
      Simulates(full, RunSoFar(f, t.children), |t.children|, t.value.id,
        Tracing.Both(if kind.ConstAddOp? then Plus else Times, EvalExpr(x, env, f.w), Some(Contents(c, f.w))))
    decreases e, 0, 1
  {
    UnarySimulates(e, x, vars, env, children, table, f, full, kind, [c]);
  }

  lemma SubtractIsAddNegated(v: Vec, c: Vec)
    ensures Elementwise(Minus, v, c) == Elementwise(Plus, v, Negated(c))
  {
    var a, b := Elementwise(Minus, v, c), Elementwise(Plus, v, Negated(c));
    if a.Some? { assert a.value == b.value; }
  }

  lemma NegateIsTimesMinusOne(v: Vec)
    ensures Elementwise(Times, v, [-1.0]) == Some(Negated(v))
  {
    assert Elementwise(Times, v, [-1.0]).value == Negated(v);
  }

  lemma ReverseSubtract(v: Vec, c: Vec)
    ensures Elementwise(Plus, Negated(v), c) == Elementwise(Minus, c, v)
  {
    var a, b := Elementwise(Plus, Negated(v), c), Elementwise(Minus, c, v);
    if a.Some? { assert a.value == b.value; }
  }

  lemma {:induction false} SubConstSimulates(e: Expr, x: Expr, c: Tensor, vars: map<Id, HomValue>, env: map<Id, Vec>,
          children: seq<Child>, table: seq<Tensor>, f: Frame, full: map<Id, Vec>)
    requires e == SubConst(x, c) && BodyNamesOk(e)
    requires RunSoFar(f, children) == Some(full) && FreshFrom(full, |children|) && Tracks(vars, env, full)
    requires TraceExpr(e, vars, children, table, f.w).Some?
    requires TraceExpr(e, vars, children, table, f.w).value.table <= f.table
    ensures var t := TraceExpr(e, vars, children, table, f.w).value;
      Simulates(full, RunSoFar(f, t.children), |t.children|, t.value.id, EvalExpr(e, env, f.w))
    decreases e, 0, 2
  {
    ConstSimulates(e, x, vars, env, children, table, f, full, ConstAddOp, Temporary(Negated(Contents(c, f.w))));
    var v := EvalExpr(x, env, f.w);
    if v.Some? {
      SubtractIsAddNegated(v.value, Contents(c, f.w));
    }
  }

  lemma {:induction false} NegSimulates(e: Expr, x: Expr, vars: map<Id, HomValue>, env: map<Id, Vec>,
          children: seq<Child>, table: seq<Tensor>, f: Frame, full: map<Id, Vec>)
    requires e == Neg(x) && BodyNamesOk(e)
    requires RunSoFar(f, children) == Some(full) && FreshFrom(full, |children|) && Tracks(vars, env, full)
    requires TraceExpr(e, vars, children, table, f.w).Some?
    requires TraceExpr(e, vars, children, table, f.w).value.table <= f.table
    ensures var t := TraceExpr(e, vars, children, table, f.w).value;
      Simulates(full, RunSoFar(f, t.children), |t.children|, t.value.id, EvalExpr(e, env, f.w))
    decreases e, 0, 2
  {
    ConstSimulates(e, x, vars, env, children, table, f, full, ConstMulOp, MinusOne());
    var v := EvalExpr(x, env, f.w);
    if v.Some? {
      NegateIsTimesMinusOne(v.value);
    }
  }

  /** The constant addition recorded on a negated handle. */
  lemma ConstSubLast(f: Frame, c: Tensor, a: HomValue, children: seq<Child>, table: seq<Tensor>, full: map<Id, Vec>,
          mid: map<Id, Vec>, v: Vec)
    requires RunSoFar(f, children) == Some(mid) && FreshFrom(mid, |children|) && Extends(full, mid)
    requires a.id in mid && mid[a.id] == Negated(v)
    requires RecordLeaf(ConstAddOp, [c], [a], children, table).table <= f.table
    ensures var t := RecordLeaf(ConstAddOp, [c], [a], children, table);
      Simulates(full, RunSoFar(f, t.children), |t.children|, t.value.id, Elementwise(Minus, Contents(c, f.w), v))
  {
    ReverseSubtract(v, Contents(c, f.w));
    LeafSimulates(f, ConstAddOp, [c], [a], children, table, mid, [Negated(v)]);
  }

  lemma {:induction false} LetSimulates(e: Expr, name: Id, bound: Expr, rest: Expr, vars: map<Id, HomValue>,
          env: map<Id, Vec>, children: seq<Child>, table: seq<Tensor>, f: Frame, full: map<Id, Vec>)
    requires e == Let(name, bound, rest) && BodyNamesOk(e)
    requires RunSoFar(f, children) == Some(full) && FreshFrom(full, |children|) && Tracks(vars, env, full)
    requires TraceExpr(e, vars, children, table, f.w).Some?
    requires TraceExpr(e, vars, children, table, f.w).value.table <= f.table
    ensures var t := TraceExpr(e, vars, children, table, f.w).value;
      Simulates(full, RunSoFar(f, t.children), |t.children|, t.value.id, EvalExpr(e, env, f.w))
    decreases e, 0, 2
  {
    var a := TraceExpr(bound, vars, children, table, f.w).value;
    var t := TraceExpr(e, vars, children, table, f.w).value;
    ExprSimulates(bound, vars, env, children, table, f, full);
    var mid := RunSoFar(f, a.children);
    if mid.None? {
      Fails(f, a.children, t.children);
    } else {
      TracksMore(vars, env, full, mid.value);
      ExprSimulates(rest, vars[name := a.value], env[name := EvalExpr(bound, env, f.w).value], a.children, a.table,
        f, mid.value);
    }
  }

  lemma {:induction false} ConstSubSimulates(e: Expr, x: Expr, c: Tensor, vars: map<Id, HomValue>, env: map<Id, Vec>,
          children: seq<Child>, table: seq<Tensor>, f: Frame, full: map<Id, Vec>)
    requires e == ConstSub(c, x) && BodyNamesOk(e)
    requires RunSoFar(f, children) == Some(full) && FreshFrom(full, |children|) && Tracks(vars, env, full)
    requires TraceExpr(e, vars, children, table, f.w).Some?
    requires TraceExpr(e, vars, children, table, f.w).value.table <= f.table
    ensures var t := TraceExpr(e, vars, children, table, f.w).value;
      Simulates(full, RunSoFar(f, t.children), |t.children|, t.value.id, EvalExpr(e, env, f.w))
    decreases e, 0, 2
  {
    hide Elementwise, Negated, Tracks, FreshFrom, RunSoFar;
    var a := TraceConst(e, x, vars, children, table, f.w, ConstMulOp, MinusOne()).value;
    var t := TraceExpr(e, vars, children, table, f.w).value;
    ConstSimulates(e, x, vars, env, children, table, f, full, ConstMulOp, MinusOne());
    var v := EvalExpr(x, env, f.w);
    if v.Some? {
      NegateIsTimesMinusOne(v.value);
      var mid := RunSoFar(f, a.children).value;
      ConstSubLast(f, c, a.value, a.children, a.table, full, mid, v.value);
    } else {
      Fails(f, a.children, t.children);
    }
  }

  lemma {:induction false} SquareSimulates(e: Expr, x: Expr, vars: map<Id, HomValue>, env: map<Id, Vec>,
          children: seq<Child>, table: seq<Tensor>, f: Frame, full: map<Id, Vec>)
    requires e == Square(x) && BodyNamesOk(e)
    requires RunSoFar(f, children) == Some(full) && FreshFrom(full, |children|) && Tracks(vars, env, full)
    requires TraceExpr(e, vars, children, table, f.w).Some?
    requires TraceExpr(e, vars, children, table, f.w).value.table <= f.table
    ensures var t := TraceExpr(e, vars, children, table, f.w).value;
      Simulates(full, RunSoFar(f, t.children), |t.children|, t.value.id, EvalExpr(e, env, f.w))
    decreases e, 0, 2
  {
    var a := TraceExpr(x, vars, children, table, f.w).value;
    var t := TraceExpr(e, vars, children, table, f.w).value;
    ExprSimulates(x, vars, env, children, table, f, full);
    var mid := RunSoFar(f, a.children);
    if mid.None? {
      Fails(f, a.children, t.children);
    } else {
      var v := EvalExpr(x, env, f.w).value;
      BinaryLast(f, MulOp, a.value, a.value, a.children, a.table, full, mid.value, mid.value, v, v);
    }
  }

  /** All arguments: their ids hold their direct values once the last of them is recorded. */
  lemma {:induction false} ArgsSimulate(args: seq<Expr>, vars: map<Id, HomValue>, env: map<Id, Vec>,
          children: seq<Child>, table: seq<Tensor>, f: Frame, full: map<Id, Vec>)
    requires (forall i :: 0 <= i < |args| ==> BodyNamesOk(args[i]))
    requires RunSoFar(f, children) == Some(full) && FreshFrom(full, |children|) && Tracks(vars, env, full)
    requires TraceArgs(args, vars, children, table, f.w).Some?
    requires TraceArgs(args, vars, children, table, f.w).value.table <= f.table
    ensures var t := TraceArgs(args, vars, children, table, f.w).value;
      var now, vs := RunSoFar(f, t.children), EvalArgs(args, env, f.w);
      (now.Some? <==> vs.Some?) &&
      (now.Some? ==> Extends(full, now.value) && FreshFrom(now.value, |t.children|)) &&
      (now.Some? ==> Holds(t.values, now.value, vs.value))
    decreases args, 0
  {
    if args != [] {
      var p := |args| - 1;
      var a := TraceArgs(args[..p], vars, children, table, f.w).value;
      var t := TraceArgs(args, vars, children, table, f.w).value;
      ArgsSimulate(args[..p], vars, env, children, table, f, full);
      var mid := RunSoFar(f, a.children);
      if mid.None? {
        Fails(f, a.children, t.children);
      } else {
        TracksMore(vars, env, full, mid.value);
        ExprSimulates(args[p], vars, env, a.children, a.table, f, mid.value);
        var now, v := RunSoFar(f, t.children), EvalExpr(args[p], env, f.w);
        if now.Some? {
          HoldsOneMore(a.values, t.values[p], mid.value, now.value, EvalArgs(args[..p], env, f.w).value, v.value);
        }
      }
    }
  }

  /** The ids hold the values. */
  ghost predicate Holds(ids: seq<HomValue>, now: map<Id, Vec>, vs: seq<Vec>) {
    |ids| == |vs| && forall i :: 0 <= i < |ids| ==> ids[i].id in now && now[ids[i].id] == vs[i]
  }

  lemma HoldsOneMore(ids: seq<HomValue>, id: HomValue, before: map<Id, Vec>, after: map<Id, Vec>, vs: seq<Vec>, v: Vec)
    requires Holds(ids, before, vs) && Extends(before, after) && id.id in after && after[id.id] == v
    ensures Holds(ids + [id], after, vs + [v])
  {}

  // ----- the main result -----

  /** Tracing fails only for programs whose direct run fails; otherwise executing the recorded graph, with any table
      that still holds what the trace stored, is the direct run. */
  lemma TraceThenExecute(op: Op, args: seq<Vec>, table: seq<Tensor>, final: seq<Tensor>, w: World)
    requires NamesOk(op)
    ensures match TraceOp(op, |args|, table, w)
      case None => EvalOp(op, args, w).None?
      case Some(r) => table <= r.1 && (r.1 <= final ==> Exec(r.0, args, final, w) == EvalOp(op, args, w))
  {
    if TraceOp(op, |args|, table, w).None? {
      UntraceableOp(op, args, table, w);
    } else if TraceOp(op, |args|, table, w).value.1 <= final {
      OpSimulates(op, args, table, final, w);
    }
  }
}
