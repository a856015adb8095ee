/**
 The tracer as the object it is: `recorded` grows with every call, the tensor table is shared with the tracers of
 nested scopes, and `Finalize` writes the last-use flags into the recorded ops.
 */
module TracerMachine {
  import opened Wrappers
  import opened OpGraph
  import opened Tracing
  import opened TracingCorrect
  import opened ClearArithmetic

  /** The `tensors` dict, whose keys are its successive sizes. */
  class TensorTable {
    var entries: seq<Tensor>

    constructor ()
      ensures entries == []
    {
      entries := [];
    }

    /** `_register_tensor`: one reference per tensor object. */
    method RegisterTensor(t: Tensor) returns (ref: nat)
      modifies this
      ensures (ref, entries) == Register(old(entries), t)
    {
      for i := 0 to |entries|
        invariant entries == old(entries) && FindRef(entries, t, 0) == FindRef(entries, t, i)
      {
        if t.Object? && entries[i] == t {
          return i;
        }
      }
      ref := |entries|;
      entries := entries + [t];
    }
  }

  class Tracer {
    var recorded: seq<Child>
    const table: TensorTable

    constructor (table: TensorTable)
      ensures recorded == [] && this.table == table
    {
      this.recorded := [];
      this.table := table;
    }

    /** `call`: serialize the op, then allocate the next id and append. */
    method Call(op: Op, inputs: seq<HomValue>, w: World) returns (r: Option<HomValue>)
      modifies this, table
      ensures var g := TraceOp(op, |inputs|, old(table.entries), w);
        match g
        case None => r == None
        case Some(s) => (
          r == Some(HomValue(FreshName(|old(recorded)|))) &&
          recorded == Recorded(s.0, inputs, old(recorded)) && table.entries == s.1)
      decreases op, 1
    {
      var g := SerializeOp(op, |inputs|, w);
      if g.None? {
        return None;
      }
      var output := HomValue(FreshName(|recorded|));
      recorded := recorded + [Child(g.value, Ids(inputs), output.id, [])];
      r := Some(output);
    }

    method SerializeOp(op: Op, arity: nat, w: World) returns (r: Option<Graph>)
      modifies table
      ensures match TraceOp(op, arity, old(table.entries), w)
        case None => r == None
        case Some(s) => r == Some(s.0) && table.entries == s.1
      decreases op, 0
    {
      match op
      case LeafOp(kind, data) =>
        var refs := RegisterData(data);
        r := Some(LeafNode(kind, refs));
      case Composite(params, body) =>
        if |params| != arity {
          return None;
        }
        var bodyTracer := new Tracer(table);
        var output := RunForward(body, Bind(params, HandlesOf(params)), bodyTracer, w);
        if output.None? {
          return None;
        }
        bodyTracer.Finalize();
        r := Some(Scope(params, bodyTracer.recorded, output.value.id));
    }

    method RegisterData(data: seq<Tensor>) returns (refs: seq<nat>)
      modifies table
      ensures (refs, table.entries) == RegisterAll(old(table.entries), data)
    {
      refs := [];
      for i := 0 to |data|
        invariant (refs, table.entries) == RegisterAll(old(table.entries), data[..i])
      {
        assert data[..i + 1][..i] == data[..i];
        var ref := table.RegisterTensor(data[i]);
        refs := refs + [ref];
      }
      assert data[..|data|] == data;
    }

    /** One leaf op built by an overloaded operator, and called. */
    method CallLeaf(kind: Kind, data: seq<Tensor>, inputs: seq<HomValue>) returns (r: HomValue)
      modifies this, table
      ensures Traced(r, recorded, table.entries) == RecordLeaf(kind, data, inputs, old(recorded), old(table.entries))
    {
      var refs := RegisterData(data);
      r := HomValue(FreshName(|recorded|));
      recorded := recorded + [Child(LeafNode(kind, refs), Ids(inputs), r.id, [])];
    }

    /** `_homvalue_mul` on two handles: equal handles square. */
    method MulHandles(x: HomValue, y: HomValue) returns (r: HomValue)
      modifies this, table
      ensures Traced(r, recorded, table.entries) == RecordLeaf(MulOp, [], [x, y], old(recorded), old(table.entries))
    {
      if x == y {
        r := CallLeaf(MulOp, [], [x, x]);
      } else {
        r := CallLeaf(MulOp, [], [x, y]);
      }
    }

    method CombineHandles(kind: Kind, x: HomValue, y: HomValue) returns (r: HomValue)
      requires kind.AddOp? || kind.MulOp?
      modifies this, table
      ensures Traced(r, recorded, table.entries) == RecordLeaf(kind, [], [x, y], old(recorded), old(table.entries))
    {
      if kind.MulOp? {
        r := MulHandles(x, y);
      } else {
        r := CallLeaf(kind, [], [x, y]);
      }
    }

    /** `finalize`: walk the ops, and the inputs of each op, backwards with the set of names seen so far. */
    method Finalize()
      modifies this
      ensures recorded == Finalized(old(recorded))
    {
      ghost var was := recorded;
      var seen: set<Id> := {};
      for i := |recorded| downto 0
        invariant |recorded| == |was|
        invariant forall k :: 0 <= k < i ==> recorded[k] == was[k]
        invariant forall k :: i <= k < |was| ==> recorded[k] == Finalized(was)[k]
        invariant forall n :: n in seen <==> exists k :: i <= k < |was| && n in was[k].inputs
      {
        var inputs := recorded[i].inputs;
        ghost var seenAfter := seen;
        var flags: seq<bool> := [];
        for p := |inputs| downto 0
          invariant |flags| == |inputs| - p
          invariant forall q :: p <= q < |inputs| ==> flags[q - p] == IsLastUse(was, i, q)
          invariant forall n :: n in seen <==> n in seenAfter || n in inputs[p..]
        {
          assert inputs[p..] == [inputs[p]] + inputs[p + 1..];
          flags := [inputs[p] !in seen] + flags;
          seen := seen + {inputs[p]};
        }
        recorded := recorded[i := recorded[i].(lastUses := flags)];
        assert flags == Finalized(was)[i].lastUses;
      }
    }
  }

  /** The Python body of `forward`, run on handles under tracer t. */
  method RunForward(e: Expr, vars: map<Id, HomValue>, t: Tracer, w: World) returns (r: Option<HomValue>)
    modifies t, t.table
    ensures match TraceExpr(e, vars, old(t.recorded), old(t.table.entries), w)
      case None => r == None
      case Some(s) => r == Some(s.value) && t.recorded == s.children && t.table.entries == s.table
    decreases e, 0
  {
    hide TraceBinary, TraceConst, TraceArgs, TraceOp, Recorded, RecordLeaf, Negated, Contents;
    match e
    case Var(name) =>
      r := if name in vars then Some(vars[name]) else None;
    case Let(name, bound, rest) =>
      r := RunForward(bound, vars, t, w);
      if r.Some? {
        r := RunForward(rest, vars[name := r.value], t, w);
      }
    case Call(op, args) =>
      var values := RunArguments(args, vars, t, w);
      if values.None? {
        return None;
      }
      r := t.Call(op, values.value, w);
    case Add(l, r') => r := RunBinary(e, l, r', vars, t, w, AddOp(false));
    case Sub(l, r') => r := RunBinary(e, l, r', vars, t, w, AddOp(true));
    case Mul(l, r') => r := RunBinary(e, l, r', vars, t, w, MulOp);
    case AddConst(x, c) => r := RunConst(e, x, vars, t, w, ConstAddOp, c);
    case SubConst(x, c) => r := RunConst(e, x, vars, t, w, ConstAddOp, Temporary(Negated(Contents(c, w))));
    case ConstSub(c, x) =>
      r := RunConst(e, x, vars, t, w, ConstMulOp, MinusOne());
      if r.Some? {
        var v := t.CallLeaf(ConstAddOp, [c], [r.value]);
        r := Some(v);
      }
    case MulConst(x, c) => r := RunConst(e, x, vars, t, w, ConstMulOp, c);
    case Neg(x) => r := RunConst(e, x, vars, t, w, ConstMulOp, MinusOne());
    case Square(x) =>
      r := RunForward(x, vars, t, w);
      if r.Some? {
        var v := t.CallLeaf(MulOp, [], [r.value, r.value]);
        r := Some(v);
      }
  }

  method RunBinary(e: Expr, l: Expr, r: Expr, vars: map<Id, HomValue>, t: Tracer, w: World, kind: Kind)
    returns (v: Option<HomValue>)
    requires l < e && r < e && (kind.AddOp? || kind.MulOp?)
    modifies t, t.table
    ensures match TraceBinary(e, l, r, vars, old(t.recorded), old(t.table.entries), w, kind)
      case None => v == None
      case Some(s) => v == Some(s.value) && t.recorded == s.children && t.table.entries == s.table
    decreases e, 0, 0
  {
    v := RunForward(l, vars, t, w);
    if v.Some? {
      var b := RunSecond(e, r, v.value, vars, t, w, kind);
      v := b;
    }
  }

  /** The second operand, once the first one is recorded as x. */
  method RunSecond(e: Expr, r: Expr, x: HomValue, vars: map<Id, HomValue>, t: Tracer, w: World, kind: Kind)
    returns (v: Option<HomValue>)
    requires r < e && (kind.AddOp? || kind.MulOp?)
    modifies t, t.table
    ensures var s := TraceExpr(r, vars, old(t.recorded), old(t.table.entries), w);
      match s
      case None => v == None
      case Some(b) => (
        var whole := RecordLeaf(kind, [], [x, b.value], b.children, b.table);
        v == Some(whole.value) && t.recorded == whole.children && t.table.entries == whole.table)
    decreases e, 0, 0, 0
  {
    v := RunForward(r, vars, t, w);
    if v.Some? {
      var out := t.CombineHandles(kind, x, v.value);
      v := Some(out);
    }
  }

  method RunConst(e: Expr, x: Expr, vars: map<Id, HomValue>, t: Tracer, w: World, kind: Kind, c: Tensor)
    returns (v: Option<HomValue>)
    requires x < e
    modifies t, t.table
    ensures match TraceConst(e, x, vars, old(t.recorded), old(t.table.entries), w, kind, c)
      case None => v == None
      case Some(s) => v == Some(s.value) && t.recorded == s.children && t.table.entries == s.table
    decreases e, 0, 0
  {
    v := RunOperandConst(e, x, vars, t, w, kind, c);
  }

  /** The operand, then the constant op on it. */
  method RunOperandConst(e: Expr, x: Expr, vars: map<Id, HomValue>, t: Tracer, w: World, kind: Kind, c: Tensor)
    returns (v: Option<HomValue>)
    requires x < e
    modifies t, t.table
    ensures match TraceExpr(x, vars, old(t.recorded), old(t.table.entries), w)
      case None => v == None
      case Some(a) => (
        var whole := RecordLeaf(kind, [c], [a.value], a.children, a.table);
        v == Some(whole.value) && t.recorded == whole.children && t.table.entries == whole.table)
    decreases e, 0, 0, 0
  {
    v := RunForward(x, vars, t, w);
    if v.Some? {
      var out := t.CallLeaf(kind, [c], [v.value]);
      v := Some(out);
    }
  }

  method RunArguments(args: seq<Expr>, vars: map<Id, HomValue>, t: Tracer, w: World) returns (r: Option<seq<HomValue>>)
    modifies t, t.table
    ensures match TraceArgs(args, vars, old(t.recorded), old(t.table.entries), w)
      case None => r == None
      case Some(s) => r == Some(s.values) && t.recorded == s.children && t.table.entries == s.table
    decreases args, 0
  {
    if args == [] {
      return Some([]);
    }
    var p := |args| - 1;
    r := RunArguments(args[..p], vars, t, w);
    if r.Some? {
      var v := RunForward(args[p], vars, t, w);
      r := if v.None? then None else Some(r.value + [v.value]);
    }
  }

  /** Serialize an operator and run the serialized section in clear: the outcome is that of running the operator, and on
      modelled leaves what the program text says for each entry. */
  method CompileAndRun(op: Op, args: seq<Vec>, w: World) returns (r: Option<Vec>)
    requires NamesOk(op)
    ensures r == EvalOp(op, args, w)
    ensures FollowsText(r, op, args, w)
  {
    ValueFollowsText(op, args, w);
    hide FollowsText;
    var table := new TensorTable();
    var tracer := new Tracer(table);
    var g := tracer.SerializeOp(op, |args|, w);
    TraceThenExecute(op, args, [], table.entries, w);
    if g.None? {
      return None;
    }
    r := RunClearSection(g.value, args, table.entries, w);
  }

  // ----- the tensor table stores every object once -----

  ghost predicate ObjectsOnce(table: seq<Tensor>) {
    forall i, j :: 0 <= i < j < |table| && table[i].Object? ==> table[i] != table[j]
  }

  lemma {:induction false} FindRefComplete(table: seq<Tensor>, t: Tensor, i: nat)
    requires i <= |table| && t.Object? && FindRef(table, t, i).None?
    ensures forall k :: i <= k < |table| ==> table[k] != t
    decreases |table| - i
  {
    if i < |table| {
      FindRefComplete(table, t, i + 1);
    }
  }

  /** However often an operator is called, its data is stored once. */
  lemma RegisterKeepsObjectsOnce(table: seq<Tensor>, t: Tensor)
    requires ObjectsOnce(table)
    ensures ObjectsOnce(Register(table, t).1)
    ensures t in table && t.Object? ==> Register(table, t).1 == table
  {
    if t.Object? && FindRef(table, t, 0).None? {
      FindRefComplete(table, t, 0);
    }
  }

  // ----- a parameter called v<digits> -----

  /** k calls of one leaf on the parameter, then the parameter itself. */
  function CallsThenParameter(k: nat, p: Id): Expr {
    if k == 0 then Var(p) else Let("_", Call(LeafOp(Other(0), []), [Var(p)]), CallsThenParameter(k - 1, p))
  }

  function ClashProgram(n: nat): Op {
    Composite([FreshName(n)], CallsThenParameter(n + 1, FreshName(n)))
  }

  function OnesWorld(): World {
    World(i => [], (code, data, inputs) => Some([1.0]))
  }

  lemma {:induction false} ClashBodyNames(k: nat, p: Id)
    ensures BodyNamesOk(CallsThenParameter(k, p))
  {
    if k > 0 { ClashBodyNames(k - 1, p); }
  }

  lemma OneArgument(p: Id, env: map<Id, Vec>, w: World)
    requires p in env
    ensures EvalArgs([Var(p)], env, w) == Some([env[p]])
  {
    var args := [Var(p)];
    assert args[..|args| - 1] == [];
    assert EvalArgs(args[..|args| - 1], env, w) == Some([]);
    assert EvalExpr(args[|args| - 1], env, w) == Some(env[p]);
    assert [] + [env[p]] == [env[p]];
  }

  lemma OneTracedArgument(p: Id, vars: map<Id, HomValue>, children: seq<Child>, table: seq<Tensor>, w: World)
    requires p in vars
    ensures TraceArgs([Var(p)], vars, children, table, w) == Some(TracedArgs([vars[p]], children, table))
  {
    var args := [Var(p)];
    assert args[..|args| - 1] == [];
    assert TraceArgs(args[..|args| - 1], vars, children, table, w) == Some(TracedArgs([], children, table));
    assert TraceExpr(args[|args| - 1], vars, children, table, w) == Some(Traced(vars[p], children, table));
    assert [] + [vars[p]] == [vars[p]];
  }

  lemma {:induction false} ClashEval(k: nat, p: Id, env: map<Id, Vec>)
    requires p != "_" && p in env
    ensures EvalExpr(CallsThenParameter(k, p), env, OnesWorld()) == Some(env[p])
  {
    if k > 0 {
      var w := OnesWorld();
      OneArgument(p, env, w);
      assert EvalOp(LeafOp(Other(0), []), [env[p]], w) == Some([1.0]);
      assert EvalExpr(Call(LeafOp(Other(0), []), [Var(p)]), env, w) == Some([1.0]);
      ClashEval(k - 1, p, env["_" := [1.0]]);
    }
  }

  /** Without calls left, the parameter's name is bound to the last call's value. */
  lemma ClashEnd(p: Id, vars: map<Id, HomValue>, children: seq<Child>, full: map<Id, Vec>, f: Frame)
    requires p in vars && vars[p].id == p && RunSoFar(f, children) == Some(full) && p in full && full[p] == [1.0]
    ensures YieldsOne(TraceExpr(CallsThenParameter(0, p), vars, children, f.table, f.w), p, f)
  {
    hide RunSoFar;
  }

  lemma RecordedLength(g: Graph, args: seq<HomValue>, children: seq<Child>)
    ensures |Recorded(g, args, children)| == |children| + 1
  {}

  /** One traced call: a further child, and its handle bound to the throw-away name. */
  lemma ClashRecord(k: nat, p: Id, vars: map<Id, HomValue>, children: seq<Child>, f: Frame, more: seq<Child>)
    requires k > 0 && p in vars && more == Recorded(LeafNode(Other(0), []), [vars[p]], children)
    ensures TraceExpr(CallsThenParameter(k, p), vars, children, f.table, f.w) ==
            TraceExpr(CallsThenParameter(k - 1, p), vars["_" := HomValue(FreshName(|children|))], more, f.table, f.w)
  {
    OneTracedArgument(p, vars, children, f.table, f.w);
    assert TraceOp(LeafOp(Other(0), []), 1, f.table, f.w) == Some((LeafNode(Other(0), []), f.table));
  }

  /** Its execution binds the next fresh name to one. */
  lemma ClashRun(v: HomValue, children: seq<Child>, full: map<Id, Vec>, f: Frame, more: seq<Child>)
    requires f.w == OnesWorld() && RunSoFar(f, children) == Some(full) && v.id in full
    requires more == Recorded(LeafNode(Other(0), []), [v], children)
    ensures RunSoFar(f, more) == Some(full[FreshName(|children|) := [1.0]])
  {
    var j := |children|;
    assert more[..j] == children && more[..j + 1] == more;
    ExecAllSnoc(more, j, f.start, f.table, f.w);
  }

  /** Executing the trace binds p to one. */
  ghost predicate YieldsOne(t: Option<Traced>, p: Id, f: Frame) {
    t.Some? && t.value.table == f.table && t.value.value.id == p &&
    var now := RunSoFar(f, t.value.children);
    now.Some? && p in now.value && now.value[p] == [1.0]
  }

  /** After the (n+1)-st call the parameter's name belongs to that call's output. */
  lemma {:induction false} ClashTrace(k: nat, n: nat, p: Id, vars: map<Id, HomValue>, children: seq<Child>,
          full: map<Id, Vec>, f: Frame)
    requires |children| + k == n + 1 && f.w == OnesWorld() && p == FreshName(n)
    requires p in vars && vars[p].id == p && RunSoFar(f, children) == Some(full) && p in full
    requires k == 0 ==> full[p] == [1.0]
    ensures YieldsOne(TraceExpr(CallsThenParameter(k, p), vars, children, f.table, f.w), p, f)
    decreases k
  {
    hide *;
    if k == 0 {
      ClashEnd(p, vars, children, full, f);
    } else {
      var j := |children|;
      var more := Recorded(LeafNode(Other(0), []), [vars[p]], children);
      RecordedLength(LeafNode(Other(0), []), [vars[p]], children);
      ClashRecord(k, p, vars, children, f, more);
      ClashRun(vars[p], children, full, f, more);
      FreshInjective(j, n);
      FreshIsNotThrowAway(n);
      ClashTrace(k - 1, n, p, vars["_" := HomValue(FreshName(j))], more, full[FreshName(j) := [1.0]], f);
    }
  }

  lemma FreshIsNotThrowAway(n: nat)
    ensures FreshName(n) != "_"
  {
    assert FreshName(n)[0] == 'v';
  }

  /** With a parameter named v<n> a well-formed program is miscompiled: it should return its input. */
  lemma NameClash(n: nat)
    ensures BodyNamesOk(ClashProgram(n).body)
    ensures EvalOp(ClashProgram(n), [[0.0]], OnesWorld()) == Some([0.0])
    ensures var t := TraceOp(ClashProgram(n), 1, [], OnesWorld());
      t.Some? && Exec(t.value.0, [[0.0]], t.value.1, OnesWorld()) == Some([1.0])
  {
    var p := FreshName(n);
    var env := Bind([p], [[0.0]]);
    ClashBodyNames(n + 1, p);
    FreshIsNotThrowAway(n);
    assert [p][..0] == [] && p in env && env[p] == [0.0];
    ClashEval(n + 1, p, env);
    ClashExec(n, p, env);
  }

  lemma ClashExec(n: nat, p: Id, env: map<Id, Vec>)
    requires p == FreshName(n) && env == Bind([p], [[0.0]]) && p in env && env[p] == [0.0]
    ensures var t := TraceOp(ClashProgram(n), 1, [], OnesWorld());
      t.Some? && Exec(t.value.0, [[0.0]], t.value.1, OnesWorld()) == Some([1.0])
  {
    hide TraceExpr, CallsThenParameter;
    var w, vars := OnesWorld(), Bind([p], HandlesOf([p]));
    assert [p][..0] == [] && p in vars && vars[p] == HomValue(p);
    var f := Frame(env, [], w);
    ClashTrace(n + 1, n, p, vars, [], env, f);
    var t := TraceExpr(CallsThenParameter(n + 1, p), vars, [], [], w).value;
    FlagsIgnored(Finalized(t.children), t.children, env, [], w);
  }

  /** Every program whose single parameter is p, with well-named inner operators, is compiled correctly. */
  ghost predicate SafeParameter(p: Id) {
    forall body: Expr, args: seq<Vec>, w: World :: BodyNamesOk(body) ==>
      CompiledCorrectly(Composite([p], body), args, w)
  }

  ghost predicate CompiledCorrectly(op: Op, args: seq<Vec>, w: World) {
    match TraceOp(op, |args|, [], w)
    case None => EvalOp(op, args, w).None?
    case Some(r) => Exec(r.0, args, r.1, w) == EvalOp(op, args, w)
  }

  /** The tracer's naming is exactly as safe as this: p must not look like v<digits>. */
  lemma SafeExactlyWhenNotFresh(p: Id)
    ensures SafeParameter(p) <==> forall n: nat :: p != FreshName(n)
  {
    if forall n: nat :: p != FreshName(n) {
      forall body: Expr, args: seq<Vec>, w: World | BodyNamesOk(body)
        ensures CompiledCorrectly(Composite([p], body), args, w)
      {
        var op := Composite([p], body);
        var t := TraceOp(op, |args|, [], w);
        TraceThenExecute(op, args, [], if t.Some? then t.value.1 else [], w);
      }
    } else {
      var n: nat :| p == FreshName(n);
      NameClash(n);
      assert !CompiledCorrectly(Composite([p], ClashProgram(n).body), [[0.0]], OnesWorld());
    }
  }
}
