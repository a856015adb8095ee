/**
 The recorded graph of `hom_op_tracer.py` and the interpreter `run_clear_section` of `clear_execution.py`, which
 counts the remaining uses of every name and releases a value after its last one.
 */
module OpGraph {
  import opened Wrappers

  type Vec = seq<real>
  type Id = string

  /** A tensor: an object kept by an operator, or a fresh one made while tracing (a negated constant). */
  datatype Tensor = Object(ident: nat) | Temporary(values: Vec)

  /** What a leaf computes. `Other` stands for every leaf whose plaintext function is not modelled. */
  datatype Kind = AddOp(isSub: bool) | MulOp | ConstAddOp | ConstMulOp | Other(code: nat)

  /** A serialized op: a leaf with references into the tensor table, or a scope of its own. */
  datatype Graph =
    | LeafNode(kind: Kind, dataRef: seq<nat>)
    | Scope(bodyInputs: seq<Id>, children: seq<Child>, bodyOutput: Id)

  datatype Child = Child(graph: Graph, inputs: seq<Id>, output: Id, lastUses: seq<bool>)

  /** The tensor contents, and the plaintext function of the other leaves. */
  datatype World = World(heap: nat -> Vec, other: (nat, seq<Vec>, seq<Vec>) -> Option<Vec>)

  // ----- plaintext arithmetic of the leaves -----

  datatype Arith = Plus | Minus | Times

  function Apply(op: Arith, a: real, b: real): real {
    match op
    case Plus => a + b
    case Minus => a - b
    case Times => a * b
  }

  /** Elementwise on equal sizes; a single element is broadcast. */
  function Elementwise(op: Arith, a: Vec, b: Vec): Option<Vec> {
    if |a| == |b| then Some(seq(|a|, i requires 0 <= i < |a| => Apply(op, a[i], b[i])))
    else if |b| == 1 then Some(seq(|a|, i requires 0 <= i < |a| => Apply(op, a[i], b[0])))
    else if |a| == 1 then Some(seq(|b|, i requires 0 <= i < |b| => Apply(op, a[0], b[i])))
    else None
  }

  function Contents(t: Tensor, w: World): Vec {
    if t.Object? then w.heap(t.ident) else t.values
  }

  /** `forward_clear` of a leaf that holds `data`. */
  function LeafValue(kind: Kind, data: seq<Vec>, inputs: seq<Vec>, w: World): Option<Vec> {
    match kind
    case AddOp(isSub) =>
      if |inputs| != 2 then None else Elementwise(if isSub then Minus else Plus, inputs[0], inputs[1])
    case MulOp => if |inputs| != 2 then None else Elementwise(Times, inputs[0], inputs[1])
    case ConstAddOp => if |inputs| != 1 || |data| != 1 then None else Elementwise(Plus, inputs[0], data[0])
    case ConstMulOp => if |inputs| != 1 || |data| != 1 then None else Elementwise(Times, inputs[0], data[0])
    case Other(code) => w.other(code, data, inputs)
  }

  // ----- the interpreter that releases nothing -----

  /** `[env[name] for name in names]`. */
  function Lookup(env: map<Id, Vec>, names: seq<Id>): (r: Option<seq<Vec>>)
    ensures r.Some? <==> forall n :: n in names ==> n in env
    ensures r.Some? ==> |r.value| == |names| && forall i :: 0 <= i < |names| ==> r.value[i] == env[names[i]]
  {
    if names == [] then Some([])
    else
      var rest := Lookup(env, names[1..]);
      if names[0] in env && rest.Some? then Some([env[names[0]]] + rest.value) else None
  }

  /** `dict(zip(names, values, strict=True))`. */
  function Bind<T>(names: seq<Id>, values: seq<T>): (env: map<Id, T>)
    requires |names| == |values|
    ensures env.Keys == set n | n in names
  {
    if names == [] then map[]
    else
      var p := |names| - 1;
      assert names == names[..p] + [names[p]];
      Bind(names[..p], values[..p])[names[p] := values[p]]
  }

  function Resolve(refs: seq<nat>, table: seq<Tensor>, w: World): Option<seq<Vec>> {
    if forall r :: r in refs ==> r < |table|
    then Some(seq(|refs|, i requires 0 <= i < |refs| => (assert refs[i] in refs; Contents(table[refs[i]], w))))
    else None
  }

  function Exec(g: Graph, inputs: seq<Vec>, table: seq<Tensor>, w: World): Option<Vec>
    decreases g, 1
  {
    match g
    case LeafNode(kind, dataRef) =>
      var data := Resolve(dataRef, table, w);
      if data.None? then None else LeafValue(kind, data.value, inputs, w)
    case Scope(bodyInputs, children, bodyOutput) =>
      if |bodyInputs| != |inputs| then None
      else
        var env := ExecAll(children, Bind(bodyInputs, inputs), table, w);
        if env.Some? && bodyOutput in env.value then Some(env.value[bodyOutput]) else None
  }

  /** All children in order; every name stays bound. */
  function ExecAll(children: seq<Child>, env: map<Id, Vec>, table: seq<Tensor>, w: World): Option<map<Id, Vec>>
    decreases children, 0
  {
    if children == [] then Some(env)
    else
      var p := |children| - 1;
      var before := ExecAll(children[..p], env, table, w);
      if before.None? then None else ExecChild(children[p], before.value, table, w)
  }

  function ExecChild(c: Child, env: map<Id, Vec>, table: seq<Tensor>, w: World): Option<map<Id, Vec>>
    decreases c, 0
  {
    var args := Lookup(env, c.inputs);
    if args.None? then None
    else
      var v := Exec(c.graph, args.value, table, w);
      if v.None? then None else Some(env[c.output := v.value])
  }

  lemma ExecAllSnoc(children: seq<Child>, i: nat, env: map<Id, Vec>, table: seq<Tensor>, w: World)
    requires i < |children|
    ensures var before := ExecAll(children[..i], env, table, w);
      ExecAll(children[..i + 1], env, table, w)
        == if before.None? then None else ExecChild(children[i], before.value, table, w)
  {
    assert children[..i + 1][..i] == children[..i];
  }

  lemma {:induction false} ExecAllStops(children: seq<Child>, i: nat, env: map<Id, Vec>, table: seq<Tensor>, w: World)
    requires i <= |children| && ExecAll(children[..i], env, table, w).None?
    ensures ExecAll(children, env, table, w).None?
    decreases |children| - i
  {
    if i < |children| {
      ExecAllSnoc(children, i, env, table, w);
      ExecAllStops(children, i + 1, env, table, w);
    } else {
      assert children[..i] == children;
    }
  }

  // ----- use counts -----

  /** The names read by children i and later, with multiplicity. */
  function UsesFrom(children: seq<Child>, i: nat): multiset<Id>
    requires i <= |children|
    decreases |children| - i
  {
    if i == |children| then multiset{} else multiset(children[i].inputs) + UsesFrom(children, i + 1)
  }

  lemma {:induction false} UsedLater(children: seq<Child>, i: nat, name: Id)
    requires i <= |children|
    ensures name in UsesFrom(children, i) <==> exists k :: i <= k < |children| && name in children[k].inputs
    decreases |children| - i
  {
    UsesStep(children, i);
    if i < |children| {
      hide UsesFrom;
      UsedLater(children, i + 1, name);
      assert name in multiset(children[i].inputs) <==> name in children[i].inputs;
    }
  }

  /** Every name that is still to be read is bound to the same value in both environments. */
  ghost predicate Agrees(env: map<Id, Vec>, full: map<Id, Vec>, uses: multiset<Id>) {
    forall n :: n in uses ==> (n in env <==> n in full) && (n in full ==> env[n] == full[n])
  }

  lemma AgreesItself(env: map<Id, Vec>, uses: multiset<Id>)
    ensures Agrees(env, env, uses)
  {}

  lemma AgreeOnInputs(env: map<Id, Vec>, full: map<Id, Vec>, uses: multiset<Id>, names: seq<Id>, later: multiset<Id>)
    requires Agrees(env, full, uses) && uses == multiset(names) + later
    ensures Lookup(env, names) == Lookup(full, names)
    ensures Lookup(full, names).Some? ==> forall n :: n in names ==> n in full
  {
    forall n | n in names
      ensures n in uses
    {
      assert n in multiset(names);
    }
    if Lookup(full, names).Some? { assert Lookup(env, names).value == Lookup(full, names).value; }
  }

  lemma AgreeOnBoth(env: map<Id, Vec>, full: map<Id, Vec>, uses: multiset<Id>, name: Id, v: Vec)
    requires Agrees(env, full, uses)
    ensures Agrees(env[name := v], full[name := v], uses)
  {}

  lemma AgreeOnOutput(env: map<Id, Vec>, full: map<Id, Vec>, uses: multiset<Id>, name: Id)
    requires Agrees(env, full, uses) && name in uses
    ensures (name in env <==> name in full) && (name in full ==> env[name] == full[name])
  {}

  /** One child's share of the uses. */
  lemma UsesStep(children: seq<Child>, i: nat)
    requires i <= |children|
    ensures UsesFrom(children, i) ==
            if i == |children| then multiset{} else multiset(children[i].inputs) + UsesFrom(children, i + 1)
  {}

  method CountUses(children: seq<Child>, outputId: Id) returns (uses: multiset<Id>)
    ensures uses == UsesFrom(children, 0) + multiset{outputId}
  {
    uses := multiset{outputId};
    for i := |children| downto 0
      invariant uses == UsesFrom(children, i) + multiset{outputId}
    {
      uses := uses + multiset(children[i].inputs);
    }
  }

  /** `[env[name] for name in child['inputs']]`; None is the KeyError. */
  method ReadInputs(env: map<Id, Vec>, names: seq<Id>) returns (values: Option<seq<Vec>>)
    ensures values == Lookup(env, names)
  {
    var read: seq<Vec> := [];
    for i := 0 to |names|
      invariant |read| == i
      invariant forall k :: 0 <= k < i ==> names[k] in env && read[k] == env[names[k]]
    {
      if names[i] !in env {
        return None;
      }
      read := read + [env[names[i]]];
    }
    assert read == Lookup(env, names).value;
    values := Some(read);
  }

  lemma ReleaseStep(env: map<Id, Vec>, uses: multiset<Id>, name: Id, full: map<Id, Vec>)
    requires Agrees(env, full, uses) && name in uses && name in full
    ensures name in env
    ensures var uses2 := uses - multiset{name}; Agrees(if name in uses2 then env else env - {name}, full, uses2)
  {}

  lemma FirstOfRest(names: seq<Id>, i: nat)
    requires i < |names|
    ensures multiset(names[i..]) == multiset{names[i]} + multiset(names[i + 1..])
    ensures names[..i + 1] == names[..i] + [names[i]]
  {
    assert names[i..] == [names[i]] + names[i + 1..];
  }

  /** After a release exactly the names without uses left are gone. */
  lemma StillBound(env0: map<Id, Vec>, env: map<Id, Vec>, env2: map<Id, Vec>, seen: seq<Id>, name: Id,
          uses: multiset<Id>, uses2: multiset<Id>)
    requires forall n :: n in env <==> n in env0 && (n in seen ==> n in uses)
    requires name in uses && uses2 == uses - multiset{name}
    requires env2 == if name in uses2 then env else env - {name}
    ensures forall n :: n in env2 <==> n in env0 && (n in seen + [name] ==> n in uses2)
  {}

  /** The release loop after a child: one use of every input is spent, and a name without uses left is deleted.
      No deletion can miss its name. */
  method Release(env0: map<Id, Vec>, uses0: multiset<Id>, names: seq<Id>, ghost full: map<Id, Vec>,
          ghost later: multiset<Id>)
    returns (env: map<Id, Vec>, uses: multiset<Id>)
    requires uses0 == multiset(names) + later && Agrees(env0, full, uses0)
    requires forall n :: n in names ==> n in full
    ensures uses == later && Agrees(env, full, uses)
    ensures forall n :: n in env <==> n in env0 && (n in names ==> n in later)
  {
    env, uses := env0, uses0;
    for i := 0 to |names|
      invariant uses == multiset(names[i..]) + later
      invariant Agrees(env, full, uses)
      invariant forall n :: n in env <==> n in env0 && (n in names[..i] ==> n in uses)
    {
      var name := names[i];
      FirstOfRest(names, i);
      ghost var env1, uses1 := env, uses;
      ReleaseStep(env, uses, name, full);
      uses := uses - multiset{name};
      if name !in uses {
        env := env - {name};
      }
      StillBound(env0, env1, env, names[..i], name, uses1, uses);
    }
    assert names[..|names|] == names;
  }

  /** `run_clear_section`: releasing values early changes nothing, on any graph. */
  method RunClearSection(g: Graph, inputs: seq<Vec>, table: seq<Tensor>, w: World) returns (r: Option<Vec>)
    ensures r == Exec(g, inputs, table, w)
    decreases g
  {
    if g.LeafNode? {
      var data := Resolve(g.dataRef, table, w);
      return if data.None? then None else LeafValue(g.kind, data.value, inputs, w);
    }
    if |g.bodyInputs| != |inputs| {
      return None;
    }
    var children, outputId := g.children, g.bodyOutput;
    var env := Bind(g.bodyInputs, inputs);
    ghost var env0, full := env, env;
    hide Agrees, UsesFrom, Lookup;
    AgreesItself(env, UsesFrom(children, 0) + multiset{outputId});
    var uses := CountUses(children, outputId);
    for index := 0 to |children|
      invariant ExecAll(children[..index], env0, table, w) == Some(full)
      invariant uses == UsesFrom(children, index) + multiset{outputId}
      invariant Agrees(env, full, uses)
    {
      var child := children[index];
      ExecAllSnoc(children, index, env0, table, w);
      UsesStep(children, index);
      AgreeOnInputs(env, full, uses, child.inputs, UsesFrom(children, index + 1) + multiset{outputId});
      var values := ReadInputs(env, child.inputs);
      if values.None? {
        ExecAllStops(children, index + 1, env0, table, w);
        return None;
      }
      var v := RunClearSection(child.graph, values.value, table, w);
      if v.None? {
        ExecAllStops(children, index + 1, env0, table, w);
        return None;
      }
      AgreeOnBoth(env, full, uses, child.output, v.value);
      env := env[child.output := v.value];
      full := full[child.output := v.value];
      env, uses := Release(env, uses, child.inputs, full, UsesFrom(children, index + 1) + multiset{outputId});
    }
    assert children[..|children|] == children;
    UsesStep(children, |children|);
    AgreeOnOutput(env, full, uses, outputId);
    r := if outputId in env then Some(env[outputId]) else None;
  }

  // ----- last uses -----

  /** Position p of child i is the last read of its name in the scope. */
  predicate IsLastUse(children: seq<Child>, i: nat, p: nat)
    requires i < |children| && p < |children[i].inputs|
  {
    var name := children[i].inputs[p];
    name !in children[i].inputs[p + 1..] && forall k :: i < k < |children| ==> name !in children[k].inputs
  }

  /** The use count of a name reaches zero exactly at its last use, unless the name is the section output. */
  lemma ReleasedExactlyAtLastUse(children: seq<Child>, i: nat, p: nat, outputId: Id)
    requires i < |children| && p < |children[i].inputs|
    ensures var left := multiset(children[i].inputs[p + 1..]) + UsesFrom(children, i + 1) + multiset{outputId};
      children[i].inputs[p] !in left <==> IsLastUse(children, i, p) && children[i].inputs[p] != outputId
  {
    UsedLater(children, i + 1, children[i].inputs[p]);
  }
}
