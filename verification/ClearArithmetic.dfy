/**
 What traced programs compute: entry by entry, the real arithmetic that their operators are written as, whatever the
 nesting; and the laws that +, - and * on handles keep.
 */
module ClearArithmetic {
  import opened Wrappers
  import opened OpGraph
  import opened Tracing

  // ----- vectors and their entries -----

  /** Entry i of a vector, a single element being broadcast. */
  function Entry(v: Vec, i: nat): real { if |v| == 1 then v[0] else if i < |v| then v[i] else 0.0 }

  /** Two vectors combine iff their sizes agree or one of them is a single element. */
  predicate Fit(a: Vec, b: Vec) { |a| == |b| || |a| == 1 || |b| == 1 }

  predicate Shaped(v: Option<Vec>, a: Vec, b: Vec) {
    (v.Some? <==> Fit(a, b)) && (v.Some? ==> |v.value| == if |a| == 1 then |b| else |a|)
  }

  ghost predicate Adds(v: Option<Vec>, a: Vec, b: Vec) {
    Shaped(v, a, b) && (v.Some? ==> forall i :: 0 <= i < |v.value| ==> v.value[i] == Entry(a, i) + Entry(b, i))
  }

  ghost predicate Subtracts(v: Option<Vec>, a: Vec, b: Vec) {
    Shaped(v, a, b) && (v.Some? ==> forall i :: 0 <= i < |v.value| ==> v.value[i] == Entry(a, i) - Entry(b, i))
  }

  ghost predicate Multiplies(v: Option<Vec>, a: Vec, b: Vec) {
    Shaped(v, a, b) && (v.Some? ==> forall i :: 0 <= i < |v.value| ==> v.value[i] == Entry(a, i) * Entry(b, i))
  }

  lemma ElementwiseEntries(a: Vec, b: Vec)
    ensures Adds(Elementwise(Plus, a, b), a, b)
    ensures Subtracts(Elementwise(Minus, a, b), a, b)
    ensures Multiplies(Elementwise(Times, a, b), a, b)
  {
    ElementwiseEntry(Plus, a, b);
    ElementwiseEntry(Minus, a, b);
    ElementwiseEntry(Times, a, b);
    hide Elementwise;
  }

  lemma ElementwiseEntry(op: Arith, a: Vec, b: Vec)
    ensures var v := Elementwise(op, a, b);
      Shaped(v, a, b) &&
      (v.Some? ==> forall i :: 0 <= i < |v.value| ==> v.value[i] == Apply(op, Entry(a, i), Entry(b, i)))
  {
    hide Apply;
  }

  // ----- the leaves and the overloaded operators -----

  /** Addition, subtraction and multiplication as operators of their own, with two operands or with an operand and a
      constant. */
  lemma LeafEntries(a: Vec, b: Vec, c: Tensor, w: World)
    ensures Adds(EvalOp(LeafOp(AddOp(false), []), [a, b], w), a, b)
    ensures Subtracts(EvalOp(LeafOp(AddOp(true), []), [a, b], w), a, b)
    ensures Multiplies(EvalOp(LeafOp(MulOp, []), [a, b], w), a, b)
    ensures Adds(EvalOp(LeafOp(ConstAddOp, [c]), [a], w), a, Contents(c, w))
    ensures Multiplies(EvalOp(LeafOp(ConstMulOp, [c]), [a], w), a, Contents(c, w))
  {
    ElementwiseEntries(a, b);
    ElementwiseEntries(a, Contents(c, w));
    hide Adds, Subtracts, Multiplies, Elementwise, Contents;
    assert DataContents([c], w) == [Contents(c, w)];
  }

  /** The operators that two values of expressions can be combined with. */
  lemma OperatorEntries(l: Expr, r: Expr, env: map<Id, Vec>, w: World, a: Vec, b: Vec)
    requires EvalExpr(l, env, w) == Some(a) && EvalExpr(r, env, w) == Some(b)
    ensures Adds(EvalExpr(Add(l, r), env, w), a, b)
    ensures Subtracts(EvalExpr(Sub(l, r), env, w), a, b)
    ensures Multiplies(EvalExpr(Mul(l, r), env, w), a, b)
    ensures Multiplies(EvalExpr(Square(l), env, w), a, a)
  {
    ElementwiseEntries(a, b);
    ElementwiseEntries(a, a);
    hide Adds, Subtracts, Multiplies, Elementwise;
  }

  /** The operators that combine the value of an expression with a constant, and the negation. */
  lemma ConstantEntries(e: Expr, c: Tensor, env: map<Id, Vec>, w: World, a: Vec)
    requires EvalExpr(e, env, w) == Some(a)
    ensures Adds(EvalExpr(AddConst(e, c), env, w), a, Contents(c, w))
    ensures Subtracts(EvalExpr(SubConst(e, c), env, w), a, Contents(c, w))
    ensures Subtracts(EvalExpr(ConstSub(c, e), env, w), Contents(c, w), a)
    ensures Multiplies(EvalExpr(MulConst(e, c), env, w), a, Contents(c, w))
    ensures Multiplies(EvalExpr(Neg(e), env, w), a, [-1.0])
  {
    ElementwiseEntries(a, Contents(c, w));
    ElementwiseEntries(Contents(c, w), a);
    NegatedEntries(a);
    hide Adds, Subtracts, Multiplies, Elementwise, Contents, Negated;
  }

  lemma NegatedEntries(a: Vec)
    ensures Multiplies(Some(Negated(a)), a, [-1.0])
  {}

  // ----- laws -----

  lemma SumIsOne(v: Option<Vec>, u: Option<Vec>, a: Vec, b: Vec)
    requires Adds(v, a, b) && (Adds(u, a, b) || Adds(u, b, a))
    ensures v == u
  {
    if v.Some? { assert v.value == u.value; }
  }

  lemma ProductIsOne(v: Option<Vec>, u: Option<Vec>, a: Vec, b: Vec)
    requires Multiplies(v, a, b) && (Multiplies(u, a, b) || Multiplies(u, b, a))
    ensures v == u
  {
    if v.Some? { assert v.value == u.value; }
  }

  /** x + y == y + x, x * y == y * x and x ** 2 == x * x, errors included. */
  lemma Commutes(x: Expr, y: Expr, env: map<Id, Vec>, w: World)
    ensures EvalExpr(Add(x, y), env, w) == EvalExpr(Add(y, x), env, w)
    ensures EvalExpr(Mul(x, y), env, w) == EvalExpr(Mul(y, x), env, w)
    ensures EvalExpr(Square(x), env, w) == EvalExpr(Mul(x, x), env, w)
  {
    var a, b := EvalExpr(x, env, w), EvalExpr(y, env, w);
    if a.Some? && b.Some? {
      OperatorEntries(x, y, env, w, a.value, b.value);
      OperatorEntries(y, x, env, w, b.value, a.value);
      hide EvalExpr, Adds, Multiplies;
      SumIsOne(EvalExpr(Add(x, y), env, w), EvalExpr(Add(y, x), env, w), a.value, b.value);
      ProductIsOne(EvalExpr(Mul(x, y), env, w), EvalExpr(Mul(y, x), env, w), a.value, b.value);
    }
  }

  /** x * 1 == x, x + 0 == x and x - 0 == x. */
  lemma Units(x: Expr, one: Tensor, zero: Tensor, env: map<Id, Vec>, w: World)
    requires Contents(one, w) == [1.0] && Contents(zero, w) == [0.0]
    ensures EvalExpr(MulConst(x, one), env, w) == EvalExpr(x, env, w)
    ensures EvalExpr(AddConst(x, zero), env, w) == EvalExpr(x, env, w)
    ensures EvalExpr(SubConst(x, zero), env, w) == EvalExpr(x, env, w)
  {
    var a := EvalExpr(x, env, w);
    if a.Some? {
      ConstantEntries(x, one, env, w, a.value);
      ConstantEntries(x, zero, env, w, a.value);
      hide EvalExpr;
      assert EvalExpr(MulConst(x, one), env, w).value == a.value;
      assert EvalExpr(AddConst(x, zero), env, w).value == a.value;
      assert EvalExpr(SubConst(x, zero), env, w).value == a.value;
    }
  }

  lemma DistributedEntries(a: Vec, b: Vec, c: Vec, sum: Option<Vec>, left: Option<Vec>, ac: Option<Vec>,
    bc: Option<Vec>,
          right: Option<Vec>)
    requires Adds(sum, a, b) && if sum.Some? then Multiplies(left, sum.value, c) else left == None
    requires Multiplies(ac, a, c) && Multiplies(bc, b, c)
    requires if ac.Some? && bc.Some? then Adds(right, ac.value, bc.value) else right == None
    ensures left == right
  {
    assert left.Some? <==> right.Some?;
    if left.Some? {
      forall i | 0 <= i < |left.value|
        ensures left.value[i] == right.value[i]
      {
        Distribute(Entry(a, i), Entry(b, i), Entry(c, i));
      }
      assert left.value == right.value;
    }
  }

  lemma Distribute(x: real, y: real, z: real)
    ensures (x + y) * z == x * z + y * z
  {}

  /** (x + y) * z == x * z + y * z, errors included. */
  lemma Distributes(x: Expr, y: Expr, z: Expr, env: map<Id, Vec>, w: World)
    ensures EvalExpr(Mul(Add(x, y), z), env, w) == EvalExpr(Add(Mul(x, z), Mul(y, z)), env, w)
  {
    var a, b, c := EvalExpr(x, env, w), EvalExpr(y, env, w), EvalExpr(z, env, w);
    if a.Some? && b.Some? && c.Some? {
      var sum, ac, bc := EvalExpr(Add(x, y), env, w), EvalExpr(Mul(x, z), env, w), EvalExpr(Mul(y, z), env, w);
      OperatorEntries(x, y, env, w, a.value, b.value);
      OperatorEntries(x, z, env, w, a.value, c.value);
      OperatorEntries(y, z, env, w, b.value, c.value);
      if sum.Some? { OperatorEntries(Add(x, y), z, env, w, sum.value, c.value); }
      if ac.Some? && bc.Some? { OperatorEntries(Mul(x, z), Mul(y, z), env, w, ac.value, bc.value); }
      if sum.None? { WithoutOperand(Mul(Add(x, y), z), Add(x, y), z, env, w); }
      if ac.None? || bc.None? { WithoutOperand(Add(Mul(x, z), Mul(y, z)), Mul(x, z), Mul(y, z), env, w); }
      hide EvalExpr, Adds, Subtracts, Multiplies;
      DistributedEntries(a.value, b.value, c.value, sum, EvalExpr(Mul(Add(x, y), z), env, w), ac, bc,
        EvalExpr(Add(Mul(x, z), Mul(y, z)), env, w));
    }
  }

  lemma WithoutOperand(e: Expr, l: Expr, r: Expr, env: map<Id, Vec>, w: World)
    requires e == Add(l, r) || e == Mul(l, r)
    requires EvalExpr(l, env, w).None? || EvalExpr(r, env, w).None?
    ensures EvalExpr(e, env, w) == None
  {}

  /** (c - x) + x is c, as often as x has entries. */
  lemma Cancels(x: Expr, c: Tensor, env: map<Id, Vec>, w: World, v: Option<Vec>)
    requires v == EvalExpr(Add(ConstSub(c, x), x), env, w)
    ensures v.Some? <==> EvalExpr(x, env, w).Some? && Fit(EvalExpr(x, env, w).value, Contents(c, w))
    ensures v.Some? ==> forall i :: 0 <= i < |v.value| ==> v.value[i] == Entry(Contents(c, w), i)
  {
    var a := EvalExpr(x, env, w);
    if a.Some? {
      var d := EvalExpr(ConstSub(c, x), env, w);
      ConstantEntries(x, c, env, w, a.value);
      if d.Some? { OperatorEntries(ConstSub(c, x), x, env, w, d.value, a.value); }
    }
  }

  // ----- whole programs, entry by entry -----

  /** Only the modelled leaves, and constants of n entries or one. */
  ghost predicate Regular(op: Op, w: World, n: nat)
    decreases op
  {
    match op
    case LeafOp(kind, data) => !kind.Other? && forall i :: 0 <= i < |data| ==> Sized(Contents(data[i], w), n)
    case Composite(_, body) => RegularBody(body, w, n)
  }

  ghost predicate RegularBody(e: Expr, w: World, n: nat)
    decreases e
  {
    match e
    case Var(_) => true
    case Let(_, bound, rest) => RegularBody(bound, w, n) && RegularBody(rest, w, n)
    case Call(op, args) => Regular(op, w, n) && forall i :: 0 <= i < |args| ==> RegularBody(args[i], w, n)
    case Add(l, r) => RegularBody(l, w, n) && RegularBody(r, w, n)
    case Sub(l, r) => RegularBody(l, w, n) && RegularBody(r, w, n)
    case Mul(l, r) => RegularBody(l, w, n) && RegularBody(r, w, n)
    case AddConst(x, c) => RegularBody(x, w, n) && Sized(Contents(c, w), n)
    case SubConst(x, c) => RegularBody(x, w, n) && Sized(Contents(c, w), n)
    case ConstSub(c, x) => RegularBody(x, w, n) && Sized(Contents(c, w), n)
    case MulConst(x, c) => RegularBody(x, w, n) && Sized(Contents(c, w), n)
    case Neg(x) => RegularBody(x, w, n)
    case Square(x) => RegularBody(x, w, n)
  }

  predicate Sized(v: Vec, n: nat) { |v| == n || |v| == 1 }

  predicate AllSized(vs: seq<Vec>, n: nat) { forall i :: 0 <= i < |vs| ==> Sized(vs[i], n) }

  predicate SizedEnv(env: map<Id, Vec>, n: nat) { forall k :: k in env ==> Sized(env[k], n) }

  /** The program on single numbers: what its text says, in real arithmetic. None where a name is unbound or an arity
      does not fit. */
  function ScalarOp(op: Op, inputs: seq<real>, c: Tensor -> real): Option<real>
    decreases op, 0
  {
    match op
    case LeafOp(kind, data) => ScalarLeaf(kind, data, inputs, c)
    case Composite(params, body) =>
      if |params| != |inputs| then None else ScalarExpr(body, Bind(params, inputs), c)
  }

  function ScalarLeaf(kind: Kind, data: seq<Tensor>, inputs: seq<real>, c: Tensor -> real): Option<real> {
    match kind
    case AddOp(isSub) =>
      if |inputs| != 2 then None else Some(if isSub then inputs[0] - inputs[1] else inputs[0] + inputs[1])
    case MulOp => if |inputs| != 2 then None else Some(inputs[0] * inputs[1])
    case ConstAddOp => if |inputs| != 1 || |data| != 1 then None else Some(inputs[0] + c(data[0]))
    case ConstMulOp => if |inputs| != 1 || |data| != 1 then None else Some(inputs[0] * c(data[0]))
    case Other(_) => None
  }

  function ScalarExpr(e: Expr, env: map<Id, real>, c: Tensor -> real): Option<real>
    decreases e, 0
  {
    match e
    case Var(name) => if name in env then Some(env[name]) else None
    case Let(name, bound, rest) =>
      var v := ScalarExpr(bound, env, c);
      if v.None? then None else ScalarExpr(rest, env[name := v.value], c)
    case Call(op, args) =>
      var vs := ScalarArgs(args, env, c);
      if vs.None? then None else ScalarOp(op, vs.value, c)
    case Add(l, r) => Sum(ScalarExpr(l, env, c), ScalarExpr(r, env, c))
    case Sub(l, r) => Difference(ScalarExpr(l, env, c), ScalarExpr(r, env, c))
    case Mul(l, r) => Product(ScalarExpr(l, env, c), ScalarExpr(r, env, c))
    case AddConst(x, k) => Sum(ScalarExpr(x, env, c), Some(c(k)))
    case SubConst(x, k) => Difference(ScalarExpr(x, env, c), Some(c(k)))
    case ConstSub(k, x) => Difference(Some(c(k)), ScalarExpr(x, env, c))
    case MulConst(x, k) => Product(ScalarExpr(x, env, c), Some(c(k)))
    case Neg(x) => Difference(Some(0.0), ScalarExpr(x, env, c))
    case Square(x) => Product(ScalarExpr(x, env, c), ScalarExpr(x, env, c))
  }

  function Sum(a: Option<real>, b: Option<real>): Option<real> {
    if a.Some? && b.Some? then Some(a.value + b.value) else None
  }

  function Difference(a: Option<real>, b: Option<real>): Option<real> {
    if a.Some? && b.Some? then Some(a.value - b.value) else None
  }

  function Product(a: Option<real>, b: Option<real>): Option<real> {
    if a.Some? && b.Some? then Some(a.value * b.value) else None
  }

  function ScalarArgs(args: seq<Expr>, env: map<Id, real>, c: Tensor -> real): (r: Option<seq<real>>)
    ensures r.Some? ==> |r.value| == |args|
    decreases args, 0
  {
    if args == [] then Some([])
    else
      var p := |args| - 1;
      var before := ScalarArgs(args[..p], env, c);
      var v := ScalarExpr(args[p], env, c);
      if before.None? || v.None? then None else Some(before.value + [v.value])
  }

  function EntriesAt(vs: seq<Vec>, i: nat): (r: seq<real>)
    ensures |r| == |vs|
  {
    seq(|vs|, k requires 0 <= k < |vs| => Entry(vs[k], i))
  }

  function EnvAt(env: map<Id, Vec>, i: nat): map<Id, real> { map k | k in env :: Entry(env[k], i) }

  function ConstantsAt(w: World, i: nat): Tensor -> real { t => Entry(Contents(t, w), i) }

  /** v is there iff s is, has n entries or one, and s is its entry i. */
  ghost predicate Reads(v: Option<Vec>, n: nat, i: nat, s: Option<real>) {
    (v.Some? <==> s.Some?) && (v.Some? ==> Sized(v.value, n) && Entry(v.value, i) == s.value)
  }

  lemma CombinedAt(a: Vec, b: Vec, n: nat, i: nat)
    requires Sized(a, n) && Sized(b, n) && i < n
    ensures Reads(Elementwise(Plus, a, b), n, i, Some(Entry(a, i) + Entry(b, i)))
    ensures Reads(Elementwise(Minus, a, b), n, i, Some(Entry(a, i) - Entry(b, i)))
    ensures Reads(Elementwise(Times, a, b), n, i, Some(Entry(a, i) * Entry(b, i)))
  {
    ElementwiseEntries(a, b);
    hide Elementwise;
  }

  /** Reading two values at an entry is reading their combination there. */
  lemma BothAt(a: Option<Vec>, b: Option<Vec>, x: Option<real>, y: Option<real>, n: nat, i: nat)
    requires Reads(a, n, i, x) && Reads(b, n, i, y) && i < n
    ensures Reads(Both(Plus, a, b), n, i, Sum(x, y))
    ensures Reads(Both(Minus, a, b), n, i, Difference(x, y))
    ensures Reads(Both(Times, a, b), n, i, Product(x, y))
  {
    if a.Some? && b.Some? { CombinedAt(a.value, b.value, n, i); }
    hide Elementwise, Entry, Sized;
  }

  lemma NegatedAt(a: Option<Vec>, x: Option<real>, n: nat, i: nat)
    requires Reads(a, n, i, x) && i < n
    ensures Reads(if a.None? then None else Some(Negated(a.value)), n, i, Difference(Some(0.0), x))
  {}

  lemma ConstantAt(w: World, c: Tensor, n: nat, i: nat)
    requires Sized(Contents(c, w), n)
    ensures Reads(Some(Contents(c, w)), n, i, Some(ConstantsAt(w, i)(c)))
  {}

  lemma LookupAt(env: map<Id, Vec>, name: Id, i: nat)
    ensures name in EnvAt(env, i) <==> name in env
    ensures name in env ==> EnvAt(env, i)[name] == Entry(env[name], i)
  {}

  lemma BoundAt(env: map<Id, Vec>, name: Id, v: Vec, i: nat)
    ensures EnvAt(env[name := v], i) == EnvAt(env, i)[name := Entry(v, i)]
  {}

  lemma {:induction false} ParametersAt(params: seq<Id>, vs: seq<Vec>, n: nat, i: nat)
    requires |params| == |vs| && AllSized(vs, n)
    ensures EnvAt(Bind(params, vs), i) == Bind(params, EntriesAt(vs, i)) && SizedEnv(Bind(params, vs), n)
    decreases |params|
  {
    if params != [] {
      var p := |params| - 1;
      ParametersAt(params[..p], vs[..p], n, i);
      assert EntriesAt(vs, i)[..p] == EntriesAt(vs[..p], i);
      BoundAt(Bind(params[..p], vs[..p]), params[p], vs[p], i);
    }
  }

  lemma LeafAt(kind: Kind, data: seq<Tensor>, inputs: seq<Vec>, w: World, n: nat, i: nat)
    requires Regular(LeafOp(kind, data), w, n) && AllSized(inputs, n) && i < n
    ensures Reads(LeafValue(kind, DataContents(data, w), inputs, w), n, i,
                  ScalarLeaf(kind, data, EntriesAt(inputs, i), ConstantsAt(w, i)))
  {
    if |inputs| == 2 {
      CombinedAt(inputs[0], inputs[1], n, i);
    } else if |inputs| == 1 && |data| == 1 {
      CombinedAt(inputs[0], Contents(data[0], w), n, i);
    }
    hide Elementwise, Entry, Sized, Contents;
  }

  /** Headline: entry i of what an operator computes is the operator's text on entry i of its inputs, however operators
      are nested; it fails iff the text does. */
  lemma {:induction false} OpAt(op: Op, inputs: seq<Vec>, w: World, n: nat, i: nat)
    requires Regular(op, w, n) && AllSized(inputs, n) && i < n
    ensures Reads(EvalOp(op, inputs, w), n, i, ScalarOp(op, EntriesAt(inputs, i), ConstantsAt(w, i)))
    decreases op, 1
  {
    match op
    case LeafOp(kind, data) => LeafAt(kind, data, inputs, w, n, i);
    case Composite(params, body) =>
      if |params| == |inputs| {
        ParametersAt(params, inputs, n, i);
        ExprAt(body, Bind(params, inputs), w, n, i);
      }
  }

  /** Each entry of r is the operator's text on that entry of the inputs. */
  ghost predicate FollowsText(r: Option<Vec>, op: Op, inputs: seq<Vec>, w: World) {
    forall n: nat, i: nat :: Regular(op, w, n) && AllSized(inputs, n) && i < n ==>
      Reads(r, n, i, ScalarOp(op, EntriesAt(inputs, i), ConstantsAt(w, i)))
  }

  lemma ValueFollowsText(op: Op, inputs: seq<Vec>, w: World)
    ensures FollowsText(EvalOp(op, inputs, w), op, inputs, w)
  {
    forall n: nat, i: nat | Regular(op, w, n) && AllSized(inputs, n) && i < n
      ensures Reads(EvalOp(op, inputs, w), n, i, ScalarOp(op, EntriesAt(inputs, i), ConstantsAt(w, i)))
    {
      OpAt(op, inputs, w, n, i);
    }
  }

  lemma {:induction false} ExprAt(e: Expr, env: map<Id, Vec>, w: World, n: nat, i: nat)
    requires RegularBody(e, w, n) && SizedEnv(env, n) && i < n
    ensures Reads(EvalExpr(e, env, w), n, i, ScalarExpr(e, EnvAt(env, i), ConstantsAt(w, i)))
    decreases e, 1
  {
    hide Both, Sum, Difference, Product, Entry, EnvAt, Contents, Negated;
    match e
    case Var(name) => LookupAt(env, name, i);
    case Let(name, bound, rest) =>
      ExprAt(bound, env, w, n, i);
      var v := EvalExpr(bound, env, w);
      if v.Some? {
        BoundAt(env, name, v.value, i);
        ExprAt(rest, env[name := v.value], w, n, i);
      }
    case Call(op, args) =>
      ArgsAt(args, env, w, n, i);
      if EvalArgs(args, env, w).Some? { OpAt(op, EvalArgs(args, env, w).value, w, n, i); }
    case Add(l, r) => PairAt(e, l, r, env, w, n, i);
    case Sub(l, r) => PairAt(e, l, r, env, w, n, i);
    case Mul(l, r) => PairAt(e, l, r, env, w, n, i);
    case AddConst(x, c) => WithConstantAt(x, c, env, w, n, i);
    case SubConst(x, c) => WithConstantAt(x, c, env, w, n, i);
    case ConstSub(c, x) => WithConstantAt(x, c, env, w, n, i);
    case MulConst(x, c) => WithConstantAt(x, c, env, w, n, i);
    case Neg(x) =>
      ExprAt(x, env, w, n, i);
      NegatedAt(EvalExpr(x, env, w), ScalarExpr(x, EnvAt(env, i), ConstantsAt(w, i)), n, i);
    case Square(x) => PairAt(e, x, x, env, w, n, i);
  }

  lemma {:induction false} PairAt(e: Expr, l: Expr, r: Expr, env: map<Id, Vec>, w: World, n: nat, i: nat)
    requires l < e && r < e && RegularBody(l, w, n) && RegularBody(r, w, n) && SizedEnv(env, n) && i < n
    ensures var a, b := EvalExpr(l, env, w), EvalExpr(r, env, w);
      var x, y := ScalarExpr(l, EnvAt(env, i), ConstantsAt(w, i)), ScalarExpr(r, EnvAt(env, i), ConstantsAt(w, i));
      Reads(Both(Plus, a, b), n, i, Sum(x, y)) && Reads(Both(Minus, a, b), n, i, Difference(x, y)) &&
      Reads(Both(Times, a, b), n, i, Product(x, y))
    decreases e, 0
  {
    hide *;
    ExprAt(l, env, w, n, i);
    ExprAt(r, env, w, n, i);
    BothAt(EvalExpr(l, env, w), EvalExpr(r, env, w), ScalarExpr(l, EnvAt(env, i), ConstantsAt(w, i)),
      ScalarExpr(r, EnvAt(env, i), ConstantsAt(w, i)), n, i);
  }

  lemma {:induction false} WithConstantAt(x: Expr, c: Tensor, env: map<Id, Vec>, w: World, n: nat, i: nat)
    requires RegularBody(x, w, n) && Sized(Contents(c, w), n) && SizedEnv(env, n) && i < n
    ensures var a, k := EvalExpr(x, env, w), Some(Contents(c, w));
      var s, t := ScalarExpr(x, EnvAt(env, i), ConstantsAt(w, i)), Some(ConstantsAt(w, i)(c));
      Reads(Both(Plus, a, k), n, i, Sum(s, t)) && Reads(Both(Minus, a, k), n, i, Difference(s, t)) &&
      Reads(Both(Minus, k, a), n, i, Difference(t, s)) && Reads(Both(Times, a, k), n, i, Product(s, t))
    decreases x, 2
  {
    hide *;
    var a, s := EvalExpr(x, env, w), ScalarExpr(x, EnvAt(env, i), ConstantsAt(w, i));
    ExprAt(x, env, w, n, i);
    ConstantAt(w, c, n, i);
    BothAt(a, Some(Contents(c, w)), s, Some(ConstantsAt(w, i)(c)), n, i);
    BothAt(Some(Contents(c, w)), a, Some(ConstantsAt(w, i)(c)), s, n, i);
  }

  /** All arguments at entry i. */
  lemma {:induction false} ArgsAt(args: seq<Expr>, env: map<Id, Vec>, w: World, n: nat, i: nat)
    requires (forall k :: 0 <= k < |args| ==> RegularBody(args[k], w, n)) && SizedEnv(env, n) && i < n
    ensures var vs := EvalArgs(args, env, w); var s := ScalarArgs(args, EnvAt(env, i), ConstantsAt(w, i));
      (vs.Some? <==> s.Some?) && (vs.Some? ==> AllSized(vs.value, n) && EntriesAt(vs.value, i) == s.value)
    decreases args, 0
  {
    if args != [] {
      var p := |args| - 1;
      ArgsAt(args[..p], env, w, n, i);
      ExprAt(args[p], env, w, n, i);
      var before, v := EvalArgs(args[..p], env, w), EvalExpr(args[p], env, w);
      if before.Some? && v.Some? { OneMoreEntry(before.value, v.value, i); }
    }
  }

  lemma OneMoreEntry(vs: seq<Vec>, v: Vec, i: nat)
    ensures EntriesAt(vs + [v], i) == EntriesAt(vs, i) + [Entry(v, i)]
  {}
}
