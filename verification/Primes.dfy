/**
 Drawing the modulus primes (`primes_utils.py`, `ModulusChain.post_init`) for precision tables
 (`bootstrapping_params.py`).
 */
module Primes {
  import opened Bits

  datatype Error = EmptyRow | NotDecreasing | UnknownPrecision | TooFewPrimes | BadScale | BadLevels

  datatype Result<+T> = Ok(value: T) | Err(error: Error)

  /** Bit length to the primes of that length that may still be drawn. */
  type Pools = map<int, seq<nat>>

  // ----- precisions -----

  predicate Decreasing(row: seq<int>) {
    forall c :: 0 <= c < |row| - 1 ==> row[c] > row[c + 1]
  }

  /** The precision each column's own prime needs: the drop to the next column, and all of the last one. */
  function Relative(row: seq<int>): (r: seq<int>)
    ensures |r| == |row|
  {
    seq(|row|, c requires 0 <= c < |row| => if c + 1 < |row| then row[c] - row[c + 1] else row[c])
  }

  function SumFrom(s: seq<int>, c: nat): int
    requires c <= |s|
    decreases |s| - c
  {
    if c == |s| then 0 else s[c] + SumFrom(s, c + 1)
  }

  /** The bit lengths from column c to the end of a row telescope to the row's precision at c. */
  lemma {:induction false} Telescope(row: seq<int>, c: nat)
    requires c < |row|
    ensures SumFrom(Relative(row), c) == row[c]
    decreases |row| - c
  {
    if c + 1 < |row| { Telescope(row, c + 1); }
  }

  function Flatten<T>(rows: seq<seq<T>>): seq<T> {
    if rows == [] then [] else rows[0] + Flatten(rows[1..])
  }

  function Precisions(table: seq<seq<int>>): seq<int> {
    if table == [] then [] else Relative(table[0]) + Precisions(table[1..])
  }

  lemma {:induction false} PrecisionsSnoc(table: seq<seq<int>>, row: seq<int>)
    ensures Precisions(table + [row]) == Precisions(table) + Relative(row)
  {
    if table == [] {
      assert table + [row] == [row];
      assert Precisions([row][1..]) == [];
    } else {
      PrecisionsSnoc(table[1..], row);
      assert (table + [row])[1..] == table[1..] + [row];
    }
  }

  predicate GoodTable(table: seq<seq<int>>) {
    forall r :: 0 <= r < |table| ==> table[r] != [] && Decreasing(table[r])
  }

  /** The verification loop over the rows. */
  method RelativePrecisions(table: seq<seq<int>>) returns (r: Result<seq<int>>)
    ensures r.Ok? <==> GoodTable(table)
    ensures r.Ok? ==> r.value == Precisions(table)
    ensures r.Err? ==> r == Err(NotDecreasing) || r == Err(EmptyRow)
  {
    var precisions := [];
    for i := 0 to |table|
      invariant GoodTable(table[..i]) && precisions == Precisions(table[..i])
    {
      var row := table[i];
      assert table[..i + 1] == table[..i] + [row];
      var diffs := seq(if |row| > 0 then |row| - 1 else 0, c requires 0 <= c < |row| - 1 => row[c] - row[c + 1]);
      if !forall c :: 0 <= c < |diffs| ==> diffs[c] > 0 {
        assert !Decreasing(row);
        return Err(NotDecreasing);
      }
      if row == [] {
        return Err(EmptyRow);
      }
      assert forall c :: 0 <= c < |row| - 1 ==> diffs[c] == row[c] - row[c + 1];
      assert diffs + [row[|row| - 1]] == Relative(row);
      PrecisionsSnoc(table[..i], row);
      precisions := precisions + (diffs + [row[|row| - 1]]);
    }
    assert table[..|table|] == table;
    r := Ok(precisions);
  }

  // ----- drawing -----

  function Count(s: seq<int>, p: int): nat {
    if s == [] then 0 else (if s[0] == p then 1 else 0) + Count(s[1..], p)
  }

  /** The count is the number of occurrences. */
  lemma {:induction false} CountsOccurrences(s: seq<int>, p: int)
    ensures Count(s, p) == multiset(s)[p]
  {
    if s == [] {
    } else {
      CountsOccurrences(s[1..], p);
      assert s == [s[0]] + s[1..];
    }
  }

  predicate Enough(precisions: seq<int>, pools: Pools) {
    forall p :: p in precisions ==> p in pools && Count(precisions, p) <= |pools[p]|
  }

  /** One pop per precision, in order. */
  function Draw(precisions: seq<int>, pools: Pools): (r: seq<nat>)
    requires Enough(precisions, pools)
    ensures |r| == |precisions|
  {
    if precisions == [] then []
    else
      EnoughRest(precisions, pools);
      var p := precisions[0];
      [pools[p][|pools[p]| - 1]] + Draw(precisions[1..], Popped(pools, p))
  }

  function Popped(pools: Pools, p: int): Pools
    requires p in pools && pools[p] != []
  {
    pools[p := pools[p][..|pools[p]| - 1]]
  }

  lemma EnoughRest(precisions: seq<int>, pools: Pools)
    requires Enough(precisions, pools) && precisions != []
    ensures precisions[0] in pools && pools[precisions[0]] != []
    ensures Enough(precisions[1..], Popped(pools, precisions[0]))
  {
    var p := precisions[0];
    assert p in precisions;
    assert Count(precisions, p) >= 1;
    forall q | q in precisions[1..]
      ensures q in pools && Count(precisions[1..], q) <= |Popped(pools, p)[q]|
    {
      assert q in precisions;
    }
  }

  /** The primes of one length leave their pool from its end on, in the order in which they are asked for. */
  lemma {:induction false} DrawnFromEnd(precisions: seq<int>, pools: Pools, i: nat)
    requires Enough(precisions, pools) && i < |precisions|
    ensures precisions[i] in pools
    ensures var pool := pools[precisions[i]];
      var taken := Count(precisions[..i], precisions[i]);
      taken < |pool| && Draw(precisions, pools)[i] == pool[|pool| - 1 - taken]
    decreases i
  {
    EnoughRest(precisions, pools);
    if i > 0 {
      var rest := precisions[1..];
      DrawnFromEnd(rest, Popped(pools, precisions[0]), i - 1);
      assert precisions[..i][1..] == rest[..i - 1] && rest[i - 1] == precisions[i];
      assert Draw(precisions, pools)[i] == Draw(rest, Popped(pools, precisions[0]))[i - 1];
    }
  }

  /** Which pools the primes may come from: distinct primes, each at least 2, disjoint pools, and every b-bit prime
      below 2^b. */
  ghost predicate GoodPools(pools: Pools) {
    (forall p :: p in pools ==> p > 0) &&
    (forall p, i :: p in pools && 0 <= i < |pools[p]| ==> 1 < pools[p][i] < Pow2(p)) &&
    forall p, i, q, j ::
      p in pools && q in pools && 0 <= i < |pools[p]| && 0 <= j < |pools[q]| && (p != q || i != j) ==>
      pools[p][i] != pools[q][j]
  }

  lemma PoppedIsGood(pools: Pools, p: int)
    requires GoodPools(pools) && p in pools && pools[p] != []
    ensures GoodPools(Popped(pools, p))
    ensures forall q, j :: q in Popped(pools, p) && 0 <= j < |Popped(pools, p)[q]| ==>
      Popped(pools, p)[q][j] != pools[p][|pools[p]| - 1] && j < |pools[q]| && Popped(pools, p)[q][j] == pools[q][j]
  {}

  /** Every drawn prime comes from its own pool, so it has the requested bit length, and none is drawn twice. */
  lemma {:induction false} DrawIsDistinct(precisions: seq<int>, pools: Pools)
    requires Enough(precisions, pools) && GoodPools(pools)
    ensures var d := Draw(precisions, pools);
      (forall i :: 0 <= i < |d| ==> precisions[i] in pools && d[i] in pools[precisions[i]]) &&
      (forall i, j :: 0 <= i < j < |d| ==> d[i] != d[j])
  {
    if precisions != [] {
      EnoughRest(precisions, pools);
      var p := precisions[0];
      PoppedIsGood(pools, p);
      DrawIsDistinct(precisions[1..], Popped(pools, p));
      var first, e := pools[p][|pools[p]| - 1], Draw(precisions[1..], Popped(pools, p));
      FirstIsNew(precisions, pools, p, first, e, Draw(precisions, pools));
    }
  }

  /** What is left of a pool was in it, and is not what was popped. */
  lemma StillInPool(pools: Pools, p: int, q: int, x: nat)
    requires GoodPools(pools) && p in pools && pools[p] != [] && q in pools && x in Popped(pools, p)[q]
    ensures x in pools[q] && x != pools[p][|pools[p]| - 1]
  {
    var j :| 0 <= j < |Popped(pools, p)[q]| && Popped(pools, p)[q][j] == x;
    assert pools[q][j] == x;
  }

  lemma ConsDistinct(first: nat, e: seq<nat>, d: seq<nat>)
    requires d == [first] + e && (forall i :: 0 <= i < |e| ==> e[i] != first)
    requires forall i, j :: 0 <= i < j < |e| ==> e[i] != e[j]
    ensures forall i, j :: 0 <= i < j < |d| ==> d[i] != d[j]
  {
    forall i, j | 0 <= i < j < |d|
      ensures d[i] != d[j]
    {
      assert d[j] == e[j - 1];
      if i > 0 { assert d[i] == e[i - 1]; }
    }
  }

  lemma FirstIsNew(precisions: seq<int>, pools: Pools, p: int, first: nat, e: seq<nat>, d: seq<nat>)
    requires GoodPools(pools) && p in pools && pools[p] != [] && first == pools[p][|pools[p]| - 1]
    requires precisions != [] && p == precisions[0] && |e| == |precisions| - 1 && d == [first] + e
    requires forall i :: 0 <= i < |e| ==> precisions[1..][i] in pools && e[i] in Popped(pools, p)[precisions[1..][i]]
    requires forall i, j :: 0 <= i < j < |e| ==> e[i] != e[j]
    ensures forall i :: 0 <= i < |d| ==> precisions[i] in pools && d[i] in pools[precisions[i]]
    ensures forall i, j :: 0 <= i < j < |d| ==> d[i] != d[j]
  {
    hide GoodPools, Popped;
    forall i | 0 <= i < |d|
      ensures precisions[i] in pools && d[i] in pools[precisions[i]] && (i > 0 ==> d[i] != first)
    {
      if i > 0 {
        assert precisions[1..][i - 1] == precisions[i] && d[i] == e[i - 1];
        StillInPool(pools, p, precisions[i], e[i - 1]);
      }
    }
    forall i | 0 <= i < |e|
      ensures e[i] != first
    {
      assert e[i] == d[i + 1];
    }
    ConsDistinct(first, e, d);
  }

  lemma DrawnApart(precisions: seq<int>, pools: Pools, i: nat, j: nat)
    requires Enough(precisions, pools) && GoodPools(pools) && i < j < |precisions|
    ensures Draw(precisions, pools)[i] != Draw(precisions, pools)[j]
  {
    DrawIsDistinct(precisions, pools);
  }

  // ----- packing back -----

  function Lengths<T>(table: seq<seq<T>>): (r: seq<nat>)
    ensures |r| == |table|
  {
    seq(|table|, i requires 0 <= i < |table| => |table[i]|)
  }

  function Total(lengths: seq<nat>): nat {
    if lengths == [] then 0 else lengths[0] + Total(lengths[1..])
  }

  function Unflattened<T>(a: seq<T>, lengths: seq<nat>): (r: seq<seq<T>>)
    requires |a| == Total(lengths)
    ensures |r| == |lengths|
  {
    if lengths == [] then [] else [a[..lengths[0]]] + Unflattened(a[lengths[0]..], lengths[1..])
  }

  /** `unflatten_rows_cols`. */
  method UnflattenRowsCols<T>(a: seq<T>, lengths: seq<nat>) returns (r: seq<seq<T>>)
    requires |a| == Total(lengths)
    ensures r == Unflattened(a, lengths)
  {
    r := [];
    var idx := 0;
    for i := 0 to |lengths|
      invariant 0 <= idx <= |a| && |a[idx..]| == Total(lengths[i..])
      invariant Unflattened(a, lengths) == r + Unflattened(a[idx..], lengths[i..])
    {
      assert lengths[i..][1..] == lengths[i + 1..];
      assert a[idx..][lengths[i]..] == a[idx + lengths[i]..];
      assert a[idx..][..lengths[i]] == a[idx..idx + lengths[i]];
      r := r + [a[idx..idx + lengths[i]]];
      idx := idx + lengths[i];
    }
  }

  /** Flattening undoes it, and the rows have the requested lengths. */
  lemma {:induction false} UnflattenFlatten<T>(a: seq<T>, lengths: seq<nat>)
    requires |a| == Total(lengths)
    ensures Flatten(Unflattened(a, lengths)) == a && Lengths(Unflattened(a, lengths)) == lengths
  {
    hide *;
    if lengths == [] {
      UnflattenNone(a);
    } else {
      UnflattenFirst(a, lengths);
      var row, rest := a[..lengths[0]], Unflattened(a[lengths[0]..], lengths[1..]);
      UnflattenFlatten(a[lengths[0]..], lengths[1..]);
      RowFirst(row, rest);
      assert row + a[lengths[0]..] == a && [lengths[0]] + lengths[1..] == lengths;
    }
  }

  lemma UnflattenNone<T>(a: seq<T>)
    requires |a| == Total([])
    ensures Flatten(Unflattened(a, [])) == a && Lengths(Unflattened(a, [])) == []
  {}

  lemma UnflattenFirst<T>(a: seq<T>, lengths: seq<nat>)
    requires |a| == Total(lengths) && lengths != []
    ensures lengths[0] <= |a| && |a[lengths[0]..]| == Total(lengths[1..])
    ensures Unflattened(a, lengths) == [a[..lengths[0]]] + Unflattened(a[lengths[0]..], lengths[1..])
  {}

  lemma RowFirst<T>(row: seq<T>, rest: seq<seq<T>>)
    ensures Flatten([row] + rest) == row + Flatten(rest) && Lengths([row] + rest) == [|row|] + Lengths(rest)
  {
    assert ([row] + rest)[1..] == rest;
  }

  lemma {:induction false} PrecisionsLength(table: seq<seq<int>>)
    ensures |Precisions(table)| == Total(Lengths(table))
  {
    if table != [] {
      PrecisionsLength(table[1..]);
      assert Lengths(table)[1..] == Lengths(table[1..]);
    }
  }

  function Factors(table: seq<seq<int>>, pools: Pools): (r: seq<seq<nat>>)
    requires Enough(Precisions(table), pools)
    ensures |r| == |table|
  {
    PrecisionsLength(table);
    Unflattened(Draw(Precisions(table), pools), Lengths(table))
  }

  /** `get_primes_from_precisions_list`: accepted iff every row is non-empty and strictly decreasing and the pools hold
      enough primes of every length. */
  method GetPrimes(table: seq<seq<int>>, pools0: Pools) returns (r: Result<seq<seq<nat>>>)
    ensures r.Ok? <==> GoodTable(table) && Enough(Precisions(table), pools0)
    ensures r.Ok? ==> r.value == Factors(table, pools0)
    ensures !GoodTable(table) ==> r == Err(NotDecreasing) || r == Err(EmptyRow)
    ensures GoodTable(table) ==> (r == Err(UnknownPrecision) <==> exists p :: p in Precisions(table) && p !in pools0)
    ensures GoodTable(table) ==>
      (r == Err(TooFewPrimes) <==>
       (forall p :: p in Precisions(table) ==> p in pools0) && !Enough(Precisions(table), pools0))
  {
    var verified := RelativePrecisions(table);
    if verified.Err? {
      return Err(verified.error);
    }
    var precisions := verified.value;
    if exists p :: p in precisions && p !in pools0 {
      return Err(UnknownPrecision);
    }
    if exists p :: p in precisions && Count(precisions, p) > |pools0[p]| {
      return Err(TooFewPrimes);
    }
    var taken := PopAll(precisions, pools0);
    PrecisionsLength(table);
    var factors := UnflattenRowsCols(taken, Lengths(table));
    r := Ok(factors);
  }

  /** One pop. */
  lemma DrawStep(precisions: seq<int>, i: nat, pools: Pools, taken: seq<nat>)
    requires i < |precisions| && Enough(precisions[i..], pools)
    ensures precisions[i] in pools && pools[precisions[i]] != []
    ensures var p := precisions[i]; var first := pools[p][|pools[p]| - 1];
      Enough(precisions[i + 1..], Popped(pools, p)) &&
      taken + Draw(precisions[i..], pools) == (taken + [first]) + Draw(precisions[i + 1..], Popped(pools, p))
  {
    EnoughRest(precisions[i..], pools);
    assert precisions[i..][0] == precisions[i] && precisions[i..][1..] == precisions[i + 1..];
  }

  /** The drawing loop. */
  method PopAll(precisions: seq<int>, pools0: Pools) returns (taken: seq<nat>)
    requires Enough(precisions, pools0)
    ensures taken == Draw(precisions, pools0)
  {
    var pools := pools0;
    taken := [];
    for i := 0 to |precisions|
      invariant |taken| == i && Enough(precisions[i..], pools)
      invariant Draw(precisions, pools0) == taken + Draw(precisions[i..], pools)
    {
      var p := precisions[i];
      DrawStep(precisions, i, pools, taken);
      taken := taken + [pools[p][|pools[p]| - 1]];
      pools := pools[p := pools[p][..|pools[p]| - 1]];
    }
  }

  // ----- what the primes of a chain satisfy -----

  /** Where row r starts in the flat list. */
  function Offset(lengths: seq<nat>, r: nat): nat
    requires r <= |lengths|
  {
    if r == 0 then 0 else lengths[0] + Offset(lengths[1..], r - 1)
  }

  lemma {:induction false} UnflattenedAt<T>(a: seq<T>, lengths: seq<nat>, r: nat, c: nat)
    requires |a| == Total(lengths) && r < |lengths| && c < lengths[r]
    ensures Offset(lengths, r) + c < |a| && c < |Unflattened(a, lengths)[r]| == lengths[r]
    ensures Unflattened(a, lengths)[r][c] == a[Offset(lengths, r) + c]
  {
    if r > 0 {
      UnflattenedAt(a[lengths[0]..], lengths[1..], r - 1, c);
    }
  }

  lemma {:induction false} PrecisionsAt(table: seq<seq<int>>, r: nat, c: nat)
    requires r < |table| && c < |table[r]|
    ensures Offset(Lengths(table), r) + c < |Precisions(table)|
    ensures Precisions(table)[Offset(Lengths(table), r) + c] == Relative(table[r])[c]
  {
    assert Lengths(table)[1..] == Lengths(table[1..]);
    if r > 0 { PrecisionsAt(table[1..], r - 1, c); }
  }

  lemma {:induction false} OffsetsApart(lengths: seq<nat>, r: nat, c: nat, r2: nat)
    requires r < r2 < |lengths| && c < lengths[r]
    ensures Offset(lengths, r) + c < Offset(lengths, r2)
  {
    if r > 0 { OffsetsApart(lengths[1..], r - 1, c, r2 - 1); }
  }

  lemma FactorAt(table: seq<seq<int>>, pools: Pools, r: nat, c: nat, at: nat)
    requires Enough(Precisions(table), pools) && r < |table| && c < |table[r]| && at == Offset(Lengths(table), r) + c
    ensures |Factors(table, pools)[r]| == |table[r]| && at < |Precisions(table)|
    ensures Factors(table, pools)[r][c] == Draw(Precisions(table), pools)[at]
    ensures Precisions(table)[at] == Relative(table[r])[c]
  {
    PrecisionsLength(table);
    UnflattenedAt(Draw(Precisions(table), pools), Lengths(table), r, c);
    PrecisionsAt(table, r, c);
  }

  /** Each column gets one prime of its own bit length. */
  lemma FactorsHaveTheirLength(table: seq<seq<int>>, pools: Pools, r: nat, c: nat)
    requires Enough(Precisions(table), pools) && GoodPools(pools) && r < |table| && c < |table[r]|
    ensures |Factors(table, pools)[r]| == |table[r]| && Relative(table[r])[c] > 0
    ensures 1 < Factors(table, pools)[r][c] < Pow2(Relative(table[r])[c])
  {
    var at := Offset(Lengths(table), r) + c;
    FactorAt(table, pools, r, c, at);
    DrawIsDistinct(Precisions(table), pools);
    assert Draw(Precisions(table), pools)[at] in pools[Precisions(table)[at]];
  }

  /** Each column's prime comes from the pool of its bit length. */
  lemma FactorFromPool(table: seq<seq<int>>, pools: Pools, r: nat, c: nat)
    requires Enough(Precisions(table), pools) && GoodPools(pools) && r < |table| && c < |table[r]|
    ensures |Factors(table, pools)[r]| == |table[r]| && Relative(table[r])[c] in pools
    ensures Factors(table, pools)[r][c] in pools[Relative(table[r])[c]]
  {
    FactorAt(table, pools, r, c, Offset(Lengths(table), r) + c);
    DrawIsDistinct(Precisions(table), pools);
  }

  /** No two columns of the chain share a prime. */
  lemma FactorsAreDistinct(table: seq<seq<int>>, pools: Pools, r: nat, c: nat, r2: nat, c2: nat)
    requires Enough(Precisions(table), pools) && GoodPools(pools)
    requires r <= r2 < |table| && c < |table[r]| && c2 < |table[r2]| && (r < r2 || c < c2)
    ensures |Factors(table, pools)[r]| == |table[r]| && |Factors(table, pools)[r2]| == |table[r2]|
    ensures Factors(table, pools)[r][c] != Factors(table, pools)[r2][c2]
  {
    var at, at2 := Offset(Lengths(table), r) + c, Offset(Lengths(table), r2) + c2;
    FactorAt(table, pools, r, c, at);
    FactorAt(table, pools, r2, c2, at2);
    if r < r2 { OffsetsApart(Lengths(table), r, c, r2); }
    DrawnApart(Precisions(table), pools, at, at2);
  }

  // ----- the remaining product of a row -----

  function ProductFrom(primes: seq<nat>, c: nat): nat
    requires c <= |primes|
    decreases |primes| - c
  {
    if c == |primes| then 1 else primes[c] * ProductFrom(primes, c + 1)
  }

  lemma {:induction false} Pow2Add(a: nat, b: nat)
    ensures Pow2(a + b) == Pow2(a) * Pow2(b)
    decreases a
  {
    if a > 0 {
      Pow2Add(a - 1, b);
      assert (a - 1) + b == a + b - 1;
    }
  }

  lemma ProductBelow(x: nat, y: nat, a: nat, b: nat)
    requires x < a && y < b
    ensures x * y < a * b
  {
    assert x * y <= x * b;
    assert x * b < a * b;
  }

  lemma {:induction false} ProductBound(primes: seq<nat>, bits: seq<int>, c: nat)
    requires |primes| == |bits| && c < |bits|
    requires forall i :: 0 <= i < |bits| ==> bits[i] > 0 && primes[i] < Pow2(bits[i])
    ensures SumFrom(bits, c) > 0 && ProductFrom(primes, c) < Pow2(SumFrom(bits, c))
    decreases |bits| - c
  {
    if c + 1 < |bits| {
      ProductBound(primes, bits, c + 1);
      Pow2Add(bits[c], SumFrom(bits, c + 1));
      ProductBelow(primes[c], ProductFrom(primes, c + 1), Pow2(bits[c]), Pow2(SumFrom(bits, c + 1)));
    }
  }

  /** From column c on, a row's product stays below two to its precision at c. */
  lemma RowProductBound(table: seq<seq<int>>, pools: Pools, r: nat, c: nat)
    requires GoodTable(table) && Enough(Precisions(table), pools) && GoodPools(pools) && r < |table| && c < |table[r]|
    ensures |Factors(table, pools)[r]| == |table[r]| && table[r][c] > 0
    ensures ProductFrom(Factors(table, pools)[r], c) < Pow2(table[r][c])
  {
    var primes, bits := Factors(table, pools)[r], Relative(table[r]);
    FactorsHaveTheirLength(table, pools, r, c);
    forall i | 0 <= i < |bits|
      ensures bits[i] > 0 && primes[i] < Pow2(bits[i])
    {
      FactorsHaveTheirLength(table, pools, r, i);
    }
    ProductBound(primes, bits, c);
    Telescope(table[r], c);
  }

  /** So the int64 product of any remaining columns of a row cannot overflow for precisions up to 62 bits. */
  lemma FitsInt64(table: seq<seq<int>>, pools: Pools, r: nat, c: nat)
    requires GoodTable(table) && Enough(Precisions(table), pools) && GoodPools(pools)
    requires r < |table| && c < |table[r]| && table[r][0] <= 62
    ensures |Factors(table, pools)[r]| == |table[r]|
    ensures ProductFrom(Factors(table, pools)[r], c) < 0x4000_0000_0000_0000
  {
    RowProductBound(table, pools, r, c);
    DecreasingFromFirst(table[r], c);
    Pow2Monotone(table[r][c], 62);
    Pow2Of62(62);
  }

  lemma Pow2Sum(a: nat, b: nat, v: nat, w: nat, e: nat)
    requires Pow2(a) == v && Pow2(b) == w && e == a + b
    ensures Pow2(e) == v * w
  {
    Pow2Add(a, b);
  }

  lemma Pow2Of62(e: nat)
    requires e == 62
    ensures Pow2(e) == 0x4000_0000_0000_0000
  {
    var two, eight := e - 60, e - 54;
    assert Pow2(two) == 4 by { assert Pow2(two - 1) == 2; }
    Pow2Sum(two, two, 4, 4, 2 * two);
    Pow2Sum(2 * two, 2 * two, 16, 16, eight);
    Pow2Sum(eight, eight, 256, 256, 2 * eight);
    Pow2Sum(2 * eight, 2 * eight, 65536, 65536, 4 * eight);
    Pow2Sum(4 * eight, 2 * eight, 4294967296, 65536, 6 * eight);
    Pow2Sum(6 * eight, eight, 0x1_0000_0000_0000, 256, 7 * eight);
    Pow2Sum(7 * eight, 2 * two, 0x100_0000_0000_0000, 16, 7 * eight + 2 * two);
    Pow2Sum(7 * eight + 2 * two, two, 0x1000_0000_0000_0000, 4, e);
  }

  lemma {:induction false} DecreasingFromFirst(row: seq<int>, c: nat)
    requires Decreasing(row) && c < |row|
    ensures row[c] <= row[0]
  {
    if c > 0 { DecreasingFromFirst(row, c - 1); }
  }

  // ----- the draw order of a chain -----

  /** `base_rows + [row for row in range(n) if row not in base_rows]` for at most one base row. */
  function DrawOrder(base: nat, n: nat): (order: seq<nat>)
    requires base < n
    ensures |order| == n && order[0] == base && forall i :: 0 <= i < n ==> order[i] < n
  {
    [base] + seq(n - 1, i requires 0 <= i < n - 1 => if i < base then i else i + 1)
  }

  /** Where a row stands in that order. */
  function Place(base: nat, row: nat): nat { if row == base then 0 else if row < base then row + 1 else row }

  function Reordered(table: seq<seq<int>>, base: nat): (r: seq<seq<int>>)
    requires base < |table|
    ensures |r| == |table|
  {
    seq(|table|, i requires 0 <= i < |table| => table[DrawOrder(base, |table|)[i]])
  }

  /** `factors_per_row`: drawn base row first, stored in chain order. */
  function ChainFactors(table: seq<seq<int>>, base: nat, pools: Pools): (r: seq<seq<nat>>)
    requires base < |table| && Enough(Precisions(Reordered(table, base)), pools)
    ensures |r| == |table|
  {
    seq(|table|, row requires 0 <= row < |table| => Factors(Reordered(table, base), pools)[Place(base, row)])
  }

  /** Every row of the chain is one row of the reordered table, and holds the primes drawn for it. */
  lemma ChainRow(table: seq<seq<int>>, base: nat, pools: Pools, r: nat, t: seq<seq<int>>, at: nat)
    requires base < |table| && t == Reordered(table, base) && Enough(Precisions(t), pools)
    requires r < |table| && at == Place(base, r)
    ensures at < |t| && t[at] == table[r] && ChainFactors(table, base, pools)[r] == Factors(t, pools)[at]
  {
    assert DrawOrder(base, |table|)[at] == r;
  }

  lemma ReorderedIsGood(table: seq<seq<int>>, base: nat)
    requires base < |table| && GoodTable(table)
    ensures GoodTable(Reordered(table, base))
  {
    var t := Reordered(table, base);
    forall i | 0 <= i < |t|
      ensures t[i] != [] && Decreasing(t[i])
    {
      assert t[i] == table[DrawOrder(base, |table|)[i]];
    }
  }

  /** The rows keep their own precisions whatever the draw order, so every bound above holds row by row. */
  lemma ChainRowProductBound(table: seq<seq<int>>, base: nat, pools: Pools, r: nat, c: nat)
    requires base < |table| && GoodTable(table) && Enough(Precisions(Reordered(table, base)), pools) && GoodPools(pools)
    requires r < |table| && c < |table[r]|
    ensures |ChainFactors(table, base, pools)[r]| == |table[r]| && table[r][c] > 0
    ensures ProductFrom(ChainFactors(table, base, pools)[r], c) < Pow2(table[r][c])
  {
    var t := Reordered(table, base);
    ChainRow(table, base, pools, r, t, Place(base, r));
    ReorderedIsGood(table, base);
    RowProductBound(t, pools, Place(base, r), c);
  }

  /** Drawn first, the base row gets the primes that a one-row chain with the same row gets. */
  lemma BaseMatchesOneRowChain(table: seq<seq<int>>, base: nat, pools: Pools)
    requires base < |table| && Enough(Precisions(Reordered(table, base)), pools)
    ensures Enough(Precisions([table[base]]), pools)
    ensures ChainFactors(table, base, pools)[base] == Factors([table[base]], pools)[0]
  {
    var t := Reordered(table, base);
    assert DrawOrder(base, |table|)[0] == base && |t| > 0;
    assert t[0] == table[base];
    FirstRowAlone(t, pools);
    assert [t[0]] == [table[base]];
  }

  lemma FirstRowAlone(t: seq<seq<int>>, pools: Pools)
    requires t != [] && Enough(Precisions(t), pools)
    ensures Enough(Precisions([t[0]]), pools)
    ensures Factors(t, pools)[0] == Factors([t[0]], pools)[0]
  {
    var a, b := Relative(t[0]), Precisions(t[1..]);
    assert Precisions([t[0]]) == a + Precisions([]) == a;
    EnoughPrefix(a, b, pools);
    DrawPrefix(a, b, pools);
    PrecisionsLength(t);
    PrecisionsLength([t[0]]);
    assert Lengths(t)[0] == |a| && Lengths([t[0]])[0] == |a|;
    assert Draw(a, pools)[..|a|] == Draw(a, pools);
  }

  lemma {:induction false} CountAppend(a: seq<int>, b: seq<int>, p: int)
    ensures Count(a + b, p) == Count(a, p) + Count(b, p)
  {
    if a == [] {
      assert a + b == b;
    } else {
      CountAppend(a[1..], b, p);
      assert (a + b)[1..] == a[1..] + b;
    }
  }

  lemma EnoughPrefix(a: seq<int>, b: seq<int>, pools: Pools)
    requires Enough(a + b, pools)
    ensures Enough(a, pools)
  {
    forall p | p in a
      ensures p in pools && Count(a, p) <= |pools[p]|
    {
      assert p in a + b;
      CountAppend(a, b, p);
    }
  }

  lemma {:induction false} DrawPrefix(a: seq<int>, b: seq<int>, pools: Pools)
    requires Enough(a + b, pools) && Enough(a, pools)
    ensures Draw(a + b, pools)[..|a|] == Draw(a, pools)
  {
    if a != [] {
      assert (a + b)[1..] == a[1..] + b;
      EnoughRest(a + b, pools);
      EnoughRest(a, pools);
      DrawPrefix(a[1..], b, Popped(pools, a[0]));
    }
  }

  // ----- bootstrap precision tables -----

  /** `BootstrappingParams.get_q_list_precision`. */
  function QListPrecision(scale: int, levels: int): Result<seq<seq<int>>> {
    if scale < 25 || scale > 62 then Err(BadScale)
    else if levels <= 0 then Err(BadLevels)
    else if scale < 32 then Ok(seq(levels / 2, i => [2 * scale, scale]) + seq(levels % 2, i => [scale]))
    else Ok(seq(levels, i => [scale]))
  }

  function Columns(table: seq<seq<int>>): nat {
    if table == [] then 0 else |table[0]| + Columns(table[1..])
  }

  lemma {:induction false} ColumnsRepeat(row: seq<int>, n: nat, rest: seq<seq<int>>)
    ensures Columns(seq(n, i => row) + rest) == n * |row| + Columns(rest)
  {
    if n == 0 {
      assert seq(n, i => row) + rest == rest;
    } else {
      hide Columns;
      var others := seq(n - 1, i => row) + rest;
      ColumnsRepeat(row, n - 1, rest);
      RepeatFront(row, n, rest);
      ColumnsCons(row, others);
      OneTimesMore(n, |row|);
    }
  }

  lemma RepeatFront(row: seq<int>, n: nat, rest: seq<seq<int>>)
    requires n > 0
    ensures seq(n, i => row) + rest == [row] + (seq(n - 1, i => row) + rest)
  {}

  lemma OneTimesMore(n: nat, w: nat)
    ensures n * w == w + (n - 1) * w
  {}

  lemma ColumnsCons(row: seq<int>, rest: seq<seq<int>>)
    ensures Columns([row] + rest) == |row| + Columns(rest)
  {
    assert ([row] + rest)[1..] == rest;
  }

  /** Every level of the table has a prime of exactly `scale` bits, and below 32 bits the levels are packed in pairs. */
  lemma QListBits(scale: int, levels: int, i: nat, c: nat)
    requires QListPrecision(scale, levels).Ok? && i < |QListPrecision(scale, levels).value|
    ensures var table := QListPrecision(scale, levels).value;
      |table| == (if scale < 32 then (levels + 1) / 2 else levels) &&
      |table[i]| == (if scale < 32 && 2 * i + 1 < levels then 2 else 1) &&
      (c < |table[i]| ==> Relative(table[i])[c] == scale)
  {}

  /** A precision table is given iff the scale and the number of levels are in range; it then passes the prime draw's
      row check, holds exactly the requested levels, and no row exceeds 62 bits. */
  lemma QListIsDrawable(scale: int, levels: int)
    ensures var r := QListPrecision(scale, levels);
      (r.Ok? <==> 25 <= scale <= 62 && levels > 0) &&
      (r.Ok? ==> GoodTable(r.value) && Columns(r.value) == levels) &&
      (r.Ok? ==> forall i :: 0 <= i < |r.value| ==> r.value[i] != [] && r.value[i][0] <= 62)
  {
    if QListPrecision(scale, levels).Ok? {
      if scale < 32 {
        var single := seq(levels % 2, i => [scale]);
        ColumnsRepeat([2 * scale, scale], levels / 2, single);
        assert seq(levels / 2, i => [2 * scale, scale]) == seq(levels / 2, i => [2 * scale, scale]);
        ColumnsRepeat([scale], levels % 2, []);
        assert single + [] == single;
      } else {
        ColumnsRepeat([scale], levels, []);
        assert seq(levels, i => [scale]) + [] == seq(levels, i => [scale]);
      }
    }
  }
}
