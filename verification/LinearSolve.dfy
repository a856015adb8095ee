/**
 `_mp_solve` of `remez_utils.py` over exact reals: Gaussian elimination with partial pivoting on augmented rows,
 in place, then back substitution. A zero pivot is the division error of the source.
 */
module LinearSolve {
  import opened Reals
  import opened Wrappers

  type Row = seq<real>

  // ----- dot products -----

  function DotFrom(a: Row, b: Row, k: nat): (r: real)
    requires k <= |a| == |b|
    decreases |a| - k
  {
    if k == |a| then 0.0 else a[k] * b[k] + DotFrom(a, b, k + 1)
  }

  function Dot(a: Row, b: Row): real
    requires |a| == |b|
  {
    DotFrom(a, b, 0)
  }

  lemma {:induction false} DotCongruent(a: Row, b: Row, a2: Row, b2: Row, k: nat)
    requires k <= |a| == |b| == |a2| == |b2|
    requires forall j :: k <= j < |a| ==> a[j] == a2[j] && b[j] == b2[j]
    ensures DotFrom(a, b, k) == DotFrom(a2, b2, k)
    decreases |a| - k
  {
    if k < |a| { DotCongruent(a, b, a2, b2, k + 1); }
  }

  /** Leading zeros of either factor do not matter. */
  lemma {:induction false} DotSkipsZeros(a: Row, b: Row, k: nat, to: nat)
    requires k <= to <= |a| == |b|
    requires forall j :: k <= j < to ==> a[j] == 0.0 || b[j] == 0.0
    ensures DotFrom(a, b, k) == DotFrom(a, b, to)
    decreases |a| - k
  {
    if k < to {
      assert a[k] * b[k] == 0.0;
      DotSkipsZeros(a, b, k + 1, to);
    }
  }

  /** row - f * pivot, entry by entry. */
  function Reduced(row: Row, f: real, pivot: Row): (r: Row)
    requires |row| == |pivot|
    ensures |r| == |row|
  {
    seq(|row|, k requires 0 <= k < |row| => row[k] - f * pivot[k])
  }

  lemma {:induction false} DotReduced(row: Row, f: real, pivot: Row, z: Row, k: nat)
    requires k <= |row| == |pivot| == |z|
    ensures DotFrom(Reduced(row, f, pivot), z, k) == DotFrom(row, z, k) - f * DotFrom(pivot, z, k)
    decreases |row| - k
  {
    if k < |row| {
      DotReduced(row, f, pivot, z, k + 1);
      Distribute(row[k], f, pivot[k], z[k], DotFrom(row, z, k + 1), DotFrom(pivot, z, k + 1));
    }
  }

  lemma Distribute(a: real, f: real, p: real, z: real, s: real, t: real)
    ensures (a - f * p) * z + (s - f * t) == (a * z + s) - f * (p * z + t)
  {}

  lemma {:induction false} DotAppend(a: Row, b: Row, u: real, v: real, k: nat)
    requires k <= |a| == |b|
    ensures DotFrom(a + [u], b + [v], k) == DotFrom(a, b, k) + u * v
    decreases |a| - k
  {
    if k < |a| {
      DotAppend(a, b, u, v, k + 1);
    } else {
      assert DotFrom(a + [u], b + [v], |a| + 1) == 0.0;
    }
  }

  // ----- systems -----

  predicate Shaped(m: seq<Row>, n: nat) {
    |m| == n && forall i :: 0 <= i < n ==> |m[i]| == n + 1
  }

  /** Every augmented row vanishes on z. With z = x + [-1] this says that x solves the system, with z = v + [0] that
      v is in the kernel. */
  predicate Vanishes(m: seq<Row>, z: Row)
    requires Shaped(m, |m|)
  {
    |z| == |m| + 1 && forall i :: 0 <= i < |m| ==> Dot(m[i], z) == 0.0
  }

  ghost predicate Equivalent(m: seq<Row>, m2: seq<Row>) {
    Shaped(m, |m|) && Shaped(m2, |m|) && forall z: Row :: Vanishes(m, z) <==> Vanishes(m2, z)
  }

  lemma ReducingKeepsSolutions(m: seq<Row>, r: nat, c: nat, f: real)
    requires Shaped(m, |m|) && r < |m| && c < |m| && r != c
    ensures Equivalent(m, m[r := Reduced(m[r], f, m[c])])
  {
    var m2 := m[r := Reduced(m[r], f, m[c])];
    forall z: Row
      ensures Vanishes(m, z) <==> Vanishes(m2, z)
    {
      if |z| == |m| + 1 {
        DotReduced(m[r], f, m[c], z, 0);
        if Dot(m[c], z) == 0.0 {
          assert f * Dot(m[c], z) == 0.0;
          assert Dot(m2[r], z) == Dot(m[r], z);
          assert forall i :: 0 <= i < |m| ==> Dot(m2[i], z) == Dot(m[i], z);
        } else {
          assert m2[c] == m[c];
        }
      }
    }
  }

  lemma SwappingKeepsSolutions(m: seq<Row>, i: nat, j: nat)
    requires Shaped(m, |m|) && i < |m| && j < |m|
    ensures Equivalent(m, m[i := m[j]][j := m[i]])
  {
    var m2 := m[i := m[j]][j := m[i]];
    forall z: Row
      ensures Vanishes(m, z) <==> Vanishes(m2, z)
    {
      assert forall k :: 0 <= k < |m| ==> m2[k] == m[if k == i then j else if k == j then i else k];
      assert forall k :: 0 <= k < |m| ==> m[k] == m2[if k == i then j else if k == j then i else k];
    }
  }

  /** The first columns are reduced: zero below a non-zero diagonal. */
  predicate ReducedTo(m: seq<Row>, cols: nat) {
    Shaped(m, |m|) && cols <= |m| &&
    (forall c :: 0 <= c < cols ==> m[c][c] != 0.0) &&
    (forall r, c :: 0 <= c < cols && c < r < |m| ==> m[r][c] == 0.0)
  }

  /** The entry at the pivot cancels the rest of the row. */
  lemma PivotEntry(row: Row, z: Row, c: nat, rest: real)
    requires c < |row| == |z| && row[c] != 0.0 && z[c] == -rest / row[c] && DotFrom(row, z, c + 1) == rest
    ensures DotFrom(row, z, c) == 0.0
  {
    QuotientTimes(row[c], -rest, z[c]);
  }

  lemma QuotientTimes(d: real, a: real, q: real)
    requires d != 0.0 && q == a / d
    ensures d * q == a
  {}

  /** Rows above col can be satisfied by choosing the unknowns above col, whatever the later ones are. */
  lemma {:induction false} FillIn(m: seq<Row>, cols: nat, z0: Row) returns (z: Row)
    requires ReducedTo(m, cols) && |z0| == |m| + 1
    ensures |z| == |z0| && z[cols..] == z0[cols..]
    ensures forall i :: 0 <= i < cols ==> Dot(m[i], z) == 0.0
    decreases cols
  {
    if cols == 0 {
      z := z0;
    } else {
      var c := cols - 1;
      var rest := DotFrom(m[c], z0, c + 1);
      var z1 := z0[c := -rest / m[c][c]];
      z := FillIn(m, c, z1);
      assert forall j :: c <= j < |z| ==> z[j] == z[c..][j - c] == z1[j];
      DotSkipsZeros(m[c], z, 0, c);
      DotCongruent(m[c], z, m[c], z0, c + 1);
      PivotEntry(m[c], z, c, rest);
    }
  }

  /** A column without a pivot gives a non-zero kernel vector. */
  lemma ZeroPivotGivesKernel(m: seq<Row>, col: nat) returns (v: Row)
    requires ReducedTo(m, col) && col < |m| && forall r :: col <= r < |m| ==> m[r][col] == 0.0
    ensures |v| == |m| && v[col] == 1.0 && Vanishes(m, v + [0.0])
  {
    var n := |m|;
    var unit := seq(n + 1, k requires 0 <= k < n + 1 => if k == col then 1.0 else 0.0);
    var z := FillIn(m, col, unit);
    assert forall j :: col <= j <= n ==> z[j] == z[col..][j - col] == unit[j];
    v := z[..n];
    assert v + [0.0] == z;
    forall i | col <= i < n
      ensures Dot(m[i], z) == 0.0
    {
      DotSkipsZeros(m[i], z, 0, n + 1);
    }
  }

  /** A fully reduced system has at most one solution. */
  lemma {:induction false} ReducedUnique(m: seq<Row>, y: Row, z: Row, k: nat)
    requires ReducedTo(m, |m|) && Vanishes(m, y) && Vanishes(m, z) && k <= |m| && y[k..] == z[k..]
    ensures y == z
    decreases k
  {
    if k > 0 {
      var c := k - 1;
      assert forall j :: k <= j < |y| ==> y[j] == y[k..][j - k] && z[j] == z[k..][j - k];
      DotSkipsZeros(m[c], y, 0, c);
      DotSkipsZeros(m[c], z, 0, c);
      DotCongruent(m[c], y, m[c], z, k);
      assert DotFrom(m[c], y, c) == Dot(m[c], y) == Dot(m[c], z) == DotFrom(m[c], z, c);
      SameEntry(m[c], y, z, c);
      assert y[c..] == [y[c]] + y[k..] && z[c..] == [z[c]] + z[k..];
      ReducedUnique(m, y, z, c);
    } else {
      assert y[0..] == y && z[0..] == z;
    }
  }

  /** Two vectors with the same products from column c and from c + 1 on agree at c. */
  lemma SameEntry(row: Row, y: Row, z: Row, c: nat)
    requires c < |row| == |y| == |z| && row[c] != 0.0
    requires DotFrom(row, y, c) == DotFrom(row, z, c) && DotFrom(row, y, c + 1) == DotFrom(row, z, c + 1)
    ensures y[c] == z[c]
  {
    DotHead(row, y, c, row[c] * y[c], DotFrom(row, y, c + 1));
    DotHead(row, z, c, row[c] * z[c], DotFrom(row, z, c + 1));
    SameQuotient(row[c], y[c], z[c]);
  }

  lemma SameQuotient(d: real, a: real, b: real)
    requires d != 0.0 && d * a == d * b
    ensures a == b
  {
    assert d * (a - b) == 0.0;
  }

  // ----- the solver -----

  predicate SquareSystem(rows: seq<Row>, rhs: Row) {
    |rows| == |rhs| && forall i :: 0 <= i < |rhs| ==> |rows[i]| == |rhs|
  }

  function Augmented(rows: seq<Row>, rhs: Row): (m: seq<Row>)
    requires SquareSystem(rows, rhs)
    ensures Shaped(m, |rhs|)
  {
    seq(|rhs|, i requires 0 <= i < |rhs| => rows[i] + [rhs[i]])
  }

  predicate Solves(rows: seq<Row>, rhs: Row, x: Row)
    requires SquareSystem(rows, rhs)
  {
    |x| == |rhs| && forall i :: 0 <= i < |rhs| ==> Dot(rows[i], x) == rhs[i]
  }

  predicate InKernel(rows: seq<Row>, v: Row)
    requires forall i :: 0 <= i < |rows| ==> |rows[i]| == |rows|
  {
    |v| == |rows| && forall i :: 0 <= i < |rows| ==> Dot(rows[i], v) == 0.0
  }

  /** Solutions and kernel vectors are the zeros of the augmented system with last entry -1 and 0. */
  lemma AugmentedMeaning(rows: seq<Row>, rhs: Row, x: Row)
    requires SquareSystem(rows, rhs) && |x| == |rhs|
    ensures Vanishes(Augmented(rows, rhs), x + [-1.0]) <==> Solves(rows, rhs, x)
    ensures Vanishes(Augmented(rows, rhs), x + [0.0]) <==> InKernel(rows, x)
  {
    var m := Augmented(rows, rhs);
    forall i | 0 <= i < |rhs|
      ensures Dot(m[i], x + [-1.0]) == Dot(rows[i], x) - rhs[i] && Dot(m[i], x + [0.0]) == Dot(rows[i], x)
    {
      DotAppend(rows[i], x, rhs[i], -1.0, 0);
      DotAppend(rows[i], x, rhs[i], 0.0, 0);
    }
  }

  /** The first row at or below col with the largest entry in that column. */
  method PivotRow(m: array<Row>, col: nat) returns (piv: nat)
    requires col < m.Length && Shaped(m[..], m.Length)
    ensures col <= piv < m.Length
    ensures forall r :: col <= r < m.Length ==> Abs(m[r][col]) <= Abs(m[piv][col])
    ensures forall r :: col <= r < piv ==> Abs(m[r][col]) < Abs(m[piv][col])
  {
    assert forall i :: 0 <= i < m.Length ==> |m[..][i]| == m.Length + 1;
    piv := col;
    for r := col + 1 to m.Length
      invariant col <= piv < r
      invariant forall k :: col <= k < r ==> Abs(m[k][col]) <= Abs(m[piv][col])
      invariant forall k :: col <= k < piv ==> Abs(m[k][col]) < Abs(m[piv][col])
    {
      if Abs(m[r][col]) > Abs(m[piv][col]) {
        piv := r;
      }
    }
  }

  /** Subtract f times the pivot row from row r, columns col and later. */
  method ReduceRow(m: array<Row>, r: nat, col: nat, f: real)
    requires r < m.Length && col < m.Length && r != col && Shaped(m[..], m.Length)
    requires forall k :: 0 <= k < col ==> m[col][k] == 0.0
    modifies m
    ensures m[..] == old(m[..])[r := Reduced(old(m[r]), f, old(m[col]))]
  {
    var n := m.Length;
    assert |m[..][r]| == n + 1 && |m[..][col]| == n + 1;
    ghost var whole := Reduced(m[r], f, m[col]);
    ghost var before := m[..];
    for k := col to n + 1
      invariant forall i :: 0 <= i < n && i != r ==> m[i] == before[i]
      invariant |m[r]| == n + 1
      invariant forall j :: 0 <= j < k ==> m[r][j] == whole[j]
      invariant forall j :: k <= j < n + 1 ==> m[r][j] == before[r][j]
    {
      m[r] := m[r][k := m[r][k] - f * m[col][k]];
    }
    assert m[r] == whole;
  }

  /** Clear column col below its diagonal. */
  method EliminateColumn(m: array<Row>, col: nat)
    requires col < m.Length && ReducedTo(m[..], col) && m[col][col] != 0.0
    requires Shaped(m[..], m.Length)
    modifies m
    ensures ReducedTo(m[..], col + 1) && Equivalent(old(m[..]), m[..])
  {
    ghost var start := m[..];
    assert forall i :: 0 <= i < m.Length ==> m[..][i] == m[i];
    var inv := 1.0 / m[col][col];
    assert Equivalent(start, m[..]);
    for r := col + 1 to m.Length
      invariant Shaped(m[..], m.Length) && Equivalent(start, m[..])
      invariant forall i :: 0 <= i <= col ==> m[i] == start[i]
      invariant forall i, c :: 0 <= c < col && c < i < m.Length ==> m[i][c] == 0.0
      invariant forall i :: col < i < r ==> m[i][col] == 0.0
    {
      assert m[..][r] == m[r] && m[..][col] == m[col] && |m[r]| == m.Length + 1;
      var f := m[r][col] * inv;
      PivotCancels(m[r][col], m[col][col], inv);
      if f != 0.0 {
        ghost var before := m[..];
        assert forall k :: 0 <= k < col ==> m[col][k] == 0.0;
        ReducingKeepsSolutions(before, r, col, f);
        ReduceRow(m, r, col, f);
        assert forall i :: 0 <= i < m.Length ==> m[i] == m[..][i];
      }
    }
    assert forall i :: 0 <= i < m.Length ==> m[i] == m[..][i];
  }

  lemma PivotCancels(a: real, p: real, inv: real)
    requires p != 0.0 && inv == 1.0 / p
    ensures a - (a * inv) * p == 0.0
    ensures a * inv == 0.0 ==> a == 0.0
  {
    assert inv * p == 1.0;
    assert (a * inv) * p == a * (inv * p);
  }

  /** Back substitution on a fully reduced system. */
  method BackSubstitute(m: array<Row>) returns (x: Row)
    requires ReducedTo(m[..], m.Length)
    ensures |x| == m.Length && Vanishes(m[..], x + [-1.0])
  {
    var n := m.Length;
    ghost var mm := m[..];
    x := seq(n, _ => 0.0);
    for i := n downto 0
      invariant |x| == n
      invariant forall r :: i <= r < n ==> Dot(mm[r], x + [-1.0]) == 0.0
    {
      var mi := m[i];
      assert mi == mm[i] && |mi| == n + 1;
      var s := mi[n];
      ghost var z := x + [-1.0];
      assert DotFrom(mi, z, n) == -mi[n] by { assert DotFrom(mi, z, n + 1) == 0.0; }
      for k := i + 1 to n
        invariant s == mi[n] - (DotFrom(mi, z, i + 1) - DotFrom(mi, z, k))
      {
        s := s - mi[k] * x[k];
      }
      assert s == -DotFrom(mi, z, i + 1);
      x := x[i := s / mi[i]];
      Divided(mi[i], s);
      RowSatisfied(mm, i, z, x + [-1.0], x[i], s);
    }
  }

  lemma RowSatisfied(m: seq<Row>, i: nat, z: Row, z2: Row, q: real, s: real)
    requires ReducedTo(m, |m|) && i < |m| && |z| == |z2| == |m| + 1
    requires s == -DotFrom(m[i], z, i + 1) && m[i][i] * q == s && z2 == z[i := q]
    requires forall r :: i < r < |m| ==> Dot(m[r], z) == 0.0
    ensures forall r :: i <= r < |m| ==> Dot(m[r], z2) == 0.0
  {
    hide DotFrom;
    OwnRowSatisfied(m[i], i, z, z2, q, s);
    DotSkipsZeros(m[i], z2, 0, i);
    forall r | i < r < |m|
      ensures Dot(m[r], z2) == 0.0
    {
      LowerRowUnchanged(m, i, r, z, z2);
    }
  }

  lemma Divided(d: real, s: real)
    requires d != 0.0
    ensures d * (s / d) == s
  {}

  lemma DotHead(a: Row, b: Row, i: nat, p: real, rest: real)
    requires i < |a| == |b| && a[i] * b[i] == p && DotFrom(a, b, i + 1) == rest
    ensures DotFrom(a, b, i) == p + rest
  {}

  lemma OwnRowSatisfied(row: Row, i: nat, z: Row, z2: Row, q: real, s: real)
    requires i < |row| == |z| && z2 == z[i := q] && row[i] * q == s && DotFrom(row, z, i + 1) == -s
    ensures DotFrom(row, z2, i) == 0.0
  {
    TailUnchanged(row, z, z2, i);
    OwnProduct(row[i], z2[i], q, s);
    DotHead(row, z2, i, s, -s);
  }

  lemma TailUnchanged(row: Row, z: Row, z2: Row, i: nat)
    requires i < |row| == |z| == |z2| && forall j :: i < j < |z| ==> z2[j] == z[j]
    ensures DotFrom(row, z2, i + 1) == DotFrom(row, z, i + 1)
  {
    DotCongruent(row, z, row, z2, i + 1);
  }

  lemma OwnProduct(d: real, x: real, q: real, s: real)
    requires x == q && d * q == s
    ensures d * x == s
  {}

  lemma LowerRowUnchanged(m: seq<Row>, i: nat, r: nat, z: Row, z2: Row)
    requires ReducedTo(m, |m|) && i < r < |m| && |z| == |z2| == |m| + 1
    requires forall j :: i < j < |z| ==> z2[j] == z[j]
    ensures Dot(m[r], z2) == Dot(m[r], z)
  {
    DotSkipsZeros(m[r], z, 0, i + 1);
    DotSkipsZeros(m[r], z2, 0, i + 1);
    DotCongruent(m[r], z, m[r], z2, i + 1);
  }

  /** `_mp_solve`. None is the division by a zero pivot. An answer is the one solution; no answer means that the matrix
      has a non-zero kernel vector, so the system never had exactly one solution. */
  method Solve(rows: seq<Row>, rhs: Row) returns (x: Option<Row>)
    requires SquareSystem(rows, rhs)
    ensures x.Some? ==> Solves(rows, rhs, x.value) && forall y: Row :: Solves(rows, rhs, y) ==> y == x.value
    ensures x.None? ==> exists v: Row, i: nat :: InKernel(rows, v) && i < |v| && v[i] != 0.0
  {
    var n := |rhs|;
    ghost var aug := Augmented(rows, rhs);
    var m := new Row[n](i requires 0 <= i < n => rows[i] + [rhs[i]]);
    assert m[..] == aug;
    for col := 0 to n
      invariant ReducedTo(m[..], col) && Equivalent(aug, m[..])
    {
      var piv := PivotRow(m, col);
      assert forall i :: 0 <= i < n ==> m[i] == m[..][i];
      if m[piv][col] == 0.0 {
        ghost var v := ZeroPivotGivesKernel(m[..], col);
        AugmentedMeaning(rows, rhs, v);
        assert InKernel(rows, v) && v[col] != 0.0;
        return None;
      }
      if piv != col {
        ghost var before := m[..];
        SwappingKeepsSolutions(before, col, piv);
        m[col], m[piv] := m[piv], m[col];
        assert m[..] == before[col := before[piv]][piv := before[col]];
      }
      EliminateColumn(m, col);
    }
    var s := BackSubstitute(m);
    AugmentedMeaning(rows, rhs, s);
    OnlySolution(rows, rhs, m[..], s);
    x := Some(s);
  }

  lemma OnlySolution(rows: seq<Row>, rhs: Row, m: seq<Row>, x: Row)
    requires SquareSystem(rows, rhs) && Equivalent(Augmented(rows, rhs), m) && ReducedTo(m, |m|)
    requires |x| == |rhs| && Vanishes(m, x + [-1.0])
    ensures forall y: Row :: Solves(rows, rhs, y) ==> y == x
  {
    forall y: Row | Solves(rows, rhs, y)
      ensures y == x
    {
      AugmentedMeaning(rows, rhs, y);
      var yz, xz := y + [-1.0], x + [-1.0];
      assert yz[|m|..] == [-1.0] && xz[|m|..] == [-1.0];
      ReducedUnique(m, yz, xz, |m|);
      assert y == yz[..|rhs|] && x == xz[..|rhs|];
    }
  }

  /** A non-zero kernel vector rules out a unique solution, so an answer is given exactly for the regular systems. */
  lemma KernelBreaksUniqueness(rows: seq<Row>, rhs: Row, x: Row, v: Row, i: nat)
    requires SquareSystem(rows, rhs) && Solves(rows, rhs, x) && InKernel(rows, v) && i < |v| && v[i] != 0.0
    ensures exists y: Row :: Solves(rows, rhs, y) && y != x
  {
    var y := Reduced(x, 1.0, v);
    forall r | 0 <= r < |rhs|
      ensures Dot(rows[r], y) == rhs[r]
    {
      DotReduced(x, 1.0, v, rows[r], 0);
      DotCommutes(rows[r], y, 0);
      DotCommutes(rows[r], x, 0);
      DotCommutes(rows[r], v, 0);
    }
    assert y[i] == x[i] - 1.0 * v[i];
    assert Solves(rows, rhs, y);
  }

  lemma {:induction false} DotCommutes(a: Row, b: Row, k: nat)
    requires k <= |a| == |b|
    ensures DotFrom(a, b, k) == DotFrom(b, a, k)
    decreases |a| - k
  {
    if k < |a| { DotCommutes(a, b, k + 1); }
  }
}
