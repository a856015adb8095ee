/**
 The primes of a modulus chain as `ModulusChain.post_init` draws them, base row first, seen from the level tracing.
 */
module ChainPrimes {
  import opened Bits
  import opened ModulusChain
  import opened Wrappers
  import DropConfigs
  import LevelTracing
  import PrimeDivisors
  import Primes

  /** The chain over a precision table that the row check accepts and the pools can serve. */
  ghost predicate Drawn(ch: Chain, table: seq<seq<int>>, base: nat, pools: Primes.Pools) {
    base < |table| && Primes.GoodTable(table) && Primes.GoodPools(pools) &&
    Primes.Enough(Primes.Precisions(Primes.Reordered(table, base)), pools) &&
    ch.factors == Primes.ChainFactors(table, base, pools)
  }

  /** Each column of the chain holds one prime of its own bit length. */
  lemma ColumnPrime(ch: Chain, table: seq<seq<int>>, base: nat, pools: Primes.Pools, r: nat, c: nat)
    requires Drawn(ch, table, base, pools) && r < |table| && c < |table[r]|
    ensures |ch.factors| == |table| && |ch.factors[r]| == |table[r]| && Primes.Relative(table[r])[c] > 0
    ensures 1 < ch.factors[r][c] < Pow2(Primes.Relative(table[r])[c])
  {
    var t, at := Primes.Reordered(table, base), Primes.Place(base, r);
    Primes.ChainRow(table, base, pools, r, t, at);
    Primes.FactorsHaveTheirLength(t, pools, at, c);
  }

  lemma RowWidth(ch: Chain, table: seq<seq<int>>, base: nat, pools: Primes.Pools, r: nat)
    requires Drawn(ch, table, base, pools) && r < |table|
    ensures |ch.factors| == |table| && |ch.factors[r]| == |table[r]| >= 1
  {
    ColumnPrime(ch, table, base, pools, r, 0);
  }

  /** The sections of the chain cover the table, and its columns are padded to the longest row. */
  predicate CoversTable(ch: Chain, table: seq<seq<int>>) {
    var l := ch.layout;
    l.pipeline + l.cts + l.evalMod + l.stc + l.base + l.special == |table| &&
    forall r :: 0 <= r < |table| ==> |table[r]| <= ch.maxCols
  }

  /** A drawn chain is valid as soon as its sections cover the table and its columns are padded to the longest row. */
  lemma DrawnIsValid(ch: Chain, table: seq<seq<int>>, base: nat, pools: Primes.Pools)
    requires Drawn(ch, table, base, pools) && CoversTable(ch, table)
    ensures ValidChain(ch)
  {
    forall r | 0 <= r < |ch.factors|
      ensures ValidRow(ch, r)
    {
      RowWidth(ch, table, base, pools, r);
      forall c | 0 <= c < |ch.factors[r]|
        ensures ch.factors[r][c] > 0
      {
        ColumnPrime(ch, table, base, pools, r, c);
      }
    }
  }

  lemma PlacesApart(base: nat, r: nat, r2: nat)
    requires r != r2
    ensures Primes.Place(base, r) != Primes.Place(base, r2)
  {}

  /** No two columns of the chain share a prime, although the base row is drawn first. */
  lemma ColumnsDiffer(ch: Chain, table: seq<seq<int>>, base: nat, pools: Primes.Pools, r: nat, c: nat, r2: nat, c2: nat)
    requires Drawn(ch, table, base, pools) && r < |table| && c < |table[r]| && r2 < |table| && c2 < |table[r2]|
    requires r != r2 || c != c2
    ensures |ch.factors| == |table| && |ch.factors[r]| == |table[r]| && |ch.factors[r2]| == |table[r2]|
    ensures ch.factors[r][c] != ch.factors[r2][c2]
  {
    var t, at, at2 := Primes.Reordered(table, base), Primes.Place(base, r), Primes.Place(base, r2);
    Primes.ChainRow(table, base, pools, r, t, at);
    Primes.ChainRow(table, base, pools, r2, t, at2);
    if r != r2 { PlacesApart(base, r, r2); }
    if at < at2 || (at == at2 && c < c2) {
      Primes.FactorsAreDistinct(t, pools, at, c, at2, c2);
    } else {
      Primes.FactorsAreDistinct(t, pools, at2, c2, at, c);
    }
  }

  /** So the primes of a drawn chain meet the hypothesis under which the divisor of every drop is characterised. */
  lemma DrawnIsDistinct(ch: Chain, table: seq<seq<int>>, base: nat, pools: Primes.Pools)
    requires Drawn(ch, table, base, pools)
    ensures DropConfigs.DistinctPrimes(ch)
  {
    forall r: nat, c: nat | DropConfigs.HasColumn(ch, r, c)
      ensures ch.factors[r][c] > 1
    {
      RowWidth(ch, table, base, pools, r);
      ColumnPrime(ch, table, base, pools, r, c);
    }
    forall r: nat, c: nat, r2: nat, c2: nat |
      DropConfigs.HasColumn(ch, r, c) && DropConfigs.HasColumn(ch, r2, c2) && (r != r2 || c != c2)
      ensures ch.factors[r][c] != ch.factors[r2][c2]
    {
      RowWidth(ch, table, base, pools, r);
      RowWidth(ch, table, base, pools, r2);
      ColumnsDiffer(ch, table, base, pools, r, c, r2, c2);
    }
  }

  /** The pools hold primes, as the table of primes does. */
  ghost predicate PrimePools(pools: Primes.Pools) {
    forall bits :: bits in pools ==> PrimeDivisors.AllPrime(pools[bits])
  }

  /** And over pools of primes they meet the hypothesis under which this is so for any count. */
  lemma DrawnIsPrime(ch: Chain, table: seq<seq<int>>, base: nat, pools: Primes.Pools)
    requires Drawn(ch, table, base, pools) && PrimePools(pools)
    ensures PrimeDivisors.PrimeChain(ch)
  {
    DrawnIsDistinct(ch, table, base, pools);
    DrawnRows(ch, table, base, pools);
    forall r | 0 <= r < |ch.factors|
      ensures PrimeDivisors.AllPrime(ch.factors[r])
    {
      RowWidth(ch, table, base, pools, r);
      forall c | 0 <= c < |ch.factors[r]|
        ensures PrimeDivisors.Prime(ch.factors[r][c])
      {
        ColumnIsPrime(ch, table, base, pools, r, c);
      }
    }
  }

  lemma ColumnIsPrime(ch: Chain, table: seq<seq<int>>, base: nat, pools: Primes.Pools, r: nat, c: nat)
    requires Drawn(ch, table, base, pools) && PrimePools(pools) && r < |table| && c < |table[r]|
    ensures |ch.factors| == |table| && |ch.factors[r]| == |table[r]| && PrimeDivisors.Prime(ch.factors[r][c])
  {
    hide PrimeDivisors.Prime;
    var t, at := Primes.Reordered(table, base), Primes.Place(base, r);
    Primes.ChainRow(table, base, pools, r, t, at);
    Primes.FactorFromPool(t, pools, at, c);
    InPool(pools, Primes.Relative(table[r])[c], ch.factors[r][c]);
  }

  lemma InPool(pools: Primes.Pools, bits: int, p: nat)
    requires PrimePools(pools) && bits in pools && p in pools[bits]
    ensures PrimeDivisors.Prime(p)
  {
    hide PrimeDivisors.Prime;
    var i :| 0 <= i < |pools[bits]| && pools[bits][i] == p;
    assert PrimeDivisors.AllPrime(pools[bits]);
  }

  /** On every drawn chain whose sections cover the table, a drop of any number of live columns conserves the scale iff
      exactly k active rows precede its row in the chain. */
  lemma DrawnDropBalancesIff(ch: Chain, table: seq<seq<int>>, base: nat, pools: Primes.Pools, s: Meta, k: nat, n: nat,
          r: Meta)
    requires Drawn(ch, table, base, pools) && PrimePools(pools) && CoversTable(ch, table)
    requires Good(ch, s) && s.scale != 0.0 && k < |s.rows| && 1 <= n <= LiveCount(s.cols[k])
    ensures ValidChain(ch) && Formed(ch, s)
    ensures LevelTracing.Switched(ch, s, k, Some(n)) == Some(r) ==>
      (LevelTracing.Balanced(ch, s, 1.0, r) <==> DropConfigs.InPlace(s.rows, k))
  {
    DrawnIsValid(ch, table, base, pools);
    GoodIsFormed(ch, s);
    DrawnIsPrime(ch, table, base, pools);
    if LevelTracing.Switched(ch, s, k, Some(n)) == Some(r) { LevelTracing.CountBalancesIff(ch, s, k, n, r); }
  }

  // ----- the product that a drop computes in int64 -----

  lemma {:induction false} ProdIsProductFrom(primes: seq<nat>, c: nat)
    requires c <= |primes|
    ensures Prod(primes[c..]) == Primes.ProductFrom(primes, c)
    decreases |primes| - c
  {
    if c < |primes| {
      ProdIsProductFrom(primes, c + 1);
      assert primes[c..][0] == primes[c] && primes[c..][1..] == primes[c + 1..];
      TimesIs(primes[c], Prod(primes[c + 1..]));
    }
  }

  lemma FactorDivides(a: nat, b: nat, p: nat)
    requires p == a * b && b > 0
    ensures a <= p
  {}

  /** The product of the columns that a drop removes, in chain order, stays below 2^62 for rows of at most 62 bits. */
  lemma DropFitsInt64(ch: Chain, table: seq<seq<int>>, base: nat, pools: Primes.Pools, s: Meta, k: nat, n: nat)
    requires Drawn(ch, table, base, pools) && ValidChain(ch) && Good(ch, s) && k < |s.rows|
    requires 1 <= n <= LiveCount(s.cols[k])
    requires forall r :: 0 <= r < |table| ==> table[r] != [] && table[r][0] <= 62
    ensures DropFactor(ch, s, k, n) < 0x4000_0000_0000_0000
  {
    assert GoodRow(ch, s.rows, s.cols, k);
    var r, start := s.rows[k], Start(s.cols[k]);
    LiveSuffixCount(s.cols[k], |ch.factors[r]|);
    RowWidth(ch, table, base, pools, r);
    RowSuffixFits(ch, table, base, pools, r, start);
    assert ValidRow(ch, r);
    DropBelowSuffix(ch.factors[r], start, n);
  }

  /** And so does the divisor of every drop, for any rows, columns and count: whatever row is read, the int64 product
      cannot overflow. */
  lemma DivisorFitsInt64(ch: Chain, table: seq<seq<int>>, base: nat, pools: Primes.Pools, rows: seq<nat>,
          col: seq<bool>, k: nat, n: nat)
    requires Drawn(ch, table, base, pools) && ValidChain(ch) && |col| == ch.maxCols
    requires forall r :: 0 <= r < |table| ==> table[r] != [] && table[r][0] <= 62
    requires DropConfigs.Divisor(ch, rows, col, k, n).Some?
    ensures DropConfigs.Divisor(ch, rows, col, k, n).value < 0x4000_0000_0000_0000
  {
    hide *;
    var row := DropConfigs.DivisorAtMost(ch, rows, col, k, n);
    DrawnRows(ch, table, base, pools);
    RowWidth(ch, table, base, pools, row);
    RowSuffixFits(ch, table, base, pools, row, 0);
    assert ch.factors[row][0..] == ch.factors[row];
  }

  lemma DrawnRows(ch: Chain, table: seq<seq<int>>, base: nat, pools: Primes.Pools)
    requires Drawn(ch, table, base, pools)
    ensures |ch.factors| == |table|
  {}

  lemma DropBelowSuffix(primes: seq<nat>, start: nat, n: nat)
    requires start + n <= |primes| && Positive(primes)
    ensures Prod(primes[start..start + n]) <= Prod(primes[start..])
  {
    RowDrop(primes, start, n);
    ProdPositive(primes[start + n..]);
    FactorDivides(Prod(primes[start..start + n]), Prod(primes[start + n..]), Prod(primes[start..]));
  }

  lemma RowSuffixFits(ch: Chain, table: seq<seq<int>>, base: nat, pools: Primes.Pools, r: nat, c: nat)
    requires Drawn(ch, table, base, pools) && r < |table| && c < |table[r]| && table[r][0] <= 62
    ensures |ch.factors| == |table| && |ch.factors[r]| == |table[r]|
    ensures Prod(ch.factors[r][c..]) < 0x4000_0000_0000_0000
  {
    var t, at := Primes.Reordered(table, base), Primes.Place(base, r);
    Primes.ChainRow(table, base, pools, r, t, at);
    Primes.ReorderedIsGood(table, base);
    Primes.FitsInt64(t, pools, at, c);
    ProdIsProductFrom(ch.factors[r], c);
  }
}
