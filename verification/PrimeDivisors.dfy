/**
 Which drops divide by the primes they remove, for any count: a prime divides a product of primes iff it is one of them.
 */
module PrimeDivisors {
  import opened Wrappers
  import opened ModulusChain
  import opened DropConfigs

  predicate Prime(p: nat) { p >= 2 && forall d :: 2 <= d < p ==> p % d != 0 }

  ghost predicate Divides(p: nat, n: nat) { exists t: nat :: n == p * t }

  // ----- Euclid's lemma -----

  lemma Remainder(p: nat, a: nat, b: nat, t: nat, q: nat, r: nat)
    requires a * b == p * t && p == q * a + r
    ensures r * b == p * (b - q * t)
  {
    assert (q * a + r) * b == q * (a * b) + r * b;
    assert q * (p * t) == p * (q * t);
  }

  /** A factor below the prime leaves the divisibility to the other one. */
  lemma {:induction false} EuclidBelow(p: nat, a: nat, b: nat, t: nat)
    requires Prime(p) && 0 < a < p && a * b == p * t
    ensures Divides(p, b)
    decreases a
  {
    if a == 1 {
      assert b == p * t;
    } else {
      var q, r := p / a, p % a;
      Remainder(p, a, b, t, q, r);
      NotNegative(p, r, b, b - q * t);
      EuclidBelow(p, r, b, b - q * t);
    }
  }

  lemma NotNegative(p: nat, r: nat, b: nat, x: int)
    requires p > 0 && r * b == p * x
    ensures x >= 0
  {
    assert 0 <= r * b;
    SignOfFactor(p, x);
  }

  lemma SignOfFactor(p: nat, x: int)
    requires p > 0
    ensures x < 0 <==> p * x < 0
  {
  }

  /** A prime that divides a product of two numbers divides one of them. */
  lemma Euclid(p: nat, a: nat, b: nat)
    requires Prime(p) && Divides(p, a * b)
    ensures Divides(p, a) || Divides(p, b)
  {
    var t: nat :| a * b == p * t;
    var q, r := a / p, a % p;
    assert a == p * q + r;
    if r == 0 {
      assert a == p * q;
    } else {
      ReducedProduct(p, a, b, t, q, r);
      NotNegative(p, r, b, t - q * b);
      EuclidBelow(p, r, b, t - q * b);
    }
  }

  lemma ReducedProduct(p: nat, a: nat, b: nat, t: nat, q: nat, r: nat)
    requires a * b == p * t && a == p * q + r
    ensures r * b == p * (t - q * b)
  {
    assert (p * q + r) * b == p * (q * b) + r * b;
  }

  lemma PrimeDividesPrime(p: nat, q: nat)
    requires Prime(p) && Prime(q) && Divides(p, q)
    ensures p == q
  {
    var t: nat :| q == p * t;
    if p != q {
      assert t >= 1;
      assert p <= q;
      MultipleHasNoRemainder(p, t, q);
    }
  }

  lemma MultipleHasNoRemainder(p: nat, t: nat, q: nat)
    requires p > 0 && q == p * t
    ensures q % p == 0
  {
    var r, u := q % p, q / p;
    assert q == p * u + r;
    assert p * (t - u) == r;
    SmallMultiple(p, t - u);
  }

  lemma SmallMultiple(p: int, x: int)
    requires p > 0
    ensures -p < p * x < p ==> x == 0
  {
    if x >= 1 {
      assert p * x >= p;
    } else if x <= -1 {
      assert p * x <= -p;
    }
  }

  lemma NotAUnit(p: nat)
    requires Prime(p)
    ensures !Divides(p, 1)
  {
    forall t: nat
      ensures 1 != p * t
    {
      NotOne(p, t);
    }
  }

  lemma NotOne(p: nat, t: nat)
    requires p >= 2
    ensures p * t != 1
  {
    if t >= 1 { assert p * t >= p; }
  }

  // ----- products that a drop divides by -----

  predicate AllPrime(s: seq<nat>) { forall i :: 0 <= i < |s| ==> Prime(s[i]) }

  /** A prime that divides the product of the live primes of a row is in that row. */
  lemma {:induction false} InProdLive(p: nat, primes: seq<nat>, col: seq<bool>)
    requires |primes| <= |col| && Prime(p) && AllPrime(primes) && Divides(p, ProdLive(primes, col))
    ensures p in primes
  {
    if primes == [] {
      NotAUnit(p);
    } else if col[0] {
      TimesIs(primes[0], ProdLive(primes[1..], col[1..]));
      Euclid(p, primes[0], ProdLive(primes[1..], col[1..]));
      if Divides(p, primes[0]) {
        PrimeDividesPrime(p, primes[0]);
      } else {
        InProdLive(p, primes[1..], col[1..]);
      }
    } else {
      InProdLive(p, primes[1..], col[1..]);
    }
  }

  lemma {:induction false} InProdAt(p: nat, primes: seq<nat>, cols: seq<nat>)
    requires (forall i :: 0 <= i < |cols| ==> cols[i] < |primes|) && Prime(p) && AllPrime(primes)
    requires Divides(p, ProdAt(primes, cols))
    ensures p in primes
  {
    if cols == [] {
      NotAUnit(p);
    } else {
      TimesIs(primes[cols[0]], ProdAt(primes, cols[1..]));
      Euclid(p, primes[cols[0]], ProdAt(primes, cols[1..]));
      if Divides(p, primes[cols[0]]) {
        PrimeDividesPrime(p, primes[cols[0]]);
      } else {
        InProdAt(p, primes, cols[1..]);
      }
    }
  }

  /** Every number of the chain is prime, and none occurs twice. */
  ghost predicate PrimeChain(ch: Chain) {
    DistinctPrimes(ch) && forall r :: 0 <= r < |ch.factors| ==> AllPrime(ch.factors[r])
  }

  /** A prime that divides the divisor of a drop stands in the row that was read. */
  lemma InDivisor(ch: Chain, rows: seq<nat>, col: seq<bool>, k: nat, n: nat, p: nat) returns (row: nat)
    requires ValidChain(ch) && PrimeChain(ch) && |col| == ch.maxCols && Prime(p)
    requires Divisor(ch, rows, col, k, n).Some? && Divides(p, Divisor(ch, rows, col, k, n).value)
    ensures AscendingRow(rows, k, 0, |ch.factors|) == Some(row) && row < |ch.factors| && p in ch.factors[row]
  {
    row := AscendingRow(rows, k, 0, |ch.factors|).value;
    assert ValidRow(ch, row);
    if LiveCount(col) == n {
      InProdLive(p, ch.factors[row], col);
    } else {
      InProdAt(p, ch.factors[row], Collected(col, n));
    }
  }

  /** The first prime that a drop removes divides what it should divide by. */
  lemma FirstRemoved(ch: Chain, s: Meta, k: nat, n: nat) returns (p: nat, c: nat)
    requires ValidChain(ch) && PrimeChain(ch) && Good(ch, s) && k < |s.rows| && 1 <= n <= LiveCount(s.cols[k])
    ensures HasColumn(ch, s.rows[k], c) && p == ch.factors[s.rows[k]][c] && Prime(p)
    ensures Divides(p, DropFactor(ch, s, k, n))
  {
    FactorOf(ch, s, k, n);
    c := Start(s.cols[k]);
    var primes := ch.factors[s.rows[k]];
    p := primes[c];
    assert primes[c..c + n][0] == p;
    TimesIs(p, Prod(primes[c..c + n][1..]));
  }

  lemma SamePlace(ch: Chain, r: nat, c: nat, r2: nat)
    requires PrimeChain(ch) && HasColumn(ch, r, c) && r2 < |ch.factors| && ch.factors[r][c] in ch.factors[r2]
    ensures r == r2
  {
    var c2: nat :| c2 < |ch.factors[r2]| && ch.factors[r2][c2] == ch.factors[r][c];
    assert HasColumn(ch, r2, c2);
  }

  /** Over a chain of distinct primes, a drop of any number of live columns divides by exactly the primes that it
      removes iff exactly k active rows precede its row in the chain. */
  lemma RightDivisorOfCountIff(ch: Chain, s: Meta, k: nat, n: nat)
    requires ValidChain(ch) && PrimeChain(ch) && Good(ch, s) && k < |s.rows| && 1 <= n <= LiveCount(s.cols[k])
    requires |s.cols[k]| == ch.maxCols
    ensures Divisor(ch, s.rows, s.cols[k], k, n) == Some(DropFactor(ch, s, k, n)) <==> InPlace(s.rows, k)
  {
    if InPlace(s.rows, k) {
      DivisorInPlace(ch, s, k, n);
    } else if Divisor(ch, s.rows, s.cols[k], k, n) == Some(DropFactor(ch, s, k, n)) {
      var p, c := FirstRemoved(ch, s, k, n);
      var row := InDivisor(ch, s.rows, s.cols[k], k, n, p);
      SamePlace(ch, s.rows[k], c, row);
      RightRowIff(ch, s.rows, k);
    }
  }

  /** So on a ciphertext with a non-zero scale the new scale is the old one over the removed primes under the same
      condition. */
  lemma RightScaleOfCountIff(ch: Chain, s: Meta, k: nat, n: nat, r: Meta)
    requires ValidChain(ch) && PrimeChain(ch) && Good(ch, s) && Formed(ch, s) && k < |s.rows|
    requires 1 <= n <= LiveCount(s.cols[k]) && s.scale != 0.0 && DropAt(ch, s, k, n) == Some(r)
    ensures r.scale == s.scale / DropFactor(ch, s, k, n) as real <==> InPlace(s.rows, k)
  {
    hide Divisor, PrimeChain, InPlace;
    assert FormedRow(ch, s.rows[k], s.cols[k]);
    RightDivisorOfCountIff(ch, s, k, n);
    var d, f := Divisor(ch, s.rows, s.cols[k], k, n).value, DropFactor(ch, s, k, n);
    assert r.scale == s.scale / d as real;
    SameQuotientIff(s.scale, d as real, f as real);
  }

  /** On a fresh ciphertext of a slim bootstrap, a drop of any number of live columns divides by the primes it removes
      iff it drops from a pipeline row. */
  lemma SlimDropsOfCount(ch: Chain, numInit: nat, s: Meta, k: nat, n: nat)
    requires ValidChain(ch) && PrimeChain(ch) && numInit <= ch.layout.pipeline
    requires ch.layout.base == 1 && ch.layout.stc > 0
    requires Good(ch, s) && s.rows == SlimRows(ch, numInit) && k < |s.rows| && 1 <= n <= LiveCount(s.cols[k])
    ensures |s.cols[k]| == ch.maxCols
    ensures Divisor(ch, s.rows, s.cols[k], k, n) == Some(DropFactor(ch, s, k, n)) <==> k < numInit
  {
    assert GoodRow(ch, s.rows, s.cols, k);
    SlimRank(ch, numInit, k);
    RightDivisorOfCountIff(ch, s, k, n);
  }
}
