/**
 Natural-number bit arithmetic for the slot indices of the sorting network: powers of two, bitwise and and xor by
 recursion on halves, shifts as block numbers, and the partner position that differs in one bit. Division facts that
 the solver does not find are stated as lemmas with named quotients.
 */
module Bits {

  function Pow2(e: nat): (p: nat)
    ensures p >= 1
  {
    if e == 0 then 1 else 2 * Pow2(e - 1)
  }

  /** Bitwise `a & b`. */
  function And(a: nat, b: nat): nat {
    if a == 0 || b == 0 then 0
    else (if a % 2 == 1 && b % 2 == 1 then 1 else 0) + 2 * And(a / 2, b / 2)
  }

  /** Bitwise `a ^ b`. */
  function Xor(a: nat, b: nat): nat
    decreases a + b
  {
    if a == 0 then b else if b == 0 then a else (a + b) % 2 + 2 * Xor(a / 2, b / 2)
  }

  /** `p >> e`: the number of the 2^e-sized block that holds position p. */
  function Block(p: nat, e: nat): (b: nat)
    ensures b <= p
  {
    if e == 0 then p else Block(p / 2, e - 1)
  }

  /** Bit e of p is clear. */
  predicate Low(p: nat, e: nat) {
    Block(p, e) % 2 == 0
  }

  /** The position that differs from p in bit e only. */
  function Partner(p: nat, e: nat): int {
    if Low(p, e) then p + Pow2(e) else p - Pow2(e)
  }

  lemma {:induction false} Pow2Monotone(a: nat, b: nat)
    requires a <= b
    ensures Pow2(a) <= Pow2(b)
    ensures a < b ==> Pow2(a) < Pow2(b)
    decreases b
  {
    if a < b { Pow2Monotone(a, b - 1); }
  }

  /** A bigger block is a block of smaller blocks. */
  lemma {:induction false} BlockOfBlock(p: nat, e: nat, f: nat)
    requires e <= f
    ensures Block(p, f) == Block(Block(p, e), f - e)
    decreases e
  {
    if e > 0 { BlockOfBlock(p / 2, e - 1, f - 1); }
  }

  /** `i & 2^e == 0` says that bit e of i is clear. */
  lemma {:induction false} AndIsBit(i: nat, e: nat)
    ensures And(i, Pow2(e)) == 0 <==> Low(i, e)
    decreases e
  {
    if e > 0 {
      AndIsBit(i / 2, e - 1);
    } else {
      assert And(i / 2, 0) == 0;
    }
  }

  lemma XorHalves(i: nat, h: nat, w: nat)
    requires i > 0 && h > 0 && w == 2 * h
    ensures Xor(i, w) == i % 2 + 2 * Xor(i / 2, h)
  {
    assert (i + w) % 2 == i % 2 && w / 2 == h;
  }

  lemma PartnerHalves(i: nat, e: nat)
    requires e > 0
    ensures Partner(i, e) == i % 2 + 2 * Partner(i / 2, e - 1)
  {}

  /** `i ^ 2^e` is the partner position. */
  lemma {:induction false} XorIsPartner(i: nat, e: nat)
    ensures Xor(i, Pow2(e)) == Partner(i, e)
    decreases e
  {
    if e == 0 {
      assert Xor(i / 2, 0) == i / 2;
    } else if i > 0 {
      XorIsPartner(i / 2, e - 1);
      XorHalves(i, Pow2(e - 1), Pow2(e));
      PartnerHalves(i, e);
    }
  }

  /** Moving by one block changes the block number by one. */
  lemma {:induction false} NextBlock(p: nat, e: nat)
    ensures Block(p + Pow2(e), e) == Block(p, e) + 1
    ensures p >= Pow2(e) ==> Block(p - Pow2(e), e) == Block(p, e) - 1
    ensures Block(p, e) >= 1 <==> p >= Pow2(e)
    decreases e
  {
    if e > 0 {
      NextBlock(p / 2, e - 1);
      assert (p + Pow2(e)) / 2 == p / 2 + Pow2(e - 1);
    }
  }

  /** The partner shares the pair's double block, has the opposite bit, and pairs back. */
  lemma PartnerFacts(p: nat, e: nat)
    ensures Partner(p, e) >= 0
    ensures Low(Partner(p, e), e) == !Low(p, e)
    ensures Partner(Partner(p, e), e) == p
    ensures Block(Partner(p, e), e + 1) == Block(p, e + 1)
  {
    NextBlock(p, e);
    BlockOfBlock(p, e, e + 1);
    BlockOfBlock(Partner(p, e), e, e + 1);
  }

  /** Positions that agree on a block agree on every bigger block. */
  lemma SameBlockUp(p: nat, q: nat, e: nat, f: nat)
    requires e <= f && Block(p, e) == Block(q, e)
    ensures Block(p, f) == Block(q, f)
  {
    BlockOfBlock(p, e, f);
    BlockOfBlock(q, e, f);
  }

  lemma {:induction false} BlockMonotone(p: nat, q: nat, e: nat)
    requires p <= q
    ensures Block(p, e) <= Block(q, e)
    decreases e
  {
    if e > 0 { BlockMonotone(p / 2, q / 2, e - 1); }
  }

  /** Inside a power-of-two range the partner stays inside. */
  lemma PartnerInRange(p: nat, e: nat, m: nat)
    requires e < m && p < Pow2(m)
    ensures 0 <= Partner(p, e) < Pow2(m)
  {
    PartnerFacts(p, e);
    SameBlockUp(p, Partner(p, e), e + 1, m);
    NextBlock(p, m);
    NextBlock(Partner(p, e), m);
  }

  lemma MultipleBound(d: int, x: int)
    requires d > 0
    ensures x >= 1 ==> d * x >= d
    ensures x <= -1 ==> d * x <= -d
  {
    if x >= 1 {
      assert d * x >= d * 1;
    } else if x <= -1 {
      assert d * x <= d * -1;
    }
  }

  lemma QuotientUnique(p: nat, d: nat, q: int, r: int)
    requires d > 0 && 0 <= r < d && p == d * q + r
    ensures p / d == q && p % d == r
  {
    var q2, r2 := p / d, p % d;
    assert p == d * q2 + r2;
    assert d * (q - q2) == d * q - d * q2;
    MultipleBound(d, q - q2);
  }

  lemma NextMod(i: nat, period: nat)
    requires period > 0
    ensures (i + 1) % period == if i % period + 1 == period then 0 else i % period + 1
  {
    var q, s := i / period, i % period;
    assert i == period * q + s;
    if s + 1 == period {
      assert i + 1 == period * (q + 1);
      QuotientUnique(i + 1, period, q + 1, 0);
    } else {
      QuotientUnique(i + 1, period, q, s + 1);
    }
  }
}
