/**
 The bootstrap chain's DFT levels and the split of the FFT stages over them (`bootstrapping_params.py`): a chain is
 built for a set of slot counts with the deepest split and the widest prime among them, and each bootstrap later asks
 it for a split of its own number of stages.
 */
module BootstrapChain {
  import opened Wrappers

  /** The StC split and the least CtS prime size, by log2 of the slot count. */
  datatype Entry = Entry(split: seq<nat>, ctsBits: nat)

  function EntryFor(logSlots: nat): Option<Entry> {
    match logSlots
    case 5 => Some(Entry([5], 55))
    case 6 => Some(Entry([3, 3], 44))
    case 7 => Some(Entry([3, 4], 45))
    case 8 => Some(Entry([3, 5], 46))
    case 9 => Some(Entry([4, 5], 47))
    case 10 => Some(Entry([3, 3, 4], 45))
    case 11 => Some(Entry([3, 3, 5], 46))
    case 12 => Some(Entry([3, 3, 3, 3], 45))
    case 13 => Some(Entry([3, 3, 3, 4], 46))
    case 14 => Some(Entry([3, 3, 3, 5], 47))
    case 15 => Some(Entry([3, 3, 4, 5], 47))
    case _ => None
  }

  datatype Chain = Chain(slim: bool, dftLevels: nat, ctsScale: nat)

  function Max(a: nat, b: nat): nat { if a >= b then a else b }

  /** `for_slot_counts`: the deepest split and the widest CtS prime; None where it raises. */
  function ForSlotCounts(slim: bool, logs: seq<nat>): Option<Chain> {
    if logs == [] then None
    else
      var e := EntryFor(logs[0]);
      if e.None? then None
      else if |logs| == 1 then Some(Chain(slim, |e.value.split|, e.value.ctsBits))
      else
        var rest := ForSlotCounts(slim, logs[1..]);
        if rest.None? then None
        else Some(Chain(slim, Max(|e.value.split|, rest.value.dftLevels), Max(e.value.ctsBits, rest.value.ctsScale)))
  }

  /** `dft_split`; None where it raises. */
  function DftSplit(chain: Chain, logSlots: nat): Option<seq<nat>> {
    if !chain.slim then
      var e := EntryFor(logSlots);
      if e.None? || |e.value.split| > chain.dftLevels || e.value.ctsBits > chain.ctsScale then None
      else Some(e.value.split)
    else if !(1 <= chain.dftLevels <= logSlots) then None
    else
      var q, r := logSlots / chain.dftLevels, logSlots % chain.dftLevels;
      Some(seq(r, i => q + 1) + seq(chain.dftLevels - r, i => q))
  }

  function Sum(s: seq<nat>): nat {
    if s == [] then 0 else s[0] + Sum(s[1..])
  }

  lemma {:induction false} SumRepeat(x: nat, n: nat, rest: seq<nat>)
    ensures Sum(seq(n, i => x) + rest) == n * x + Sum(rest)
  {
    var t := seq(n, i => x) + rest;
    if n == 0 {
      assert t == rest;
    } else {
      SumRepeat(x, n - 1, rest);
      assert t[1..] == seq(n - 1, i => x) + rest;
    }
  }

  lemma {:induction false} ChainFits(slim: bool, logs: seq<nat>, logSlots: nat)
    requires ForSlotCounts(slim, logs).Some? && logSlots in logs
    ensures var c := ForSlotCounts(slim, logs).value;
      EntryFor(logSlots).Some? && c.slim == slim && 1 <= c.dftLevels <= 4 &&
      |EntryFor(logSlots).value.split| <= c.dftLevels && EntryFor(logSlots).value.ctsBits <= c.ctsScale
  {
    if |logs| > 1 {
      ChainFits(slim, logs[1..], logs[1]);
      if logSlots != logs[0] {
        assert logSlots in logs[1..];
        ChainFits(slim, logs[1..], logSlots);
      }
    }
  }

  /** The chain is built iff every slot count has an entry; its levels and the width of its CtS primes are then the
      largest of these entries, and no larger. */
  lemma {:induction false} ChainMaxima(slim: bool, logs: seq<nat>)
    ensures ForSlotCounts(slim, logs).Some? <==> logs != [] && forall l :: l in logs ==> EntryFor(l).Some?
    ensures ForSlotCounts(slim, logs).Some? ==>
      var c := ForSlotCounts(slim, logs).value;
      (forall l :: l in logs ==> |EntryFor(l).value.split| <= c.dftLevels && EntryFor(l).value.ctsBits <= c.ctsScale) &&
      (exists l :: l in logs && |EntryFor(l).value.split| == c.dftLevels) &&
      exists l :: l in logs && EntryFor(l).value.ctsBits == c.ctsScale
  {
    hide EntryFor;
    if logs != [] {
      assert logs == [logs[0]] + logs[1..] && logs[0] in logs;
      if |logs| > 1 { ChainMaxima(slim, logs[1..]); }
    }
  }

  /** A chain built for a set of slot counts never refuses one of them: the split covers exactly the log2 of the slot
      count in FFT stages and uses no more levels than the chain has. */
  lemma SplitCoversStages(slim: bool, logs: seq<nat>, logSlots: nat)
    requires ForSlotCounts(slim, logs).Some? && logSlots in logs
    ensures var c := ForSlotCounts(slim, logs).value;
      DftSplit(c, logSlots).Some? && Sum(DftSplit(c, logSlots).value) == logSlots &&
        |DftSplit(c, logSlots).value| <= c.dftLevels
  {
    ChainFits(slim, logs, logSlots);
    EntrySum(logSlots);
    if slim { SlimSplit(ForSlotCounts(slim, logs).value, logSlots); }
  }

  lemma EntrySum(logSlots: nat)
    requires EntryFor(logSlots).Some?
    ensures Sum(EntryFor(logSlots).value.split) == logSlots >= 5
  {
    var s := EntryFor(logSlots).value.split;
    assert |s| <= 4 && (|s| > 1 ==> s[1..] != []) && (|s| > 2 ==> s[1..][1..] == s[2..]) &&
      (|s| > 3 ==> s[2..][1..] == [s[3]]);
  }

  /** A slim split shares the stages out as evenly as the levels allow, the longer parts first. */
  lemma SlimSplit(c: Chain, logSlots: nat)
    requires c.slim && 1 <= c.dftLevels <= logSlots
    ensures DftSplit(c, logSlots).Some? && Sum(DftSplit(c, logSlots).value) == logSlots
    ensures |DftSplit(c, logSlots).value| == c.dftLevels
    ensures forall i :: 0 <= i < c.dftLevels ==>
      logSlots / c.dftLevels <= DftSplit(c, logSlots).value[i] <= logSlots / c.dftLevels + 1
    ensures forall i, j :: 0 <= i < j < c.dftLevels ==>
      DftSplit(c, logSlots).value[i] >= DftSplit(c, logSlots).value[j]
  {
    var n := c.dftLevels;
    var q, r := logSlots / n, logSlots % n;
    SlimSum(q, r, n);
    assert logSlots == n * q + r;
  }

  lemma SlimSum(q: nat, r: nat, n: nat)
    requires r <= n
    ensures Sum(seq(r, i => q + 1) + seq(n - r, i => q)) == n * q + r
  {
    var low := seq(n - r, i => q);
    SumRepeat(q + 1, r, low);
    SumRepeat(q, n - r, []);
    assert low + [] == low;
    Spread(q, r, n);
  }

  lemma Spread(q: nat, r: nat, n: nat)
    requires r <= n
    ensures r * (q + 1) + (n - r) * q == n * q + r
  {}
}
