/**
 The drop of one row or of some columns as `_get_drop_config_for_x_levels_in_a_given_row` and `apply_drop_config`
 compute it, for any rows and any count. The divisor is read by position among the active rows in chain order, which
 is the row that is dropped under an exact condition.
 */
module DropConfigs {
  import opened Wrappers
  import opened ModulusChain

  /** A drop as `_get_drop_row_config` (no columns) or `_get_drop_cols_config` describes it. */
  datatype Config = Config(row: nat, cols: Option<seq<nat>>, scaleDown: nat)

  // ----- the columns of a drop -----

  /** The live columns from an index on. */
  function LiveCols(col: seq<bool>, from: nat): (r: seq<nat>)
    ensures forall i :: 0 <= i < |r| ==> from <= r[i] < |col| && col[r[i]]
    decreases |col| - from
  {
    if from >= |col| then [] else (if col[from] then [from] else []) + LiveCols(col, from + 1)
  }

  /** What the column loop collects: the first n live columns, or all if fewer are live. The loop tests its stop after a
      column, so a count of 0 stops at once if the first column is dead and never otherwise. */
  function Collected(col: seq<bool>, n: nat): (r: seq<nat>)
    ensures forall i :: 0 <= i < |r| ==> r[i] < |col|
  {
    var live := LiveCols(col, 0);
    if n == 0 then (if col != [] && col[0] then live else [])
    else if n <= |live| then live[..n]
    else live
  }

  lemma LiveColsStep(col: seq<bool>, i: nat, drop: seq<nat>)
    requires i < |col|
    ensures drop + LiveCols(col, i) == (if col[i] then drop + [i] else drop) + LiveCols(col, i + 1)
  {
    if col[i] { assert drop + ([i] + LiveCols(col, i + 1)) == (drop + [i]) + LiveCols(col, i + 1); }
  }

  /** The list is what the loop collects if it was left with n columns, or after the last column. */
  lemma CollectedPrefix(col: seq<bool>, n: nat, drop: seq<nat>, rest: seq<nat>)
    requires drop + rest == LiveCols(col, 0)
    requires n == 0 ==> drop == if col != [] && col[0] then LiveCols(col, 0) else []
    requires n > 0 ==> |drop| == n || (|drop| < n && rest == [])
    ensures Collected(col, n) == drop
  {}

  /** The whole row (None) iff the count is the number of live columns. */
  function ColsOf(col: seq<bool>, n: nat): Option<seq<nat>> {
    if LiveCount(col) == n then None else Some(Collected(col, n))
  }

  lemma {:induction false} NoLiveCols(col: seq<bool>, from: nat)
    requires forall c :: from <= c < |col| ==> !col[c]
    ensures LiveCols(col, from) == []
    decreases |col| - from
  {
    if from < |col| { NoLiveCols(col, from + 1); }
  }

  lemma {:induction false} AllLiveCols(col: seq<bool>, from: nat, width: nat)
    requires from <= width <= |col| && forall c :: from <= c < |col| ==> (col[c] <==> c < width)
    ensures LiveCols(col, from) == Range(from, width - from)
    decreases width - from
  {
    if from < width { AllLiveCols(col, from + 1, width); } else { NoLiveCols(col, from); }
  }

  lemma {:induction false} SkipDeadCols(col: seq<bool>, from: nat, first: nat)
    requires from <= first <= |col| && forall c :: from <= c < first ==> !col[c]
    ensures LiveCols(col, from) == LiveCols(col, first)
    decreases first - from
  {
    if from < first { SkipDeadCols(col, from + 1, first); }
  }

  lemma LiveColsOfSuffix(col: seq<bool>, width: nat)
    requires LiveSuffix(col, width)
    ensures LiveCols(col, 0) == Range(Start(col), LiveCount(col))
  {
    LiveSuffixCount(col, width);
    SkipDeadCols(col, 0, Start(col));
    AllLiveCols(col, Start(col), width);
  }

  lemma CollectedOfSuffix(col: seq<bool>, width: nat, n: nat)
    requires LiveSuffix(col, width)
    ensures 1 <= n <= LiveCount(col) ==> Collected(col, n) == Range(Start(col), n)
    ensures n > LiveCount(col) ==> Collected(col, n) == LiveCols(col, 0)
    ensures n == 0 ==> Collected(col, n) == if col[0] then LiveCols(col, 0) else []
    ensures LiveCols(col, 0) == Range(Start(col), LiveCount(col))
  {
    LiveColsOfSuffix(col, width);
    if 1 <= n <= LiveCount(col) { assert Range(Start(col), LiveCount(col))[..n] == Range(Start(col), n); }
  }

  // ----- the divisor of a drop -----

  /** `[row for row in range(...) if row in active_rows][k]`: the k-th smallest active row from `from` up. */
  function AscendingRow(rows: seq<nat>, k: nat, from: nat, limit: nat): (r: Option<nat>)
    ensures r.Some? ==> r.value < limit
    decreases limit - from
  {
    if from >= limit then None
    else if from !in rows then AscendingRow(rows, k, from + 1, limit)
    else if k == 0 then Some(from)
    else AscendingRow(rows, k - 1, from + 1, limit)
  }

  /** How many active rows lie in [from, row). */
  function Below(rows: seq<nat>, row: nat, from: nat): nat
    decreases if row > from then row - from else 0
  {
    if from >= row then 0 else (if from in rows then 1 else 0) + Below(rows, row, from + 1)
  }

  lemma {:induction false} AscendingRowFrom(rows: seq<nat>, k: nat, row: nat, from: nat, limit: nat)
    requires row in rows && from <= row < limit
    ensures AscendingRow(rows, k, from, limit) == Some(row) <==> Below(rows, row, from) == k
    decreases limit - from
  {
    if from < row {
      if from in rows {
        if k > 0 { AscendingRowFrom(rows, k - 1, row, from + 1, limit); }
      } else {
        AscendingRowFrom(rows, k, row, from + 1, limit);
      }
    } else if k > 0 {
      LaterRows(rows, k - 1, from + 1, limit);
    }
  }

  lemma {:induction false} LaterRows(rows: seq<nat>, k: nat, from: nat, limit: nat)
    ensures AscendingRow(rows, k, from, limit).Some? ==> AscendingRow(rows, k, from, limit).value >= from
    decreases limit - from
  {
    if from < limit {
      if from in rows {
        if k > 0 { LaterRows(rows, k - 1, from + 1, limit); }
      } else {
        LaterRows(rows, k, from + 1, limit);
      }
    }
  }

  /** A drop at relative index k reads the primes of the row it removes iff exactly k active rows lie below that row in
      the chain. */
  lemma RightRowIff(ch: Chain, rows: seq<nat>, k: nat)
    requires k < |rows| && rows[k] < |ch.factors|
    ensures AscendingRow(rows, k, 0, |ch.factors|) == Some(rows[k]) <==> Below(rows, rows[k], 0) == k
  {
    AscendingRowFrom(rows, k, rows[k], 0, |ch.factors|);
  }

  lemma {:induction false} BelowAscending(rows: seq<nat>, k: nat, from: nat, j: nat)
    requires Ascending(rows) && j <= k < |rows| && from <= rows[k]
    requires (j > 0 ==> rows[j - 1] < from) && rows[j] >= from
    ensures Below(rows, rows[k], from) == k - j
    decreases rows[k] - from
  {
    if j < k { assert rows[j] < rows[k]; }
    if from < rows[k] {
      if from == rows[j] {
        BelowAscending(rows, k, from + 1, j + 1);
      } else {
        forall i | 0 <= i < |rows|
          ensures rows[i] != from
        {
          if i < j - 1 { assert rows[i] < rows[j - 1]; }
          if i > j { assert rows[j] < rows[i]; }
        }
        BelowAscending(rows, k, from + 1, j);
      }
    }
  }

  lemma AscendingRowsAreRight(ch: Chain, rows: seq<nat>, k: nat)
    requires Ascending(rows) && k < |rows| && rows[k] < |ch.factors|
    ensures AscendingRow(rows, k, 0, |ch.factors|) == Some(rows[k])
  {
    assert k > 0 ==> rows[0] < rows[k];
    BelowAscending(rows, k, 0, 0);
    RightRowIff(ch, rows, k);
  }

  lemma BelowNone(rows: seq<nat>, row: nat, from: nat)
    requires forall r :: r in rows ==> r < from || r >= row
    ensures Below(rows, row, from) == 0
    decreases if row > from then row - from else 0
  {}

  lemma {:induction false} BelowSplit(rows: seq<nat>, row: nat, from: nat, mid: nat)
    requires from <= mid <= row
    ensures Below(rows, row, from) == Below(rows, mid, from) + Below(rows, row, mid)
    decreases mid - from
  {
    if from < mid { BelowSplit(rows, row, from + 1, mid); }
  }

  lemma {:induction false} BelowAll(rows: seq<nat>, row: nat, from: nat)
    requires from <= row && forall r :: from <= r < row ==> r in rows
    ensures Below(rows, row, from) == row - from
    decreases row - from
  {
    if from < row { BelowAll(rows, row, from + 1); }
  }

  /** `torch.tensor(primes)[cols].prod()`. */
  function ProdAt(primes: seq<nat>, cols: seq<nat>): nat
    requires forall i :: 0 <= i < |cols| ==> cols[i] < |primes|
  {
    if cols == [] then 1 else Times(primes[cols[0]], ProdAt(primes, cols[1..]))
  }

  lemma {:induction false} ProdAtRange(primes: seq<nat>, start: nat, n: nat)
    requires start + n <= |primes|
    ensures ProdAt(primes, Range(start, n)) == Prod(primes[start..start + n])
    decreases n
  {
    if n > 0 {
      ProdAtRange(primes, start + 1, n - 1);
      assert Range(start, n)[1..] == Range(start + 1, n - 1);
      assert primes[start..start + n][1..] == primes[start + 1..start + n];
    }
  }

  lemma ProdAtOne(primes: seq<nat>, cols: seq<nat>)
    requires |cols| == 1 && cols[0] < |primes|
    ensures ProdAt(primes, cols) == primes[cols[0]]
  {
    TimesIs(primes[cols[0]], 1);
    assert cols[1..] == [];
  }

  lemma {:induction false} ProdAtPositive(primes: seq<nat>, cols: seq<nat>)
    requires Positive(primes) && forall i :: 0 <= i < |cols| ==> cols[i] < |primes|
    ensures ProdAt(primes, cols) > 0
  {
    if cols != [] {
      ProdAtPositive(primes, cols[1..]);
      TimesIs(primes[cols[0]], ProdAt(primes, cols[1..]));
    }
  }

  /** Product of the primes whose column is live. */
  function ProdLive(primes: seq<nat>, col: seq<bool>): nat
    requires |primes| <= |col|
  {
    if primes == [] then 1
    else if col[0] then Times(primes[0], ProdLive(primes[1..], col[1..]))
    else ProdLive(primes[1..], col[1..])
  }

  lemma {:induction false} ProdLiveSuffix(primes: seq<nat>, col: seq<bool>)
    requires |primes| <= |col| && Start(col) <= |primes| && forall c :: Start(col) <= c < |primes| ==> col[c]
    ensures ProdLive(primes, col) == Prod(primes[Start(col)..])
  {
    if primes != [] {
      var rest := col[1..];
      assert Start(col) == if col[0] then 0 else 1 + Start(rest);
      if col[0] {
        assert primes[0..] == primes;
        if |primes| > 1 { assert rest[0]; }
        assert |primes| > 1 ==> Start(rest) == 0;
        if |primes| > 1 {
          ProdLiveSuffix(primes[1..], rest);
          assert primes[1..][0..] == primes[1..];
        }
      } else {
        ProdLiveSuffix(primes[1..], rest);
        assert primes[1..][Start(rest)..] == primes[Start(col)..];
      }
    }
  }

  lemma {:induction false} ProdLivePositive(primes: seq<nat>, col: seq<bool>)
    requires |primes| <= |col| && Positive(primes)
    ensures ProdLive(primes, col) > 0
  {
    if primes != [] {
      assert Positive(primes[1..]) && primes[0] > 0;
      ProdLivePositive(primes[1..], col[1..]);
      if col[0] { TimesIs(primes[0], ProdLive(primes[1..], col[1..])); }
    }
  }

  /** With a single live column: its prime, or 1 if the primes end before it. */
  lemma {:induction false} ProdLiveOne(primes: seq<nat>, col: seq<bool>, c: nat)
    requires |primes| <= |col| && c < |col| && forall i :: 0 <= i < |col| ==> (col[i] <==> i == c)
    ensures ProdLive(primes, col) == if c < |primes| then primes[c] else 1
  {
    if primes != [] {
      if c == 0 {
        ProdLiveNone(primes[1..], col[1..]);
        TimesIs(primes[0], 1);
      } else {
        ProdLiveOne(primes[1..], col[1..], c - 1);
      }
    }
  }

  lemma {:induction false} ProdLiveNone(primes: seq<nat>, col: seq<bool>)
    requires |primes| <= |col| && forall i :: 0 <= i < |col| ==> !col[i]
    ensures ProdLive(primes, col) == 1
  {
    if primes != [] { ProdLiveNone(primes[1..], col[1..]); }
  }

  /** Whatever columns it takes, a divisor is at most the product of the whole row that it is read from. */
  lemma {:induction false} ProdLiveAtMost(primes: seq<nat>, col: seq<bool>)
    requires |primes| <= |col| && Positive(primes)
    ensures ProdLive(primes, col) <= Prod(primes)
  {
    if primes != [] {
      var p, rest := primes[0], primes[1..];
      assert p > 0 && Positive(rest);
      ProdLiveAtMost(rest, col[1..]);
      OneFactor(p, ProdLive(rest, col[1..]), Prod(rest));
    }
  }

  lemma OneFactor(p: nat, x: nat, y: nat)
    requires p > 0 && x <= y
    ensures x <= Times(p, y) && Times(p, x) <= Times(p, y)
  {
    TimesIs(p, x);
    TimesIs(p, y);
    assert p * x <= p * y && y <= p * y;
  }

  lemma {:induction false} ProdAtAtMost(primes: seq<nat>, cols: seq<nat>, from: nat)
    requires Positive(primes) && from <= |primes| && Ascending(cols)
    requires forall i :: 0 <= i < |cols| ==> from <= cols[i] < |primes|
    ensures ProdAt(primes, cols) <= Prod(primes[from..])
    decreases |primes| - from
  {
    if cols == [] {
      assert Positive(primes[from..]);
      ProdPositive(primes[from..]);
    } else {
      assert from <= cols[0] < |primes|;
      assert primes[from..][1..] == primes[from + 1..] && primes[from] > 0;
      if cols[0] == from {
        ProdAtAtMost(primes, cols[1..], from + 1);
        OneFactor(primes[from], ProdAt(primes, cols[1..]), Prod(primes[from + 1..]));
      } else {
        ProdAtAtMost(primes, cols, from + 1);
        OneFactor(primes[from], ProdAt(primes, cols), Prod(primes[from + 1..]));
      }
    }
  }

  lemma {:induction false} LiveColsAscend(col: seq<bool>, from: nat)
    ensures Ascending(LiveCols(col, from))
    decreases |col| - from
  {
    if from < |col| {
      LiveColsAscend(col, from + 1);
      ghost var rest := LiveCols(col, from + 1);
      assert forall i :: 0 <= i < |rest| ==> rest[i] > from;
    }
  }

  /** `factors_of_active_rows[k]`; None where the index is out of range. */
  function PrimesRead(ch: Chain, rows: seq<nat>, k: nat): Option<seq<nat>> {
    var row := AscendingRow(rows, k, 0, |ch.factors|);
    if row.None? then None else Some(ch.factors[row.value])
  }

  /** The divisor that `scale_down_by` is computed as; None where an index is out of range. */
  function Divisor(ch: Chain, rows: seq<nat>, col: seq<bool>, k: nat, n: nat): (r: Option<nat>)
    requires ValidChain(ch) && |col| == ch.maxCols
    ensures r.Some? ==> r.value > 0
  {
    var primes := PrimesRead(ch, rows, k);
    if primes.None? then None
    else
      assert ValidRow(ch, AscendingRow(rows, k, 0, |ch.factors|).value);
      if LiveCount(col) == n then
        ProdLivePositive(primes.value, col);
        Some(ProdLive(primes.value, col))
      else
        var cols := Collected(col, n);
        if exists i :: 0 <= i < |cols| && cols[i] >= |primes.value| then None
        else
          ProdAtPositive(primes.value, cols);
          Some(ProdAt(primes.value, cols))
  }

  /** The divisor is at most the product of some whole row of the chain. */
  lemma DivisorAtMost(ch: Chain, rows: seq<nat>, col: seq<bool>, k: nat, n: nat) returns (row: nat)
    requires ValidChain(ch) && |col| == ch.maxCols && Divisor(ch, rows, col, k, n).Some?
    ensures row < |ch.factors| && Divisor(ch, rows, col, k, n).value <= Prod(ch.factors[row])
  {
    row := AscendingRow(rows, k, 0, |ch.factors|).value;
    assert ValidRow(ch, row);
    var primes := ch.factors[row];
    if LiveCount(col) == n {
      ProdLiveAtMost(primes, col);
    } else {
      LiveColsAscend(col, 0);
      ProdAtAtMost(primes, Collected(col, n), 0);
      assert primes[0..] == primes;
    }
  }

  /** `_get_drop_config_for_x_levels_in_a_given_row` for the row at slot i, with the j-th of the active rows' factors;
      None where it raises. The two differ only for a row that is counted from the end. */
  function ConfigAt(ch: Chain, s: Meta, i: nat, j: nat, n: nat): (r: Option<Config>)
    requires ValidChain(ch) && Formed(ch, s) && i < |s.rows|
    ensures r.Some? ==> Applicable(s, r.value) && r.value.row == i
  {
    assert FormedRow(ch, s.rows[i], s.cols[i]);
    var d := Divisor(ch, s.rows, s.cols[i], j, n);
    if d.None? then None else Some(Config(i, ColsOf(s.cols[i], n), d.value))
  }

  function ConfigFor(ch: Chain, s: Meta, k: nat, n: nat): (r: Option<Config>)
    requires ValidChain(ch) && Formed(ch, s)
    ensures r.Some? ==> Applicable(s, r.value) && r.value.row == k
  {
    if k >= |s.rows| then None else ConfigAt(ch, s, k, k, n)
  }

  // ----- applying a drop -----

  predicate Applicable(s: Meta, config: Config) {
    |s.rows| == |s.cols| && config.row < |s.rows| && config.scaleDown > 0 &&
    (config.cols.Some? ==> forall i :: 0 <= i < |config.cols.value| ==> config.cols.value[i] < |s.cols[config.row]|)
  }

  function Without(col: seq<bool>, drop: seq<nat>): (r: seq<bool>)
    ensures |r| == |col|
  {
    seq(|col|, c requires 0 <= c < |col| => c !in drop && col[c])
  }

  /** The metadata that `apply_drop_config` returns. */
  function Applied(s: Meta, config: Config): (r: Meta)
    requires Applicable(s, config)
    ensures |r.rows| == |r.cols|
  {
    var k, scale := config.row, s.scale / config.scaleDown as real;
    if config.cols.None? then Meta(s.rows[..k] + s.rows[k + 1..], s.cols[..k] + s.cols[k + 1..], scale)
    else Meta(s.rows, s.cols[k := Without(s.cols[k], config.cols.value)], scale)
  }

  lemma AppliedIsFormed(ch: Chain, s: Meta, config: Config)
    requires Formed(ch, s) && Applicable(s, config)
    ensures Formed(ch, Applied(s, config))
  {
    var r, k := Applied(s, config), config.row;
    forall j | 0 <= j < |r.rows|
      ensures FormedRow(ch, r.rows[j], r.cols[j])
    {
      assert FormedRow(ch, s.rows[k], s.cols[k]);
      if config.cols.None? && j >= k {
        assert FormedRow(ch, s.rows[j + 1], s.cols[j + 1]);
      } else {
        assert FormedRow(ch, s.rows[j], s.cols[j]);
      }
    }
  }

  /** A whole drop of n columns at relative row k; None where it raises. */
  function DropAt(ch: Chain, s: Meta, k: nat, n: nat): (r: Option<Meta>)
    requires ValidChain(ch) && Formed(ch, s)
    ensures r.Some? ==> Formed(ch, r.value)
  {
    var config := ConfigFor(ch, s, k, n);
    if config.None? then None
    else
      AppliedIsFormed(ch, s, config.value);
      Some(Applied(s, config.value))
  }

  // ----- drops that divide by the primes they remove -----

  /** Exactly k active rows lie below row rows[k] in the chain. */
  predicate InPlace(rows: seq<nat>, k: nat)
    requires k < |rows|
  {
    Below(rows, rows[k], 0) == k
  }

  lemma WithoutRange(col: seq<bool>, start: nat, n: nat)
    requires start + n <= |col| && forall c :: 0 <= c < start ==> !col[c]
    ensures Without(col, Range(start, n)) == Cleared(col, start + n)
  {
    forall c | 0 <= c < |col|
      ensures Without(col, Range(start, n))[c] == Cleared(col, start + n)[c]
    {
      if start <= c < start + n { assert Range(start, n)[c - start] == c; }
    }
  }

  /** Rows and columns after a drop depend on the count only; the scale depends on the divisor that was read. */
  lemma AppliedLevel(ch: Chain, s: Meta, k: nat, n: nat, config: Config)
    requires ValidChain(ch) && Good(ch, s) && k < |s.rows| && 1 <= n <= LiveCount(s.cols[k]) && Applicable(s, config)
    requires config.row == k && config.cols == ColsOf(s.cols[k], n)
    ensures Applied(s, config) == Dropped(ch, s, k, n).(scale := s.scale / config.scaleDown as real)
  {
    assert GoodRow(ch, s.rows, s.cols, k);
    CollectedOfSuffix(s.cols[k], |ch.factors[s.rows[k]]|, n);
    LiveSuffixCount(s.cols[k], |ch.factors[s.rows[k]]|);
    if n < LiveCount(s.cols[k]) { WithoutRange(s.cols[k], Start(s.cols[k]), n); }
  }

  /** Read off the row's own primes, the divisor is the product of all its live ones. */
  lemma OwnRowDivisor(primes: seq<nat>, col: seq<bool>)
    requires LiveSuffix(col, |primes|)
    ensures Start(col) + LiveCount(col) == |primes|
    ensures ProdLive(primes, col) == Prod(primes[Start(col)..Start(col) + LiveCount(col)])
  {
    hide Prod, ProdLive;
    LiveSuffixCount(col, |primes|);
    ProdLiveSuffix(primes, col);
    assert primes[Start(col)..Start(col) + LiveCount(col)] == primes[Start(col)..];
  }

  lemma OwnCols(width: nat, col: seq<bool>, n: nat, cols: seq<nat>)
    requires LiveSuffix(col, width) && 1 <= n <= LiveCount(col) && cols == Collected(col, n)
    ensures Start(col) + n <= width && cols == Range(Start(col), n)
  {
    LiveSuffixCount(col, width);
    CollectedOfSuffix(col, width, n);
  }

  /** Or of the first n live ones. */
  lemma OwnColsDivisor(primes: seq<nat>, col: seq<bool>, n: nat, cols: seq<nat>)
    requires LiveSuffix(col, |primes|) && 1 <= n <= LiveCount(col) && cols == Collected(col, n)
    ensures Start(col) + n <= |primes| && forall i :: 0 <= i < |cols| ==> cols[i] < |primes|
    ensures ProdAt(primes, cols) == Prod(primes[Start(col)..Start(col) + n])
  {
    hide LiveSuffix, LiveCols, Collected, Times, Prod, ProdAt;
    OwnCols(|primes|, col, n, cols);
    RangeDivisor(primes, Start(col), n, cols);
  }

  lemma RangeDivisor(primes: seq<nat>, start: nat, n: nat, cols: seq<nat>)
    requires start + n <= |primes| && cols == Range(start, n)
    ensures forall i :: 0 <= i < |cols| ==> cols[i] < |primes|
    ensures ProdAt(primes, cols) == Prod(primes[start..start + n])
  {
    hide Times, Prod, ProdAt;
    ProdAtRange(primes, start, n);
  }

  lemma OwnDivisor(ch: Chain, rows: seq<nat>, col: seq<bool>, k: nat, n: nat, primes: seq<nat>)
    requires ValidChain(ch) && |col| == ch.maxCols && PrimesRead(ch, rows, k) == Some(primes)
    requires LiveSuffix(col, |primes|) && 1 <= n <= LiveCount(col)
    ensures Start(col) + n <= |primes| && Divisor(ch, rows, col, k, n) == Some(Prod(primes[Start(col)..Start(col) + n]))
  {
    hide Times, Prod, ProdAt, ProdLive, LiveCols, LiveSuffix, Collected, AscendingRow;
    if n == LiveCount(col) {
      OwnRowDivisor(primes, col);
    } else {
      OwnColsDivisor(primes, col, n, Collected(col, n));
    }
  }

  lemma FactorOf(ch: Chain, s: Meta, k: nat, n: nat)
    requires ValidChain(ch) && Good(ch, s) && k < |s.rows| && n <= LiveCount(s.cols[k])
    ensures s.rows[k] < |ch.factors| && |s.cols[k]| == ch.maxCols && LiveSuffix(s.cols[k], |ch.factors[s.rows[k]]|)
    ensures var primes, start := ch.factors[s.rows[k]], Start(s.cols[k]);
      start + n <= |primes| && DropFactor(ch, s, k, n) == Prod(primes[start..start + n])
  {
    assert GoodRow(ch, s.rows, s.cols, k);
    LiveSuffixCount(s.cols[k], |ch.factors[s.rows[k]]|);
  }

  lemma ReadInPlace(ch: Chain, rows: seq<nat>, k: nat)
    requires k < |rows| && rows[k] < |ch.factors| && InPlace(rows, k)
    ensures PrimesRead(ch, rows, k) == Some(ch.factors[rows[k]])
  {
    RightRowIff(ch, rows, k);
  }

  /** In place, the divisor is the product of exactly the primes that the drop removes. */
  lemma DivisorInPlace(ch: Chain, s: Meta, k: nat, n: nat)
    requires ValidChain(ch) && Good(ch, s) && k < |s.rows| && 1 <= n <= LiveCount(s.cols[k]) && InPlace(s.rows, k)
    ensures |s.cols[k]| == ch.maxCols && Divisor(ch, s.rows, s.cols[k], k, n) == Some(DropFactor(ch, s, k, n))
  {
    hide *;
    SameLength(ch, s);
    FactorOf(ch, s, k, n);
    ReadInPlace(ch, s.rows, k);
    OwnDivisor(ch, s.rows, s.cols[k], k, n, ch.factors[s.rows[k]]);
  }

  lemma DropInPlace(ch: Chain, s: Meta, k: nat, n: nat)
    requires ValidChain(ch) && Good(ch, s) && Formed(ch, s)
    requires k < |s.rows| && 1 <= n <= LiveCount(s.cols[k]) && InPlace(s.rows, k)
    ensures ConfigFor(ch, s, k, n) == Some(Config(k, ColsOf(s.cols[k], n), DropFactor(ch, s, k, n)))
    ensures DropAt(ch, s, k, n) == Some(Dropped(ch, s, k, n))
  {
    DivisorInPlace(ch, s, k, n);
    AppliedLevel(ch, s, k, n, ConfigFor(ch, s, k, n).value);
  }

  // ----- row indices from the end -----

  /** How many entries `factors_of_active_rows` has. */
  function ActiveCount(ch: Chain, rows: seq<nat>): nat { Below(rows, |ch.factors|, 0) }

  lemma {:induction false} BelowSnoc(rows: seq<nat>, x: nat, row: nat, from: nat)
    requires x !in rows
    ensures Below(rows + [x], row, from) == Below(rows, row, from) + (if from <= x < row then 1 else 0)
    decreases if row > from then row - from else 0
  {
    if from < row { BelowSnoc(rows, x, row, from + 1); }
  }

  /** Different rows of the chain have one entry each. */
  lemma {:induction false} CountOfDistinct(rows: seq<nat>, limit: nat)
    requires Distinct(rows) && forall i :: 0 <= i < |rows| ==> rows[i] < limit
    ensures Below(rows, limit, 0) == |rows|
    decreases |rows|
  {
    if rows == [] {
      BelowNone(rows, limit, 0);
    } else {
      var k := |rows| - 1;
      assert rows == rows[..k] + [rows[k]] && rows[k] !in rows[..k];
      CountOfDistinct(rows[..k], limit);
      BelowSnoc(rows[..k], rows[k], limit, 0);
    }
  }

  lemma GoodCount(ch: Chain, s: Meta)
    requires Good(ch, s)
    ensures ActiveCount(ch, s.rows) == |s.rows|
  {
    forall i | 0 <= i < |s.rows|
      ensures s.rows[i] < |ch.factors|
    {
      assert GoodRow(ch, s.rows, s.cols, i);
    }
    CountOfDistinct(s.rows, |ch.factors|);
  }

  /** The count that a modswitch drops: what it was given, or all live columns. */
  function CountOf(col: seq<bool>, count: Option<nat>): nat {
    if count.None? then LiveCount(col) else count.value
  }

  /** A drop with the relative row -back; None where it raises. The slices `[:row]` and `[row + 1:]` of a whole-row drop
      meet at the right place for every negative row but -1, for which the second slice is the whole list. */
  function DropFromEnd(ch: Chain, s: Meta, back: nat, count: Option<nat>): (r: Option<Meta>)
    requires ValidChain(ch) && Formed(ch, s) && back >= 1
    ensures r.Some? ==> Formed(ch, r.value)
  {
    if back > |s.rows| || back > ActiveCount(ch, s.rows) then None
    else
      var i := |s.rows| - back;
      var config := ConfigAt(ch, s, i, ActiveCount(ch, s.rows) - back, CountOf(s.cols[i], count));
      if config.None? then None
      else if back == 1 && config.value.cols.None? then
        LastKeptIsFormed(ch, s, config.value.scaleDown);
        Some(LastKept(s, config.value.scaleDown))
      else
        AppliedIsFormed(ch, s, config.value);
        Some(Applied(s, config.value))
  }

  /** What the two slices make of row -1. */
  function LastKept(s: Meta, d: nat): Meta
    requires d > 0 && |s.rows| == |s.cols| >= 1
  {
    Meta(s.rows[..|s.rows| - 1] + s.rows, s.cols[..|s.cols| - 1] + s.cols, s.scale / d as real)
  }

  lemma LastKeptIsFormed(ch: Chain, s: Meta, d: nat)
    requires Formed(ch, s) && d > 0 && s.rows != []
    ensures Formed(ch, LastKept(s, d))
  {
    var r, k := LastKept(s, d), |s.rows| - 1;
    forall j | 0 <= j < |r.rows|
      ensures FormedRow(ch, r.rows[j], r.cols[j])
    {
      assert FormedRow(ch, s.rows[if j < k then j else j - k], s.cols[if j < k then j else j - k]);
    }
  }

  /** On a good state a negative row names the row that Python counts from the end, except that the last row never goes
      as a whole. */
  lemma FromEndIsForward(ch: Chain, s: Meta, back: nat, count: Option<nat>, k: nat)
    requires ValidChain(ch) && Good(ch, s) && Formed(ch, s) && 1 <= back <= |s.rows| && k == |s.rows| - back
    requires back == 1 ==> CountOf(s.cols[k], count) != LiveCount(s.cols[k])
    ensures DropFromEnd(ch, s, back, count) == DropAt(ch, s, k, CountOf(s.cols[k], count))
  {
    GoodCount(ch, s);
  }

  /** Asked to drop the last row by -1, the code divides the scale but keeps the row, behind a second copy of all rows
      before it: the state stays good only if there was no row before it. */
  lemma LastRowStays(ch: Chain, s: Meta, count: Option<nat>, r: Meta)
    requires ValidChain(ch) && Good(ch, s) && Formed(ch, s) && s.rows != [] && DropFromEnd(ch, s, 1, count) == Some(r)
    requires CountOf(s.cols[|s.rows| - 1], count) == LiveCount(s.cols[|s.rows| - 1])
    ensures r.rows == s.rows[..|s.rows| - 1] + s.rows && r.cols == s.cols[..|s.cols| - 1] + s.cols
    ensures Good(ch, r) <==> |s.rows| == 1
  {
    var k := |s.rows| - 1;
    if k > 0 {
      assert r.rows[0] == s.rows[0] && r.rows[k] == s.rows[0];
      assert !Distinct(r.rows);
    } else {
      assert r.rows == s.rows && r.cols == s.cols;
      assert GoodLevel(ch, r.rows, r.cols);
    }
  }

  // ----- which counts leave a good state -----

  /** One to all live columns; or none, which the column loop respects only if the first column is dead. */
  predicate FairCount(col: seq<bool>, n: nat) { 1 <= n <= LiveCount(col) || (n == 0 && col != [] && !col[0]) }

  /** A drop keeps the state good iff its count is fair; a count of 0 with a live first column, or one above the live
      columns, leaves a row without live columns behind. */
  lemma CountKeepsGoodIff(ch: Chain, s: Meta, k: nat, n: nat, r: Meta)
    requires ValidChain(ch) && Good(ch, s) && Formed(ch, s) && k < |s.rows| && DropAt(ch, s, k, n) == Some(r)
    ensures Good(ch, r) <==> FairCount(s.cols[k], n)
  {
    var config := ConfigFor(ch, s, k, n).value;
    assert GoodRow(ch, s.rows, s.cols, k);
    LiveSuffixCount(s.cols[k], |ch.factors[s.rows[k]]|);
    if 1 <= n <= LiveCount(s.cols[k]) {
      AppliedLevel(ch, s, k, n, config);
      DropKeepsGood(ch, s, k, n);
      var t := Dropped(ch, s, k, n);
      assert GoodLevel(ch, t.rows, t.cols);
    } else {
      OtherCounts(ch, s, k, n, config, r);
    }
  }

  lemma OtherCounts(ch: Chain, s: Meta, k: nat, n: nat, config: Config, r: Meta)
    requires ValidChain(ch) && Good(ch, s) && Formed(ch, s) && k < |s.rows| && ConfigFor(ch, s, k, n) == Some(config)
    requires (n == 0 || n > LiveCount(s.cols[k])) && LiveCount(s.cols[k]) >= 1 && r == Applied(s, config)
    ensures Good(ch, r) <==> FairCount(s.cols[k], n)
    ensures FairCount(s.cols[k], n) ==> r.rows == s.rows && r.cols == s.cols
  {
    assert GoodRow(ch, s.rows, s.cols, k);
    var col, width := s.cols[k], |ch.factors[s.rows[k]]|;
    CollectedOfSuffix(col, width, n);
    LiveSuffixCount(col, width);
    if FairCount(col, n) {
      assert Without(col, []) == col;
      assert r.rows == s.rows && r.cols == s.cols;
      assert GoodLevel(ch, r.rows, r.cols);
    } else {
      WithoutRange(col, Start(col), width - Start(col));
      assert !r.cols[k][width - 1];
      assert !GoodRow(ch, r.rows, r.cols, k);
    }
  }

  lemma DropNothing(ch: Chain, s: Meta, k: nat)
    requires ValidChain(ch) && Good(ch, s) && Formed(ch, s) && k < |s.rows| && InPlace(s.rows, k)
    requires FairCount(s.cols[k], 0)
    ensures DropAt(ch, s, k, 0) == Some(s)
  {
    RightRowIff(ch, s.rows, k);
    assert GoodRow(ch, s.rows, s.cols, k);
    LiveSuffixCount(s.cols[k], |ch.factors[s.rows[k]]|);
    CollectedOfSuffix(s.cols[k], |ch.factors[s.rows[k]]|, 0);
    assert Divisor(ch, s.rows, s.cols[k], k, 0) == Some(1);
    var config := ConfigFor(ch, s, k, 0).value;
    var r := Applied(s, config);
    OtherCounts(ch, s, k, 0, config, r);
    assert config.scaleDown == 1 && r.scale == s.scale;
    assert r == Meta(s.rows, s.cols, s.scale);
  }

  // ----- the divisor of one column -----

  predicate HasColumn(ch: Chain, r: nat, c: nat) { r < |ch.factors| && c < |ch.factors[r]| }

  /** No prime occurs twice in the chain, and every one is at least 2. */
  ghost predicate DistinctPrimes(ch: Chain) {
    (forall r: nat, c: nat :: HasColumn(ch, r, c) ==> ch.factors[r][c] > 1) &&
    forall r: nat, c: nat, r2: nat, c2: nat ::
      HasColumn(ch, r, c) && HasColumn(ch, r2, c2) && (r != r2 || c != c2) ==>
      ch.factors[r][c] != ch.factors[r2][c2]
  }

  /** What a drop of one column divides by: the prime in that column of the row that is read. If that row has no such
      column, the drop divides by 1 when it takes the whole row, and raises when it takes a column. */
  lemma OneColumnDivisor(ch: Chain, s: Meta, k: nat)
    requires ValidChain(ch) && Good(ch, s) && k < |s.rows| && |s.cols[k]| == ch.maxCols
    ensures var primes, start := PrimesRead(ch, s.rows, k), Start(s.cols[k]);
      Divisor(ch, s.rows, s.cols[k], k, 1) ==
      if primes.None? then None
      else if start < |primes.value| then Some(primes.value[start])
      else if LiveCount(s.cols[k]) == 1 then Some(1)
      else None
  {
    var primes := PrimesRead(ch, s.rows, k);
    if primes.Some? {
      assert GoodRow(ch, s.rows, s.cols, k);
      assert ValidRow(ch, AscendingRow(s.rows, k, 0, |ch.factors|).value);
      var col, width := s.cols[k], |ch.factors[s.rows[k]]|;
      LiveSuffixCount(col, width);
      if LiveCount(col) == 1 {
        ProdLiveOne(primes.value, col, Start(col));
      } else {
        OneCollected(col, width, primes.value);
      }
    }
  }

  /** One column of several: the first live one, if the primes reach it. */
  lemma OneCollected(col: seq<bool>, width: nat, primes: seq<nat>)
    requires LiveSuffix(col, width)
    ensures Collected(col, 1) == [Start(col)]
    ensures Start(col) < |primes| ==> ProdAt(primes, Collected(col, 1)) == primes[Start(col)]
    ensures (exists i :: 0 <= i < |Collected(col, 1)| && Collected(col, 1)[i] >= |primes|) <==> Start(col) >= |primes|
  {
    LiveSuffixCount(col, width);
    CollectedOfSuffix(col, width, 1);
    assert Collected(col, 1)[0] == Start(col);
    if Start(col) < |primes| { ProdAtOne(primes, Collected(col, 1)); }
  }

  /** With distinct primes, a drop of one column divides by the prime it removes iff exactly k active rows precede its
      row in the chain. */
  lemma RightDivisorIff(ch: Chain, s: Meta, k: nat)
    requires ValidChain(ch) && Good(ch, s) && k < |s.rows| && LiveCount(s.cols[k]) >= 1 && |s.cols[k]| == ch.maxCols
    requires DistinctPrimes(ch)
    ensures Divisor(ch, s.rows, s.cols[k], k, 1) == Some(DropFactor(ch, s, k, 1)) <==> InPlace(s.rows, k)
  {
    assert GoodRow(ch, s.rows, s.cols, k);
    var start, row := Start(s.cols[k]), AscendingRow(s.rows, k, 0, |ch.factors|);
    OneColumnDivisor(ch, s, k);
    OneColumnFactor(ch, s, k);
    RightRowIff(ch, s.rows, k);
    assert HasColumn(ch, s.rows[k], start);
    if row.Some? && start < |ch.factors[row.value]| && row.value != s.rows[k] {
      assert HasColumn(ch, row.value, start);
    }
  }

  lemma OneColumnFactor(ch: Chain, s: Meta, k: nat)
    requires ValidChain(ch) && Good(ch, s) && k < |s.rows| && LiveCount(s.cols[k]) >= 1
    ensures s.rows[k] < |ch.factors| && Start(s.cols[k]) < |ch.factors[s.rows[k]]|
    ensures DropFactor(ch, s, k, 1) == ch.factors[s.rows[k]][Start(s.cols[k])]
  {
    assert GoodRow(ch, s.rows, s.cols, k);
    var primes, start := ch.factors[s.rows[k]], Start(s.cols[k]);
    LiveSuffixCount(s.cols[k], |primes|);
    ProdOne(primes[start..start + 1]);
  }

  lemma ProdOne(s: seq<nat>)
    requires |s| == 1
    ensures Prod(s) == s[0]
  {
    TimesIs(s[0], 1);
    assert s[1..] == [];
  }

  /** So on a ciphertext with a non-zero scale the new scale is the old one over the removed prime under the same
      condition. */
  lemma RightScaleIff(ch: Chain, s: Meta, k: nat, r: Meta)
    requires ValidChain(ch) && Good(ch, s) && Formed(ch, s) && k < |s.rows| && LiveCount(s.cols[k]) >= 1
    requires DistinctPrimes(ch) && s.scale != 0.0 && DropAt(ch, s, k, 1) == Some(r)
    ensures r.scale == s.scale / DropFactor(ch, s, k, 1) as real <==> InPlace(s.rows, k)
  {
    assert FormedRow(ch, s.rows[k], s.cols[k]);
    RightDivisorIff(ch, s, k);
    var d, f := Divisor(ch, s.rows, s.cols[k], k, 1).value, DropFactor(ch, s, k, 1);
    assert r.scale == s.scale / d as real;
    SameQuotientIff(s.scale, d as real, f as real);
  }

  lemma SameQuotientIff(x: real, d: real, f: real)
    requires x != 0.0 && d > 0.0 && f > 0.0
    ensures x / d == x / f <==> d == f
  {
    var q := x / d;
    assert q * d == x && (x / f) * f == x;
    if x / f == q { CancelFactor(q, d, f); }
  }

  lemma CancelFactor(q: real, d: real, f: real)
    requires q * d == q * f && q * d != 0.0
    ensures d == f
  {
    assert q * (d - f) == 0.0;
  }

  // ----- fresh ciphertexts of a slim bootstrap -----

  /** `get_init_rows` for a slim bootstrap: the last numInit pipeline rows, then the base row, which stands before the
      StC rows that precede it in the chain. */
  function SlimRows(ch: Chain, numInit: nat): seq<nat>
    requires numInit <= ch.layout.pipeline
  {
    Range(ch.layout.pipeline - numInit, numInit) + BaseRows(ch) + StcRows(ch)
  }

  lemma SlimRow(ch: Chain, numInit: nat, k: nat)
    requires numInit <= ch.layout.pipeline && ch.layout.base == 1 && k < |SlimRows(ch, numInit)|
    ensures var l := ch.layout; var boot := l.pipeline + l.cts + l.evalMod;
      |SlimRows(ch, numInit)| == numInit + 1 + l.stc &&
      SlimRows(ch, numInit)[k] ==
      if k < numInit then l.pipeline - numInit + k
      else if k == numInit then boot + l.stc
      else boot + (k - numInit - 1)
  {}

  /** A fresh slim state reads pipeline rows at their own index; the base row has all StC rows below it, and each StC
      row misses the base row that stands before it. */
  lemma SlimRank(ch: Chain, numInit: nat, k: nat)
    requires numInit <= ch.layout.pipeline && ch.layout.base == 1 && k < |SlimRows(ch, numInit)|
    ensures Below(SlimRows(ch, numInit), SlimRows(ch, numInit)[k], 0) ==
            if k < numInit then k else if k == numInit then numInit + ch.layout.stc else k - 1
  {
    var rows, first := SlimRows(ch, numInit), ch.layout.pipeline - numInit;
    SlimRow(ch, numInit, k);
    forall i | 0 <= i < |rows|
      ensures rows[i] >= first
    {
      SlimRow(ch, numInit, i);
    }
    BelowNone(rows, first, 0);
    BelowSplit(rows, rows[k], 0, first);
    if k < numInit {
      SlimPipelineRank(ch, numInit, k);
    } else {
      SlimBootRank(ch, numInit, k);
    }
  }

  lemma SlimPipelineRank(ch: Chain, numInit: nat, k: nat)
    requires numInit <= ch.layout.pipeline && ch.layout.base == 1 && k < numInit
    ensures var first := ch.layout.pipeline - numInit; Below(SlimRows(ch, numInit), first + k, first) == k
  {
    var rows, first := SlimRows(ch, numInit), ch.layout.pipeline - numInit;
    forall r | first <= r < first + k
      ensures r in rows
    {
      SlimRow(ch, numInit, r - first);
      assert rows[r - first] == r;
    }
    BelowAll(rows, first + k, first);
  }

  lemma SlimBootRank(ch: Chain, numInit: nat, k: nat)
    requires numInit <= ch.layout.pipeline && ch.layout.base == 1 && numInit <= k < |SlimRows(ch, numInit)|
    ensures SlimRows(ch, numInit)[k] >= ch.layout.pipeline
    ensures Below(SlimRows(ch, numInit), SlimRows(ch, numInit)[k], ch.layout.pipeline - numInit) ==
            if k == numInit then numInit + ch.layout.stc else k - 1
  {
    var rows, p := SlimRows(ch, numInit), ch.layout.pipeline;
    var boot := p + ch.layout.cts + ch.layout.evalMod;
    SlimRow(ch, numInit, k);
    SlimPipelineBelow(ch, numInit, rows);
    SlimBootBelow(ch, numInit, rows, boot, rows[k]);
    BelowSplit(rows, rows[k], p - numInit, p);
    BelowSplit(rows, rows[k], p, boot);
  }

  lemma SlimPipelineBelow(ch: Chain, numInit: nat, rows: seq<nat>)
    requires numInit <= ch.layout.pipeline && ch.layout.base == 1 && rows == SlimRows(ch, numInit)
    ensures Below(rows, ch.layout.pipeline, ch.layout.pipeline - numInit) == numInit
  {
    var first := ch.layout.pipeline - numInit;
    forall r | first <= r < ch.layout.pipeline
      ensures r in rows
    {
      SlimRow(ch, numInit, r - first);
      assert rows[r - first] == r;
    }
    BelowAll(rows, ch.layout.pipeline, first);
  }

  lemma SlimBootBelow(ch: Chain, numInit: nat, rows: seq<nat>, boot: nat, row: nat)
    requires numInit <= ch.layout.pipeline && ch.layout.base == 1 && rows == SlimRows(ch, numInit)
    requires boot == ch.layout.pipeline + ch.layout.cts + ch.layout.evalMod && boot <= row <= boot + ch.layout.stc
    ensures Below(rows, boot, ch.layout.pipeline) == 0 && Below(rows, row, boot) == row - boot
  {
    forall i | 0 <= i < |rows|
      ensures rows[i] < ch.layout.pipeline || rows[i] >= boot
    {
      SlimRow(ch, numInit, i);
    }
    BelowNone(rows, boot, ch.layout.pipeline);
    forall r | boot <= r < row
      ensures r in rows
    {
      SlimRow(ch, numInit, numInit + 1 + (r - boot));
      assert rows[numInit + 1 + (r - boot)] == r;
    }
    BelowAll(rows, row, boot);
  }

  /** On a fresh slim ciphertext, whatever its number of pipeline rows, a drop of one column divides by the prime it
      removes iff it drops a pipeline row: for the base row and for every StC row the divisor is wrong. */
  lemma SlimDrops(ch: Chain, numInit: nat, s: Meta, k: nat)
    requires ValidChain(ch) && DistinctPrimes(ch) && numInit <= ch.layout.pipeline
    requires ch.layout.base == 1 && ch.layout.stc > 0
    requires Good(ch, s) && s.rows == SlimRows(ch, numInit) && k < |s.rows| && LiveCount(s.cols[k]) >= 1
    ensures |s.cols[k]| == ch.maxCols
    ensures Divisor(ch, s.rows, s.cols[k], k, 1) == Some(DropFactor(ch, s, k, 1)) <==> k < numInit
  {
    assert GoodRow(ch, s.rows, s.cols, k);
    SlimRank(ch, numInit, k);
    RightDivisorIff(ch, s, k);
  }

  lemma FirstStcIsRead(ch: Chain, numInit: nat)
    requires ValidChain(ch) && numInit <= ch.layout.pipeline && ch.layout.base == 1 && ch.layout.stc > 0
    ensures StcRows(ch)[0] < |ch.factors|
    ensures AscendingRow(SlimRows(ch, numInit), numInit, 0, |ch.factors|) == Some(StcRows(ch)[0])
  {
    var rows, stc := SlimRows(ch, numInit), StcRows(ch)[0];
    SlimRow(ch, numInit, numInit + 1);
    assert rows[numInit + 1] == stc;
    SlimRank(ch, numInit, numInit + 1);
    AscendingRowFrom(rows, numInit, stc, 0, |ch.factors|);
  }

  /** Dropping the base row of a fresh slim ciphertext divides the scale by the first prime of the first StC row, not
      by the base prime. */
  lemma SlimBaseDrop(ch: Chain, numInit: nat, s: Meta)
    requires ValidChain(ch) && numInit <= ch.layout.pipeline && ch.layout.base == 1 && ch.layout.stc > 0
    requires Good(ch, s) && Formed(ch, s) && s.rows == SlimRows(ch, numInit) && |s.rows| > numInit
    requires s.rows[numInit] < |ch.factors| && |ch.factors[s.rows[numInit]]| == 1
    ensures StcRows(ch)[0] < |ch.factors| && ch.factors[StcRows(ch)[0]] != [] && ch.factors[StcRows(ch)[0]][0] > 0
    ensures DropAt(ch, s, numInit, 1).Some?
    ensures DropAt(ch, s, numInit, 1).value.scale == s.scale / ch.factors[StcRows(ch)[0]][0] as real
  {
    var stc, k := StcRows(ch)[0], numInit;
    FirstStcIsRead(ch, numInit);
    assert ValidRow(ch, stc);
    assert GoodRow(ch, s.rows, s.cols, k);
    LiveSuffixCount(s.cols[k], 1);
    OneColumnDivisor(ch, s, k);
    assert PrimesRead(ch, s.rows, k) == Some(ch.factors[stc]) && Start(s.cols[k]) == 0;
    assert Divisor(ch, s.rows, s.cols[k], k, 1) == Some(ch.factors[stc][0]);
  }
}
