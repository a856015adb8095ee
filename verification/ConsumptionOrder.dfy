/**
 `ModulusChain.traced_consumption_order`: the pipeline rows in the order the level tracing used them up. The log may
 drop a row many times, in branches and again after bootstraps; only the last drop counts, and rows that were never
 dropped come after all others.
 */
module ConsumptionOrder {

  function Reversed<T>(s: seq<T>): (r: seq<T>)
    ensures |r| == |s|
  {
    if s == [] then [] else Reversed(s[1..]) + [s[0]]
  }

  /** The rows of a log that belong to the pipeline, rows 0 to pipeline - 1. */
  function PipelineOnly(log: seq<nat>, pipeline: nat): seq<nat> {
    if log == [] then []
    else
      var k := |log| - 1;
      PipelineOnly(log[..k], pipeline) + (if log[k] < pipeline then [log[k]] else [])
  }

  /** `list(dict.fromkeys(s))`: each element where it first occurs. */
  function FirstSeen(s: seq<nat>): seq<nat> {
    if s == [] then []
    else
      var k := |s| - 1;
      var r := FirstSeen(s[..k]);
      if s[k] in r then r else r + [s[k]]
  }

  /** The dropped pipeline rows by last drop. */
  function DroppedRows(log: seq<nat>, pipeline: nat): seq<nat> {
    Reversed(FirstSeen(PipelineOnly(Reversed(log), pipeline)))
  }

  /** `[row for row in pipeline if row not in dropped]`. */
  function Untouched(dropped: seq<nat>, pipeline: nat): seq<nat> {
    if pipeline == 0 then []
    else
      var rest := Untouched(dropped, pipeline - 1);
      if pipeline - 1 in dropped then rest else rest + [pipeline - 1]
  }

  function TracedOrder(log: seq<nat>, pipeline: nat): seq<nat> {
    var dropped := DroppedRows(log, pipeline);
    dropped + Untouched(dropped, pipeline)
  }

  // ----- what the order is -----

  /** The index of a row's last drop. */
  function LastDrop(log: seq<nat>, row: nat): (i: nat)
    requires row in log
    ensures i < |log| && log[i] == row && forall j :: i < j < |log| ==> log[j] != row
  {
    if log[|log| - 1] == row then |log| - 1 else LastDrop(log[..|log| - 1], row)
  }

  lemma {:induction false} ReversedSnoc(s: seq<nat>, x: nat)
    ensures Reversed(s + [x]) == [x] + Reversed(s)
  {
    if s == [] {
      assert Reversed([x]) == Reversed<nat>([]) + [x];
      assert s + [x] == [x];
    } else {
      ReversedSnoc(s[1..], x);
      assert (s + [x])[1..] == s[1..] + [x];
    }
  }

  /** Reading the log from the front: an entry counts unless the row is dropped again later. */
  lemma DroppedRowsStep(log: seq<nat>, pipeline: nat)
    requires log != []
    ensures var rest := DroppedRows(log[1..], pipeline);
      DroppedRows(log, pipeline) == if log[0] < pipeline && log[0] !in rest then [log[0]] + rest else rest
  {
    var back := Reversed(log[1..]);
    var x := log[0];
    assert Reversed(log) == back + [x];
    PipelineSnoc(back, x, pipeline);
    var kept := PipelineOnly(back, pipeline);
    assert kept + [] == kept;
    if x < pipeline {
      SeenSnoc(kept, x);
      SameElements(FirstSeen(kept));
      ReversedSnoc(FirstSeen(kept), x);
    }
  }

  lemma PipelineSnoc(s: seq<nat>, x: nat, pipeline: nat)
    ensures PipelineOnly(s + [x], pipeline) == PipelineOnly(s, pipeline) + (if x < pipeline then [x] else [])
  {
    assert (s + [x])[..|s|] == s;
  }

  lemma SeenSnoc(s: seq<nat>, x: nat)
    ensures FirstSeen(s + [x]) == if x in FirstSeen(s) then FirstSeen(s) else FirstSeen(s) + [x]
  {
    assert (s + [x])[..|s|] == s;
  }

  lemma {:induction false} SameElements(s: seq<nat>)
    ensures forall x :: x in Reversed(s) <==> x in s
  {
    if s != [] {
      SameElements(s[1..]);
      assert s == [s[0]] + s[1..];
    }
  }

  predicate ByLastDrop(rows: seq<nat>, log: seq<nat>) {
    (forall r :: r in rows ==> r in log) &&
    forall i, j :: 0 <= i < j < |rows| ==> LastDrop(log, rows[i]) < LastDrop(log, rows[j])
  }

  lemma LaterInLonger(log: seq<nat>, row: nat)
    requires log != [] && row in log[1..]
    ensures row in log && LastDrop(log, row) == LastDrop(log[1..], row) + 1
  {
    var i := LastDrop(log[1..], row);
    assert log[i + 1] == row;
    forall j | i + 1 < j < |log|
      ensures log[j] != row
    {
      assert log[j] == log[1..][j - 1];
    }
  }

  lemma LastAtFront(log: seq<nat>)
    requires log != []
    ensures LastDrop(log, log[0]) > 0 ==> log[0] in log[1..]
  {
    var i := LastDrop(log, log[0]);
    if i > 0 { assert log[i] == log[1..][i - 1]; }
  }

  lemma {:induction false} DroppedMembers(log: seq<nat>, pipeline: nat)
    ensures forall r :: r in DroppedRows(log, pipeline) <==> r in log && r < pipeline
  {
    if log != [] {
      DroppedRowsStep(log, pipeline);
      DroppedMembers(log[1..], pipeline);
      assert log == [log[0]] + log[1..];
    }
  }

  /** The first part lists exactly the pipeline rows that were ever dropped, strictly by their last drop. */
  lemma {:induction false} DroppedByLastDrop(log: seq<nat>, pipeline: nat)
    ensures forall r :: r in DroppedRows(log, pipeline) <==> r in log && r < pipeline
    ensures ByLastDrop(DroppedRows(log, pipeline), log)
  {
    DroppedMembers(log, pipeline);
    if log != [] {
      DroppedRowsStep(log, pipeline);
      DroppedByLastDrop(log[1..], pipeline);
      OrderWithFront(log, DroppedRows(log[1..], pipeline), DroppedRows(log, pipeline), pipeline);
    }
  }

  lemma OrderWithFront(log: seq<nat>, rest: seq<nat>, rows: seq<nat>, pipeline: nat)
    requires log != [] && ByLastDrop(rest, log[1..]) && forall r :: r in rest <==> r in log[1..] && r < pipeline
    requires rows == if log[0] < pipeline && log[0] !in rest then [log[0]] + rest else rest
    ensures ByLastDrop(rows, log)
  {
    ShiftedOrder(log, rest);
    if log[0] < pipeline && log[0] !in rest { LastAtFront(log); }
  }

  lemma ShiftedOrder(log: seq<nat>, rows: seq<nat>)
    requires log != [] && ByLastDrop(rows, log[1..])
    ensures ByLastDrop(rows, log) && forall i :: 0 <= i < |rows| ==> rows[i] in log && LastDrop(log, rows[i]) > 0
  {
    forall r | r in rows
      ensures r in log && LastDrop(log, r) == LastDrop(log[1..], r) + 1
    {
      LaterInLonger(log, r);
    }
  }

  lemma {:induction false} InUntouched(dropped: seq<nat>, pipeline: nat, r: nat)
    ensures r in Untouched(dropped, pipeline) <==> r < pipeline && r !in dropped
  {
    if pipeline > 0 { InUntouched(dropped, pipeline - 1, r); }
  }

  lemma {:induction false} UntouchedAscends(dropped: seq<nat>, pipeline: nat)
    ensures forall i, j :: 0 <= i < j < |Untouched(dropped, pipeline)| ==>
      Untouched(dropped, pipeline)[i] < Untouched(dropped, pipeline)[j]
  {
    if pipeline > 0 {
      UntouchedAscends(dropped, pipeline - 1);
      var u := Untouched(dropped, pipeline - 1);
      forall i | 0 <= i < |u|
        ensures u[i] < pipeline - 1
      {
        InUntouched(dropped, pipeline - 1, u[i]);
      }
    }
  }

  ghost predicate IsPermutationOf(order: seq<nat>, pipeline: nat) {
    (forall i, j :: 0 <= i < j < |order| ==> order[i] != order[j]) && forall r: nat :: r in order <==> r < pipeline
  }

  /** For every drop history: each pipeline row once; first the dropped rows by last drop, then the rows never dropped
      in chain order. */
  lemma OrderIsPermutation(log: seq<nat>, pipeline: nat, d: nat)
    requires d == |DroppedRows(log, pipeline)|
    ensures d <= |TracedOrder(log, pipeline)| && IsPermutationOf(TracedOrder(log, pipeline), pipeline)
    ensures ByLastDrop(TracedOrder(log, pipeline)[..d], log)
    ensures forall i :: d <= i < |TracedOrder(log, pipeline)| ==> TracedOrder(log, pipeline)[i] !in log
    ensures forall i, j :: d <= i < j < |TracedOrder(log, pipeline)| ==>
      TracedOrder(log, pipeline)[i] < TracedOrder(log, pipeline)[j]
  {
    var dropped := DroppedRows(log, pipeline);
    DroppedByLastDrop(log, pipeline);
    UntouchedAscends(dropped, pipeline);
    forall r: nat
      ensures r in Untouched(dropped, pipeline) <==> r < pipeline && r !in dropped
    {
      InUntouched(dropped, pipeline, r);
    }
    TwoParts(log, dropped, Untouched(dropped, pipeline), pipeline, TracedOrder(log, pipeline));
  }

  lemma TwoParts(log: seq<nat>, dropped: seq<nat>, rest: seq<nat>, pipeline: nat, order: seq<nat>)
    requires order == dropped + rest && ByLastDrop(dropped, log)
    requires forall r :: r in dropped <==> r in log && r < pipeline
    requires forall r: nat :: r in rest <==> r < pipeline && r !in dropped
    requires forall i, j :: 0 <= i < j < |rest| ==> rest[i] < rest[j]
    ensures IsPermutationOf(order, pipeline) && order[..|dropped|] == dropped
    ensures forall i :: |dropped| <= i < |order| ==> order[i] !in log
    ensures forall i, j :: |dropped| <= i < j < |order| ==> order[i] < order[j]
  {
    hide ByLastDrop;
    AscendingDistinct(dropped, log);
    ConcatDistinct(dropped, rest);
    assert forall r :: r in order <==> r in dropped || r in rest;
    RestOf(dropped, rest, order, log, pipeline);
  }

  lemma AscendingDistinct(rows: seq<nat>, log: seq<nat>)
    requires ByLastDrop(rows, log)
    ensures forall i, j :: 0 <= i < j < |rows| ==> rows[i] != rows[j]
  {
    forall i, j | 0 <= i < j < |rows|
      ensures rows[i] != rows[j]
    {
      assert LastDrop(log, rows[i]) < LastDrop(log, rows[j]);
    }
  }

  lemma ConcatDistinct(a: seq<nat>, b: seq<nat>)
    requires forall i, j :: 0 <= i < j < |a| ==> a[i] != a[j]
    requires forall i, j :: 0 <= i < j < |b| ==> b[i] < b[j]
    requires forall r :: r in b ==> r !in a
    ensures forall i, j :: 0 <= i < j < |a + b| ==> (a + b)[i] != (a + b)[j]
  {
    forall i, j | 0 <= i < j < |a + b|
      ensures (a + b)[i] != (a + b)[j]
    {
      if i < |a| <= j { assert (a + b)[i] in a && (a + b)[j] in b; }
    }
  }

  lemma RestOf(dropped: seq<nat>, rest: seq<nat>, order: seq<nat>, log: seq<nat>, pipeline: nat)
    requires order == dropped + rest
    requires forall r :: r in dropped <==> r in log && r < pipeline
    requires forall r: nat :: r in rest <==> r < pipeline && r !in dropped
    requires forall i, j :: 0 <= i < j < |rest| ==> rest[i] < rest[j]
    ensures order[..|dropped|] == dropped
    ensures forall i :: |dropped| <= i < |order| ==> order[i] !in log
    ensures forall i, j :: |dropped| <= i < j < |order| ==> order[i] < order[j]
  {
    var d := |dropped|;
    assert forall i :: d <= i < |order| ==> order[i] == rest[i - d] && order[i] in rest;
  }

  /** No pipeline row is missing. */
  lemma OrderHasAllRows(log: seq<nat>, pipeline: nat)
    ensures |TracedOrder(log, pipeline)| == pipeline
  {
    OrderIsPermutation(log, pipeline, |DroppedRows(log, pipeline)|);
    DistinctCount(TracedOrder(log, pipeline), pipeline);
  }

  lemma {:induction false} DistinctCount(order: seq<nat>, n: nat)
    requires IsPermutationOf(order, n)
    ensures |order| == n
    decreases n
  {
    assert order != [] ==> order[0] in order;
    if n > 0 {
      assert n - 1 in order;
      var k :| 0 <= k < |order| && order[k] == n - 1;
      var less := order[..k] + order[k + 1..];
      forall r: nat
        ensures r in less <==> r < n - 1
      {
        if r < n - 1 {
          assert r in order;
          var i :| 0 <= i < |order| && order[i] == r;
          assert less[if i < k then i else i - 1] == r;
        }
        if r in less {
          var i :| 0 <= i < |less| && less[i] == r;
          assert order[if i < k then i else i + 1] == r && r in order;
        }
      }
      DistinctCount(less, n - 1);
    }
  }
}
