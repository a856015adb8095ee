/**
 Reference selection of the multi-interval Remez exchange: `_select_references` and `_pick_alternating` of
 `remez_utils.py`.
 */
module References {
  import opened Reals
  import opened Sorting

  /** An error extremum: position, signed error, and peak (+1) or valley (-1). */
  datatype Point = Point(u: real, r: real, mu: int)

  predicate Ascending(ps: seq<Point>) {
    forall i, j :: 0 <= i < j < |ps| ==> ps[i].u < ps[j].u
  }

  predicate Marked(ps: seq<Point>) {
    forall i :: 0 <= i < |ps| ==> ps[i].mu == 1 || ps[i].mu == -1
  }

  predicate Alternating(ps: seq<Point>) {
    forall i :: 0 <= i < |ps| - 1 ==> ps[i].mu != ps[i + 1].mu
  }

  predicate Within(ps: seq<Point>, all: seq<Point>) {
    forall p :: p in ps ==> p in all
  }

  /** Some chosen point is at least as tall as every point of `all`. */
  ghost predicate HoldsTallest(ps: seq<Point>, all: seq<Point>) {
    exists p :: p in ps && Tallest(p, all)
  }

  predicate Tallest(p: Point, all: seq<Point>) {
    forall q :: q in all ==> Abs(q.r) <= Abs(p.r)
  }

  // ----- the alternating skeleton -----

  /** One step of `collapse`. */
  function Absorb(alt: seq<Point>, pt: Point): seq<Point> {
    if alt != [] && alt[|alt| - 1].mu == pt.mu then
      if Abs(pt.r) > Abs(alt[|alt| - 1].r) then alt[|alt| - 1 := pt] else alt
    else alt + [pt]
  }

  function Collapsed(points: seq<Point>): seq<Point> {
    if points == [] then [] else Absorb(Collapsed(points[..|points| - 1]), points[|points| - 1])
  }

  method Collapse(points: seq<Point>) returns (alt: seq<Point>)
    ensures alt == Collapsed(points)
  {
    alt := [];
    for i := 0 to |points|
      invariant alt == Collapsed(points[..i])
    {
      var pt := points[i];
      assert points[..i + 1][..i] == points[..i];
      if alt != [] && alt[|alt| - 1].mu == pt.mu {
        if Abs(pt.r) > Abs(alt[|alt| - 1].r) {
          alt := alt[|alt| - 1 := pt];
        }
      } else {
        alt := alt + [pt];
      }
    }
    assert points[..|points|] == points;
  }

  /** p is taller than q, or equally tall and to the left of it. */
  predicate Preferred(p: Point, q: Point) { Abs(p.r) > Abs(q.r) || (Abs(p.r) == Abs(q.r) && p.u < q.u) }

  /** q stands for p: in the same run of equal marks, and p itself or preferred to it. */
  ghost predicate StandsFor(q: Point, p: Point, all: seq<Point>) {
    (q == p || Preferred(q, p)) && q.mu == p.mu &&
    forall x :: x in all && (p.u < x.u < q.u || q.u < x.u < p.u) ==> x.mu == p.mu
  }

  /** Some chosen point stands for every point of `all`. */
  ghost predicate Covers(ps: seq<Point>, all: seq<Point>) {
    forall p :: p in all ==> exists q :: q in ps && StandsFor(q, p, all)
  }

  /** The last skeleton point belongs to the last run. */
  ghost predicate EndsInLastRun(alt: seq<Point>, all: seq<Point>) {
    forall x :: x in all ==> alt != [] && (x.u >= alt[|alt| - 1].u ==> x.mu == alt[|alt| - 1].mu)
  }

  lemma AbsorbKeepsShape(alt: seq<Point>, pt: Point)
    requires Alternating(alt) && Ascending(alt) && forall q :: q in alt ==> q.u < pt.u
    ensures Alternating(Absorb(alt, pt)) && Ascending(Absorb(alt, pt))
  {
    assert forall i :: 0 <= i < |alt| ==> alt[i] in alt;
  }

  /** A later point cannot lie between two earlier ones. */
  lemma StillStandsFor(q: Point, p: Point, rest: seq<Point>, pt: Point)
    requires StandsFor(q, p, rest) && p.u < pt.u && q.u < pt.u
    ensures StandsFor(q, p, rest + [pt])
  {}

  /** A later and taller point of the same mark takes over what the last skeleton point stands for. */
  lemma TakesOver(alt: seq<Point>, p: Point, rest: seq<Point>, pt: Point)
    requires EndsInLastRun(alt, rest) && p in rest && p.u < pt.u && alt != []
    requires var last := alt[|alt| - 1];
      StandsFor(last, p, rest) && last in rest && last.mu == pt.mu && Abs(pt.r) > Abs(last.r)
    ensures StandsFor(pt, p, rest + [pt])
  {}

  /** A new point is stood for by the new end of the skeleton. */
  lemma EndStandsFor(alt: seq<Point>, pt: Point, rest: seq<Point>)
    requires EndsInLastRun(alt, rest) && (forall p :: p in rest ==> p.u < pt.u) && (forall p :: p in alt ==> p.u < pt.u)
    ensures var now := Absorb(alt, pt); StandsFor(now[|now| - 1], pt, rest + [pt]) && EndsInLastRun(now, rest + [pt])
  {
    if alt != [] { assert alt[|alt| - 1] in alt; }
  }

  lemma StillCovered(alt: seq<Point>, pt: Point, rest: seq<Point>, p: Point) returns (q: Point)
    requires Covers(alt, rest) && EndsInLastRun(alt, rest) && Within(alt, rest)
    requires p in rest && forall x :: x in rest ==> x.u < pt.u
    ensures q in Absorb(alt, pt) && StandsFor(q, p, rest + [pt])
  {
    hide StandsFor, EndsInLastRun, Preferred, Abs;
    q :| q in alt && StandsFor(q, p, rest);
    StillStandsFor(q, p, rest, pt);
    var i :| 0 <= i < |alt| && alt[i] == q;
    if Absorb(alt, pt)[i] != q {
      TakesOver(alt, p, rest, pt);
      q := pt;
    }
    assert Absorb(alt, pt)[i] == q;
  }

  lemma AbsorbCovers(alt: seq<Point>, pt: Point, rest: seq<Point>)
    requires Covers(alt, rest) && EndsInLastRun(alt, rest) && Within(alt, rest)
    requires forall p :: p in rest ==> p.u < pt.u
    ensures Covers(Absorb(alt, pt), rest + [pt]) && EndsInLastRun(Absorb(alt, pt), rest + [pt])
  {
    var now := Absorb(alt, pt);
    EndStandsFor(alt, pt, rest);
    hide StandsFor, EndsInLastRun, Preferred, Abs;
    forall p | p in rest + [pt]
      ensures exists q :: q in now && StandsFor(q, p, rest + [pt])
    {
      if p in rest {
        var q := StillCovered(alt, pt, rest, p);
      } else {
        assert now[|now| - 1] in now;
      }
    }
  }

  lemma EarlierPoints(points: seq<Point>, p: nat)
    requires Ascending(points) && p < |points|
    ensures forall q :: q in points[..p] ==> q.u < points[p].u
  {
    forall q | q in points[..p]
      ensures q.u < points[p].u
    {
      var k :| 0 <= k < p && points[..p][k] == q;
      assert points[k] == q;
    }
  }

  /** The skeleton alternates, keeps the order, and takes only given points. */
  lemma {:induction false} CollapsedSkeleton(points: seq<Point>)
    requires Ascending(points)
    ensures var alt := Collapsed(points);
      Alternating(alt) && Ascending(alt) && Within(alt, points) && |alt| <= |points| && (points != [] ==> alt != [])
    decreases |points|
  {
    if points != [] {
      var p := |points| - 1;
      CollapsedSkeleton(points[..p]);
      assert points == points[..p] + [points[p]];
      EarlierPoints(points, p);
      AbsorbKeepsShape(Collapsed(points[..p]), points[p]);
    }
  }

  /** For every point the skeleton has the tallest of its run, the leftmost one among equally tall. */
  lemma {:induction false} CollapsedCovers(points: seq<Point>)
    requires Ascending(points)
    ensures Covers(Collapsed(points), points) && EndsInLastRun(Collapsed(points), points)
    decreases |points|
  {
    if points != [] {
      var p := |points| - 1;
      CollapsedCovers(points[..p]);
      assert points == points[..p] + [points[p]];
      EarlierPoints(points, p);
      CollapsedSkeleton(points[..p]);
      AbsorbCovers(Collapsed(points[..p]), points[p], points[..p]);
    }
  }

  lemma {:induction false} SomeTallest(all: seq<Point>) returns (p: Point)
    requires all != []
    ensures p in all && Tallest(p, all)
    decreases |all|
  {
    var k := |all| - 1;
    p := all[k];
    assert all == all[..k] + [all[k]];
    if k > 0 {
      var q := SomeTallest(all[..k]);
      if Abs(q.r) > Abs(p.r) { p := q; }
    }
  }

  /** The tallest skeleton point is a tallest of all points. */
  lemma SkeletonTallest(points: seq<Point>, p: Point)
    requires Ascending(points) && p in Collapsed(points) && Tallest(p, Collapsed(points))
    ensures Tallest(p, points)
  {
    CollapsedCovers(points);
  }

  // ----- trimming -----

  /** The least |r| sum first, then the smaller index; -1 is the pair of both ends. */
  predicate PairLe(a: (real, int), b: (real, int)) {
    a.0 < b.0 || (a.0 == b.0 && a.1 <= b.1)
  }

  function PairSum(alt: seq<Point>, i: int): real
    requires |alt| >= 2 && -1 <= i < |alt| - 1
  {
    if i == -1 then Abs(alt[0].r) + Abs(alt[|alt| - 1].r) else Abs(alt[i].r) + Abs(alt[i + 1].r)
  }

  function AbsSum(ps: seq<Point>): real {
    if ps == [] then 0.0 else Abs(ps[0].r) + AbsSum(ps[1..])
  }

  lemma {:induction false} AbsSumAppend(a: seq<Point>, b: seq<Point>)
    ensures AbsSum(a + b) == AbsSum(a) + AbsSum(b)
  {
    if a == [] {
      assert a + b == b;
    } else {
      AbsSumAppend(a[1..], b);
      assert (a + b)[1..] == a[1..] + b;
    }
  }

  lemma AbsSumOfTwo(p: Point, q: Point)
    ensures AbsSum([p]) == Abs(p.r) && AbsSum([p, q]) == Abs(p.r) + Abs(q.r)
  {
    assert [p, q][1..] == [q] && [p][1..] == [] && [q][1..] == [];
  }

  function WithoutPair(alt: seq<Point>, i: int): seq<Point>
    requires |alt| >= 2 && -1 <= i < |alt| - 1
  {
    if i == -1 then alt[1..|alt| - 1] else alt[..i] + alt[i + 2..]
  }

  /** The sum of a pair is what the absolute errors lose in all without its two points. */
  lemma PairLoss(alt: seq<Point>, i: int)
    requires |alt| >= 2 && -1 <= i < |alt| - 1
    ensures PairSum(alt, i) == AbsSum(alt) - AbsSum(WithoutPair(alt, i))
  {
    hide AbsSum, Abs;
    var m := |alt| - 1;
    if i == -1 {
      assert alt == [alt[0]] + (alt[1..m] + [alt[m]]);
      AbsSumAppend([alt[0]], alt[1..m] + [alt[m]]);
      AbsSumAppend(alt[1..m], [alt[m]]);
      AbsSumOfTwo(alt[0], alt[m]);
      AbsSumOfTwo(alt[m], alt[0]);
    } else {
      SplitAroundPair(alt, i);
      var pair := [alt[i], alt[i + 1]];
      AbsSumAppend(alt[..i], pair + alt[i + 2..]);
      AbsSumAppend(pair, alt[i + 2..]);
      AbsSumAppend(alt[..i], alt[i + 2..]);
      AbsSumOfTwo(alt[i], alt[i + 1]);
    }
  }

  lemma SplitAroundPair(alt: seq<Point>, i: nat)
    requires i < |alt| - 1
    ensures alt == alt[..i] + ([alt[i], alt[i + 1]] + alt[i + 2..])
  {}

  /** Removal i spares the protected position. */
  predicate Allowed(alt: seq<Point>, i: int, protect: real)
    requires |alt| >= 3 && -1 <= i < |alt| - 1
  {
    if i == -1 then alt[0].u != protect && alt[|alt| - 1].u != protect
    else if i == 0 then alt[0].u != protect
    else if i == |alt| - 2 then alt[|alt| - 1].u != protect
    else alt[i].u != protect && alt[i + 1].u != protect
  }

  /** What removal i leaves: a pair at an end gives up the end point only, an inner pair both points. */
  function Removed(alt: seq<Point>, i: int): seq<Point>
    requires |alt| >= 3 && -1 <= i < |alt| - 1
  {
    if i == -1 then alt[1..|alt| - 1]
    else if i == 0 then alt[1..]
    else if i == |alt| - 2 then alt[..|alt| - 1]
    else alt[..i] + alt[i + 2..]
  }

  /** What stays true while trimming. */
  predicate Trimming(alt: seq<Point>, start: seq<Point>, protect: Point) {
    Ascending(alt) && Within(alt, start) && protect in alt
  }

  predicate Zigzag(ps: seq<Point>) { Alternating(ps) && Marked(ps) }

  lemma SliceKeeps(alt: seq<Point>, a: nat, b: nat)
    requires a <= b <= |alt|
    ensures Ascending(alt) ==> Ascending(alt[a..b])
    ensures Within(alt[a..b], alt)
    ensures Zigzag(alt) ==> Zigzag(alt[a..b])
  {}

  lemma InnerPairKeeps(alt: seq<Point>, i: nat)
    requires 1 <= i < |alt| - 2
    ensures var r := alt[..i] + alt[i + 2..];
      (Ascending(alt) ==> Ascending(r)) && Within(r, alt) && (Zigzag(alt) ==> Zigzag(r))
  {
    var r := alt[..i] + alt[i + 2..];
    assert forall j :: 0 <= j < |r| ==> r[j] == alt[if j < i then j else j + 2];
    if Zigzag(alt) {
      assert alt[i - 1].mu != alt[i].mu && alt[i].mu != alt[i + 1].mu && alt[i + 1].mu != alt[i + 2].mu;
      forall j | 0 <= j < |r| - 1
        ensures r[j].mu != r[j + 1].mu
      {
        if j == i - 1 {
          assert r[j] == alt[i - 1] && r[j + 1] == alt[i + 2];
        } else if j < i - 1 {
          assert r[j] == alt[j] && r[j + 1] == alt[j + 1];
        } else {
          assert r[j] == alt[j + 2] && r[j + 1] == alt[j + 3];
        }
      }
    }
  }

  lemma RemovedKeeps(alt: seq<Point>, i: int)
    requires |alt| >= 3 && -1 <= i < |alt| - 1 && Ascending(alt)
    ensures Ascending(Removed(alt, i)) && Within(Removed(alt, i), alt)
    ensures |alt| - 2 <= |Removed(alt, i)| <= |alt| - 1
    ensures Zigzag(alt) ==> Zigzag(Removed(alt, i))
  {
    var m := |alt|;
    if i == -1 {
      SliceKeeps(alt, 1, m - 1);
    } else if i == 0 {
      SliceKeeps(alt, 1, m);
      assert alt[1..m] == alt[1..];
    } else if i == m - 2 {
      SliceKeeps(alt, 0, m - 1);
      assert alt[0..m - 1] == alt[..m - 1];
    } else {
      InnerPairKeeps(alt, i);
    }
  }

  /** A removal is allowed iff it leaves the protected point. */
  lemma AllowedIff(alt: seq<Point>, i: int, protect: Point)
    requires |alt| >= 3 && -1 <= i < |alt| - 1 && protect in alt && Ascending(alt)
    ensures Allowed(alt, i, protect.u) <==> protect in Removed(alt, i)
  {
    var r, m := Removed(alt, i), |alt|;
    var k :| 0 <= k < m && alt[k] == protect;
    assert forall j :: 0 <= j < m && j != k ==> alt[j].u != protect.u;
    if Allowed(alt, i, protect.u) {
      if i == -1 || i == 0 {
        assert r[k - 1] == protect;
      } else if i == m - 2 || k < i {
        assert r[k] == protect;
      } else {
        assert r[k - 2] == protect;
      }
    } else {
      assert forall j :: 0 <= j < |r| ==> r[j].u != protect.u;
    }
  }

  /** `pairs.sort()`: all removals with their sums, cheapest first. */
  method SortedPairs(alt: seq<Point>) returns (sorted: seq<(real, int)>)
    requires |alt| >= 3
    ensures SortedBy(PairLe, sorted)
    ensures forall p :: p in sorted ==> -1 <= p.1 < |alt| - 1 && p.0 == PairSum(alt, p.1)
    ensures forall j :: -1 <= j < |alt| - 1 ==> (PairSum(alt, j), j) in sorted
  {
    var m := |alt|;
    var pairs := seq(m - 1, k requires 0 <= k < m - 1 => (PairSum(alt, k), k)) + [(PairSum(alt, -1), -1)];
    sorted := Sort(PairLe, pairs);
    forall p | p in sorted
      ensures -1 <= p.1 < m - 1 && p.0 == PairSum(alt, p.1)
    {
      assert p in multiset(sorted) && p in multiset(pairs) && p in pairs;
    }
    forall j | -1 <= j < m - 1
      ensures (PairSum(alt, j), j) in sorted
    {
      assert pairs[if j == -1 then m - 1 else j] == (PairSum(alt, j), j);
      assert (PairSum(alt, j), j) in multiset(pairs) && (PairSum(alt, j), j) in multiset(sorted);
    }
  }

  /** Removal i is allowed, and no allowed removal comes before it in the order of sums and indices. */
  ghost predicate Cheapest(alt: seq<Point>, protect: real, i: int)
    requires |alt| >= 3
  {
    -1 <= i < |alt| - 1 && Allowed(alt, i, protect) &&
    forall j :: -1 <= j < |alt| - 1 && Allowed(alt, j, protect) ==> PairLe((PairSum(alt, i), i), (PairSum(alt, j), j))
  }

  /** What is left after the last removal, that of one end: the protected end stays, else the smaller one goes. */
  function EndRemoved(alt: seq<Point>, protect: real): (r: seq<Point>)
    requires alt != []
    ensures |r| == |alt| - 1
  {
    var m := |alt|;
    if alt[0].u == protect then alt[..m - 1]
    else if alt[m - 1].u == protect || Abs(alt[0].r) <= Abs(alt[m - 1].r) then alt[1..]
    else alt[..m - 1]
  }

  /** Of the unprotected ends the one goes whose removal leaves the larger sum of absolute errors, the first one on a
      tie. */
  lemma EndLoss(alt: seq<Point>, protect: real)
    requires |alt| >= 2 && Ascending(alt)
    ensures var m := |alt| - 1; var r := EndRemoved(alt, protect);
      (r == alt[1..] && alt[0].u != protect && (alt[m].u != protect ==> AbsSum(alt[1..]) >= AbsSum(alt[..m]))) ||
      (r == alt[..m] && alt[m].u != protect && (alt[0].u != protect ==> AbsSum(alt[..m]) > AbsSum(alt[1..])))
  {
    var m := |alt| - 1;
    assert alt == alt[..m] + [alt[m]] && alt == [alt[0]] + alt[1..];
    AbsSumAppend(alt[..m], [alt[m]]);
    AbsSumAppend([alt[0]], alt[1..]);
    AbsSumOfTwo(alt[0], alt[m]);
    AbsSumOfTwo(alt[m], alt[0]);
    hide AbsSum, Abs;
  }

  /** Trimming by cheapest removals, and an end at last, leads from `start` to `end`. */
  ghost predicate TrimsTo(start: seq<Point>, numNodes: nat, protect: real, end: seq<Point>)
    requires numNodes >= 1
    decreases |start|
  {
    if |start| <= numNodes then end == start
    else if |start| == numNodes + 1 then end == EndRemoved(start, protect)
    else exists i :: Cheapest(start, protect, i) && TrimsTo(Removed(start, i), numNodes, protect, end)
  }

  /** The outcome of trimming is unique. */
  lemma {:induction false} TrimsToOne(start: seq<Point>, numNodes: nat, protect: real, a: seq<Point>, b: seq<Point>)
    requires numNodes >= 1 && TrimsTo(start, numNodes, protect, a) && TrimsTo(start, numNodes, protect, b)
    ensures a == b
    decreases |start|
  {
    if |start| > numNodes + 1 {
      var i :| Cheapest(start, protect, i) && TrimsTo(Removed(start, i), numNodes, protect, a);
      var j :| Cheapest(start, protect, j) && TrimsTo(Removed(start, j), numNodes, protect, b);
      assert i == j;
      TrimsToOne(Removed(start, i), numNodes, protect, a, b);
    }
  }

  /** One round of the loop for two or more points too many. The for-else fallback is dead: a removal is always found,
      and it is the cheapest allowed one. */
  method TrimOnce(alt: seq<Point>, protect: Point) returns (r: seq<Point>)
    requires |alt| >= 3 && Ascending(alt) && protect in alt
    ensures exists i :: Cheapest(alt, protect.u, i) && r == Removed(alt, i)
  {
    hide PairSum, SortedBy, Removed;
    var sorted := SortedPairs(alt);
    ghost var escape := if alt[0].u != protect.u then 0 else |alt| - 2;
    assert (PairSum(alt, escape), escape) in sorted;
    ghost var q :| 0 <= q < |sorted| && sorted[q] == (PairSum(alt, escape), escape);
    assert Allowed(alt, escape, protect.u);
    for k := 0 to |sorted|
      invariant k <= q
      invariant forall j :: 0 <= j < k ==> !Allowed(alt, sorted[j].1, protect.u)
    {
      assert sorted[k] in sorted;
      if Allowed(alt, sorted[k].1, protect.u) {
        CheapestAllowed(alt, protect, sorted, k);
        assert Cheapest(alt, protect.u, sorted[k].1);
        return Removed(alt, sorted[k].1);
      }
    }
    assert false; // the for-else branch
    r := alt;
  }

  lemma CheapestAllowed(alt: seq<Point>, protect: Point, sorted: seq<(real, int)>, k: nat)
    requires |alt| >= 3 && k < |sorted| && SortedBy(PairLe, sorted)
    requires forall p :: p in sorted ==> -1 <= p.1 < |alt| - 1 && p.0 == PairSum(alt, p.1)
    requires forall j :: -1 <= j < |alt| - 1 ==> (PairSum(alt, j), j) in sorted
    requires forall j :: 0 <= j < k ==> (assert sorted[j] in sorted; !Allowed(alt, sorted[j].1, protect.u))
    ensures -1 <= sorted[k].1 < |alt| - 1 && sorted[k].0 == PairSum(alt, sorted[k].1)
    ensures forall j :: -1 <= j < |alt| - 1 && Allowed(alt, j, protect.u) ==> PairLe(sorted[k], (PairSum(alt, j), j))
  {
    assert sorted[k] in sorted;
    forall j | -1 <= j < |alt| - 1 && Allowed(alt, j, protect.u)
      ensures PairLe(sorted[k], (PairSum(alt, j), j))
    {
      var q :| 0 <= q < |sorted| && sorted[q] == (PairSum(alt, j), j);
    }
  }

  /** The trimming loop. */
  method Trim(start: seq<Point>, numNodes: nat, protect: Point) returns (alt: seq<Point>)
    requires numNodes >= 1 && |start| >= numNodes && Ascending(start) && protect in start
    ensures |alt| == numNodes && Trimming(alt, start, protect)
    ensures Zigzag(start) ==> Zigzag(alt)
    ensures TrimsTo(start, numNodes, protect.u, alt)
  {
    alt := start;
    while |alt| > numNodes
      invariant |alt| >= numNodes && Trimming(alt, start, protect)
      invariant Zigzag(start) ==> Zigzag(alt)
      invariant forall end :: TrimsTo(alt, numNodes, protect.u, end) ==> TrimsTo(start, numNodes, protect.u, end)
      decreases |alt|
    {
      ghost var before := alt;
      var m := |alt|;
      if m == numNodes + 1 {
        EndRemovedKeeps(alt, protect);
        if alt[0].u == protect.u {
          alt := alt[..m - 1];
        } else if alt[m - 1].u == protect.u {
          alt := alt[1..];
        } else {
          alt := if Abs(alt[0].r) <= Abs(alt[m - 1].r) then alt[1..] else alt[..m - 1];
        }
        assert alt == EndRemoved(before, protect.u);
      } else {
        alt := TrimOnce(alt, protect);
        ghost var i :| Cheapest(before, protect.u, i) && alt == Removed(before, i);
        RemovedKeeps(before, i);
        AllowedIff(before, i, protect);
      }
    }
  }

  lemma EndRemovedKeeps(alt: seq<Point>, protect: Point)
    requires |alt| >= 2 && Ascending(alt) && protect in alt
    ensures var r := EndRemoved(alt, protect.u); Trimming(r, alt, protect) && (Zigzag(alt) ==> Zigzag(r))
  {
    var m := |alt|;
    var k :| 0 <= k < m && alt[k] == protect;
    SliceKeeps(alt, 0, m - 1);
    SliceKeeps(alt, 1, m);
    assert alt[0..m - 1] == alt[..m - 1] && alt[1..m] == alt[1..];
    if k < m - 1 { assert alt[..m - 1][k] == protect; }
    if k > 0 { assert alt[1..][k - 1] == protect; }
  }

  // ----- _select_references -----

  const FRACTIONS: seq<real> := [1.0, 0.5, 0.25, 0.1, 0.0]

  predicate Loud(p: Point, noise: real) { noise <= 0.0 || Abs(p.r) >= noise }

  predicate Kept(p: Point, threshold: real) { p.mu as real * p.r >= threshold }

  function Filter(ps: seq<Point>, keep: Point -> bool): (r: seq<Point>)
    ensures forall p :: p in r <==> p in ps && keep(p)
    ensures |r| <= |ps|
  {
    if ps == [] then []
    else
      var q := |ps| - 1;
      assert ps == ps[..q] + [ps[q]];
      Filter(ps[..q], keep) + if keep(ps[q]) then [ps[q]] else []
  }

  lemma {:induction false} FilterAscending(ps: seq<Point>, keep: Point -> bool)
    requires Ascending(ps)
    ensures Ascending(Filter(ps, keep))
    decreases |ps|
  {
    if ps != [] {
      FilterAscending(ps[..|ps| - 1], keep);
      assert forall p :: p in Filter(ps[..|ps| - 1], keep) ==> p.u < ps[|ps| - 1].u;
    }
  }

  lemma WithinMarked(ps: seq<Point>, all: seq<Point>)
    requires Within(ps, all) && Marked(all)
    ensures Marked(ps)
  {
    forall i | 0 <= i < |ps|
      ensures ps[i].mu == 1 || ps[i].mu == -1
    {
      assert ps[i] in all;
    }
  }

  function LoudPoints(extrema: seq<Point>, noise: real): (r: seq<Point>)
    ensures Within(r, extrema)
  {
    Filter(extrema, p => Loud(p, noise))
  }

  function KeptPoints(loud: seq<Point>, threshold: real): (r: seq<Point>)
    ensures Within(r, loud)
  {
    Filter(loud, p => Kept(p, threshold))
  }

  function KeptAt(extrema: seq<Point>, level: real, noise: real, k: nat): seq<Point>
    requires k < 5
  {
    KeptPoints(LoudPoints(extrema, noise), level * FRACTIONS[k])
  }

  lemma KeptAscend(extrema: seq<Point>, level: real, noise: real, k: nat)
    requires k < 5 && Ascending(extrema) && Marked(extrema)
    ensures var kept := KeptAt(extrema, level, noise, k); Ascending(kept) && Marked(kept) && Within(kept, extrema)
  {
    var loud := LoudPoints(extrema, noise);
    FilterAscending(extrema, p => Loud(p, noise));
    FilterAscending(loud, p => Kept(p, level * FRACTIONS[k]));
    WithinMarked(KeptAt(extrema, level, noise, k), extrema);
  }

  lemma LoudAscend(extrema: seq<Point>, noise: real)
    requires Ascending(extrema) && Marked(extrema)
    ensures Ascending(LoudPoints(extrema, noise)) && Marked(LoudPoints(extrema, noise))
  {
    FilterAscending(extrema, p => Loud(p, noise));
    WithinMarked(LoudPoints(extrema, noise), extrema);
  }

  /** Threshold k keeps enough alternating points. */
  predicate Enough(extrema: seq<Point>, numNodes: nat, level: real, noise: real, k: nat)
    requires k < 5
  {
    |Collapsed(KeptAt(extrema, level, noise, k))| >= numNodes
  }

  /** The first threshold from k on that keeps enough, or 5. */
  function FirstEnough(extrema: seq<Point>, numNodes: nat, level: real, noise: real, k: nat): (r: nat)
    requires k <= 5
    ensures k <= r <= 5
    decreases 5 - k
  {
    if k == 5 || Enough(extrema, numNodes, level, noise, k) then k
    else FirstEnough(extrema, numNodes, level, noise, k + 1)
  }

  // ----- what the thresholds mean -----

  /** The local-extreme-value condition and the noise floor. */
  predicate Meets(ps: seq<Point>, bound: real, noise: real) {
    forall p :: p in ps ==> p.mu as real * p.r >= bound && (noise > 0.0 ==> Abs(p.r) >= noise)
  }

  /** Some numNodes of the extrema alternate, in position order, and meet the bound. */
  ghost predicate Selectable(extrema: seq<Point>, numNodes: nat, bound: real, noise: real) {
    exists s :: |s| == numNodes && Ascending(s) && Alternating(s) && Within(s, extrema) && Meets(s, bound, noise)
  }

  /** The level, half, a quarter and a tenth of it, and nothing. */
  function Bounds(level: real): seq<real> { [level, level / 2.0, level / 4.0, level / 10.0, 0.0] }

  lemma KeptMembers(extrema: seq<Point>, level: real, noise: real, k: nat, p: Point)
    requires k < 5
    ensures p in KeptAt(extrema, level, noise, k) <==>
      p in extrema && p.mu as real * p.r >= Bounds(level)[k] && (noise > 0.0 ==> Abs(p.r) >= noise)
  {
    BoundIs(level, k);
    InKept(LoudPoints(extrema, noise), level * FRACTIONS[k], p);
    hide Bounds, KeptPoints;
  }

  lemma InKept(loud: seq<Point>, bound: real, p: Point)
    ensures p in KeptPoints(loud, bound) <==> p in loud && p.mu as real * p.r >= bound
  {}

  lemma BoundIs(level: real, k: nat)
    requires k < 5
    ensures level * FRACTIONS[k] == Bounds(level)[k]
  {}

  predicate AtLeast(ps: seq<Point>, noise: real) { forall p :: p in ps ==> Abs(p.r) >= noise }

  lemma LoudOnly(ps: seq<Point>, extrema: seq<Point>, noise: real)
    requires Within(ps, LoudPoints(extrema, noise)) && noise > 0.0
    ensures AtLeast(ps, noise)
  {
    forall p | p in ps
      ensures Abs(p.r) >= noise
    {
      LoudMembers(extrema, noise, p);
    }
  }

  lemma LoudMembers(extrema: seq<Point>, noise: real, p: Point)
    ensures p in LoudPoints(extrema, noise) <==> p in extrema && (noise > 0.0 ==> Abs(p.r) >= noise)
  {}

  /** No alternating selection is longer than the skeleton, and one of its length ends with the same mark. */
  lemma {:induction false} SkeletonIsLongest(points: seq<Point>, s: seq<Point>)
    requires Ascending(points) && Ascending(s) && Alternating(s) && Within(s, points)
    ensures var alt := Collapsed(points);
      |s| <= |alt| && (s != [] && |s| == |alt| ==> s[|s| - 1].mu == alt[|alt| - 1].mu)
    decreases |points|
  {
    if points == [] {
      WithinNothing(s);
    } else {
      var p, last := |points| - 1, points[|points| - 1];
      assert points == points[..p] + [last];
      EarlierAscend(points, p);
      AbsorbLast(Collapsed(points[..p]), last);
      if s != [] && s[|s| - 1] == last {
        SelectionFront(points, s);
        SkeletonIsLongest(points[..p], s[..|s| - 1]);
        assert |s| >= 2 ==> s[|s| - 2].mu != s[|s| - 2 + 1].mu;
      } else {
        SelectionEarlier(points, s);
        SkeletonIsLongest(points[..p], s);
      }
      hide Ascending, Alternating, Within, Absorb;
    }
  }

  lemma WithinNothing(s: seq<Point>)
    requires Within(s, [])
    ensures s == []
  {
    forall p
      ensures p !in multiset(s)
    {
      assert p in multiset(s) ==> p in s;
    }
    assert multiset(s) == multiset{} && |s| == |multiset(s)|;
  }

  lemma AbsorbLast(alt: seq<Point>, pt: Point)
    ensures var now := Absorb(alt, pt);
      |now| == |alt| + (if alt != [] && alt[|alt| - 1].mu == pt.mu then 0 else 1) && now[|now| - 1].mu == pt.mu
  {}

  lemma EarlierAscend(points: seq<Point>, p: nat)
    requires Ascending(points) && p <= |points|
    ensures Ascending(points[..p])
  {}

  /** Without the last point, or with it taken off, a selection is one of the earlier points. */
  lemma SelectionEarlier(points: seq<Point>, s: seq<Point>)
    requires points != [] && Ascending(points) && Ascending(s) && Within(s, points)
    requires s == [] || s[|s| - 1] != points[|points| - 1]
    ensures Within(s, points[..|points| - 1])
  {
    var p := |points| - 1;
    forall q | q in s
      ensures q in points[..p]
    {
      var i :| 0 <= i < |s| && s[i] == q;
      var e := s[|s| - 1];
      assert e in s && e in points;
      assert points == points[..p] + [points[p]];
    }
  }

  lemma SelectionFront(points: seq<Point>, s: seq<Point>)
    requires points != [] && Ascending(points) && Ascending(s) && Alternating(s) && Within(s, points)
    requires s != [] && s[|s| - 1] == points[|points| - 1]
    ensures Ascending(s[..|s| - 1]) && Alternating(s[..|s| - 1]) && Within(s[..|s| - 1], points[..|points| - 1])
  {
    var p, n := |points| - 1, |s| - 1;
    forall q | q in s[..n]
      ensures q in points[..p]
    {
      var i :| 0 <= i < n && s[i] == q;
      assert q in s && q in points && q.u < s[n].u;
      assert points == points[..p] + [points[p]];
    }
  }

  /** A threshold keeps enough iff some selection meets it. */
  lemma EnoughIff(extrema: seq<Point>, numNodes: nat, level: real, noise: real, k: nat)
    requires k < 5 && Ascending(extrema) && Marked(extrema)
    ensures Enough(extrema, numNodes, level, noise, k) <==> Selectable(extrema, numNodes, Bounds(level)[k], noise)
  {
    var kept, bound := KeptAt(extrema, level, noise, k), Bounds(level)[k];
    KeptAscend(extrema, level, noise, k);
    forall p
      ensures p in kept <==> p in extrema && p.mu as real * p.r >= bound && (noise > 0.0 ==> Abs(p.r) >= noise)
    {
      KeptMembers(extrema, level, noise, k, p);
    }
    if Enough(extrema, numNodes, level, noise, k) {
      CollapsedSkeleton(kept);
      FirstOfSkeleton(Collapsed(kept), kept, extrema, numNodes, bound, noise);
    }
    if Selectable(extrema, numNodes, bound, noise) {
      var s :| |s| == numNodes && Ascending(s) && Alternating(s) && Within(s, extrema) && Meets(s, bound, noise);
      assert Within(s, kept);
      SkeletonIsLongest(kept, s);
    }
  }

  lemma FirstOfSkeleton(alt: seq<Point>, kept: seq<Point>, extrema: seq<Point>, numNodes: nat, bound: real, noise: real)
    requires |alt| >= numNodes && Ascending(alt) && Alternating(alt) && Within(alt, kept)
    requires Within(kept, extrema) && Meets(kept, bound, noise)
    ensures Selectable(extrema, numNodes, bound, noise)
  {
    var s := alt[..numNodes];
    assert forall p :: p in s ==> p in alt;
    assert |s| == numNodes && Ascending(s) && Alternating(s) && Within(s, extrema) && Meets(s, bound, noise);
  }

  /** The threshold that is used is the first that some alternating selection meets. */
  lemma {:induction false} FirstSufficient(extrema: seq<Point>, numNodes: nat, level: real, noise: real, k: nat)
    requires Ascending(extrema) && Marked(extrema) && k <= 5
    ensures var first := FirstEnough(extrema, numNodes, level, noise, k);
      (forall j :: k <= j < first ==> !Selectable(extrema, numNodes, Bounds(level)[j], noise)) &&
      (first < 5 ==> Selectable(extrema, numNodes, Bounds(level)[first], noise))
    decreases 5 - k
  {
    if k < 5 {
      EnoughIff(extrema, numNodes, level, noise, k);
      FirstSufficient(extrema, numNodes, level, noise, k + 1);
    }
  }

  /** Errors of marked points above a positive bound have the sign of the mark. */
  lemma SignsFollowMarks(ps: seq<Point>, bound: real, noise: real)
    requires Marked(ps) && Alternating(ps) && Meets(ps, bound, noise) && bound > 0.0
    ensures SignsAlternate(ps)
  {
    forall i | 0 <= i < |ps| - 1
      ensures (ps[i].r > 0.0) != (ps[i + 1].r > 0.0)
    {
      assert ps[i] in ps && ps[i + 1] in ps;
    }
  }

  /** `_select_references` on position-sorted extrema at distinct positions. Whatever the thresholds do, the result has
      the right size and is above the noise; and with the first threshold that an alternating selection of that size
      meets, the result alternates, meets it, and contains the tallest point that it keeps. */
  method SelectReferences(extrema: seq<Point>, numNodes: nat, level: real, noise: real) returns (alt: seq<Point>)
    requires numNodes >= 1 && Ascending(extrema) && Marked(extrema)
    ensures Ascending(alt) && Within(alt, extrema)
    ensures var loud := LoudPoints(extrema, noise); |alt| == if |loud| < numNodes then |loud| else numNodes
    ensures var k := FirstEnough(extrema, numNodes, level, noise, 0);
      k < 5 ==> |alt| == numNodes && Alternating(alt) && HoldsTallest(alt, KeptAt(extrema, level, noise, k))
    ensures var k := FirstEnough(extrema, numNodes, level, noise, 0);
      if k < 5 then TrimmedSkeleton(Collapsed(KeptAt(extrema, level, noise, k)), numNodes, alt)
      else FromSkeleton(Collapsed(LoudPoints(extrema, noise)), LoudPoints(extrema, noise), numNodes, alt)
    ensures noise > 0.0 ==> AtLeast(alt, noise)
    ensures var k := FirstEnough(extrema, numNodes, level, noise, 0);
      (forall j :: 0 <= j < k ==> !Selectable(extrema, numNodes, Bounds(level)[j], noise)) &&
      (k < 5 ==> Meets(alt, Bounds(level)[k], noise) && (Bounds(level)[k] > 0.0 ==> SignsAlternate(alt)))
  {
    hide Ascending, Alternating, Marked, Within, Selectable, Meets, Bounds, LoudPoints, KeptAt, Collapsed, Padded,
      HoldsTallest, TrimmedSkeleton, SignsAlternate;
    FirstSufficient(extrema, numNodes, level, noise, 0);
    for k := 0 to 5
      invariant FirstEnough(extrema, numNodes, level, noise, 0) == FirstEnough(extrema, numNodes, level, noise, k)
    {
      var kept := KeptAt(extrema, level, noise, k);
      var cand := Collapse(kept);
      if |cand| >= numNodes {
        KeptAscend(extrema, level, noise, k);
        KeptAtMost(extrema, level, noise, k, numNodes);
        alt := FinishTrim(cand, kept, numNodes);
        KeptMeets(extrema, level, noise, k, alt);
        WithinTwice(alt, kept, extrema);
        return;
      }
    }
    LoudAscend(extrema, noise);
    alt := WithoutThreshold(LoudPoints(extrema, noise), numNodes);
    WithinTwice(alt, LoudPoints(extrema, noise), extrema);
    if noise > 0.0 { LoudOnly(alt, extrema, noise); }
  }

  lemma WithinTwice(a: seq<Point>, b: seq<Point>, c: seq<Point>)
    requires Within(a, b) && Within(b, c)
    ensures Within(a, c)
  {}

  lemma KeptMeets(extrema: seq<Point>, level: real, noise: real, k: nat, alt: seq<Point>)
    requires k < 5 && Ascending(extrema) && Marked(extrema) && Within(alt, KeptAt(extrema, level, noise, k))
    requires Alternating(alt)
    ensures Meets(alt, Bounds(level)[k], noise) && (Bounds(level)[k] > 0.0 ==> SignsAlternate(alt))
    ensures noise > 0.0 ==> AtLeast(alt, noise)
  {
    KeptAscend(extrema, level, noise, k);
    WithinMarked(alt, KeptAt(extrema, level, noise, k));
    forall p | p in alt
      ensures p.mu as real * p.r >= Bounds(level)[k] && (noise > 0.0 ==> Abs(p.r) >= noise)
    {
      KeptMembers(extrema, level, noise, k, p);
    }
    if Bounds(level)[k] > 0.0 { SignsFollowMarks(alt, Bounds(level)[k], noise); }
  }

  lemma KeptAtMost(extrema: seq<Point>, level: real, noise: real, k: nat, numNodes: nat)
    requires k < 5 && Ascending(extrema) && Marked(extrema) && Enough(extrema, numNodes, level, noise, k)
    ensures |LoudPoints(extrema, noise)| >= numNodes
  {
    KeptAscend(extrema, level, noise, k);
    CollapsedSkeleton(KeptAt(extrema, level, noise, k));
  }

  /** A long enough skeleton trimmed, a short one padded. */
  ghost predicate FromSkeleton(cand: seq<Point>, extrema: seq<Point>, numNodes: nat, alt: seq<Point>)
    requires numNodes >= 1
  {
    if |cand| >= numNodes then TrimmedSkeleton(cand, numNodes, alt) else Padded(cand, extrema, alt)
  }

  /** No threshold kept enough: the skeleton of all extrema, padded if it is short. */
  method WithoutThreshold(extrema: seq<Point>, numNodes: nat) returns (alt: seq<Point>)
    requires numNodes >= 1 && Ascending(extrema) && Marked(extrema)
    ensures Ascending(alt) && Within(alt, extrema) && |alt| == if |extrema| < numNodes then |extrema| else numNodes
    ensures FromSkeleton(Collapsed(extrema), extrema, numNodes, alt)
  {
    alt := Collapse(extrema);
    CollapsedSkeleton(extrema);
    if |alt| < numNodes {
      alt := Pad(alt, extrema, numNodes);
    } else {
      alt := FinishTrim(alt, extrema, numNodes);
    }
  }

  /** The first tallest point of a non-empty list. */
  method FirstTallest(cand: seq<Point>) returns (protect: Point)
    requires cand != []
    ensures IsFirstTallest(protect, cand) && Tallest(protect, cand)
  {
    protect := cand[0];
    ghost var at: nat := 0;
    for k := 0 to |cand|
      invariant at < |cand| && cand[at] == protect && forall j :: 0 <= j < k ==> Abs(cand[j].r) <= Abs(protect.r)
      invariant forall j :: 0 <= j < at ==> Abs(cand[j].r) < Abs(protect.r)
    {
      if Abs(cand[k].r) > Abs(protect.r) {
        protect := cand[k];
        at := k;
      }
    }
    assert TallestAt(protect, cand, at);
  }

  predicate TallestAt(p: Point, cand: seq<Point>, at: nat) {
    at < |cand| && cand[at] == p && (forall j :: 0 <= j < at ==> Abs(cand[j].r) < Abs(p.r)) &&
    forall j :: at <= j < |cand| ==> Abs(cand[j].r) <= Abs(p.r)
  }

  ghost predicate IsFirstTallest(p: Point, cand: seq<Point>) {
    exists at :: TallestAt(p, cand, at)
  }

  /** The skeleton `cand` trimmed with its first tallest point protected. */
  ghost predicate TrimmedSkeleton(cand: seq<Point>, numNodes: nat, alt: seq<Point>)
    requires numNodes >= 1
  {
    exists p :: IsFirstTallest(p, cand) && TrimsTo(cand, numNodes, p.u, alt)
  }

  /** Protect the first tallest skeleton point, and trim. */
  method FinishTrim(cand: seq<Point>, kept: seq<Point>, numNodes: nat) returns (alt: seq<Point>)
    requires numNodes >= 1 && |cand| >= numNodes && Ascending(kept) && cand == Collapsed(kept) && Marked(kept)
    ensures |alt| == numNodes && Ascending(alt) && Within(alt, kept) && Alternating(alt) && HoldsTallest(alt, kept)
    ensures TrimmedSkeleton(cand, numNodes, alt)
  {
    CollapsedSkeleton(kept);
    WithinMarked(cand, kept);
    var protect := FirstTallest(cand);
    SkeletonTallest(kept, protect);
    alt := Trim(cand, numNodes, protect);
  }

  // ----- padding a short skeleton -----

  predicate TallerFirst(a: Point, b: Point) { Abs(a.r) >= Abs(b.r) }

  predicate Earlier(a: Point, b: Point) { a.u <= b.u }

  ghost predicate Once(m: multiset<Point>) {
    forall p :: m[p] <= 1
  }

  lemma {:induction false} AscendingOnce(ps: seq<Point>)
    requires Ascending(ps)
    ensures Once(multiset(ps))
    decreases |ps|
  {
    if ps != [] {
      var k := |ps| - 1;
      AscendingOnce(ps[..k]);
      assert ps == ps[..k] + [ps[k]];
      OnceMore(multiset(ps[..k]), ps[k]);
    }
  }

  lemma OnceMore(m: multiset<Point>, p: Point)
    requires Once(m) && p !in m
    ensures Once(m + multiset{p})
  {}

  lemma {:induction false} AscendingSize(ps: seq<Point>)
    requires Ascending(ps)
    ensures |set p | p in ps| == |ps|
    decreases |ps|
  {
    if ps != [] {
      var k := |ps| - 1;
      AscendingSize(ps[..k]);
      assert ps == ps[..k] + [ps[k]];
      LastIsLater(ps, k);
      OneMorePoint(ps[..k], ps[k]);
    }
  }

  lemma LastIsLater(ps: seq<Point>, k: nat)
    requires Ascending(ps) && k < |ps|
    ensures ps[k] !in ps[..k]
  {}

  lemma OneMorePoint(ps: seq<Point>, q: Point)
    requires q !in ps
    ensures |set p | p in ps + [q]| == |set p | p in ps| + 1
  {
    assert (set p | p in ps + [q]) == (set p | p in ps) + {q};
  }

  lemma LeftoverCount(alt: seq<Point>, extrema: seq<Point>, left: seq<Point>)
    requires Ascending(extrema) && Ascending(alt) && Within(alt, extrema) && Ascending(left)
    requires forall p :: p in left <==> p in extrema && p !in alt
    ensures |left| == |extrema| - |alt|
  {
    AscendingSize(alt);
    AscendingSize(extrema);
    AscendingSize(left);
    var a, e, l := set p | p in alt, set p | p in extrema, set p | p in left;
    assert l == e - a && a <= e;
  }

  lemma TwoPlaces(r: seq<Point>, i: nat, j: nat)
    requires i < j < |r| && r[i] == r[j]
    ensures multiset(r)[r[i]] >= 2
  {
    assert r == r[..i] + [r[i]] + r[i + 1..j] + [r[j]] + r[j + 1..];
  }

  /** Sorting distinct extrema by position gives them in strictly increasing position. */
  lemma SortedOnceAscends(r: seq<Point>, extrema: seq<Point>)
    requires SortedBy(Earlier, r) && Once(multiset(r)) && Within(r, extrema) && Ascending(extrema)
    ensures Ascending(r)
  {
    forall i: nat, j: nat | i < j < |r|
      ensures r[i].u < r[j].u
    {
      if r[i].u == r[j].u {
        assert r[i] in extrema && r[j] in extrema;
        TwoPlaces(r, i, j);
      }
    }
  }

  lemma JoinedOnce(alt: seq<Point>, left: seq<Point>, extra: seq<Point>, n: nat)
    requires Ascending(alt) && Ascending(left) && multiset(extra) == multiset(left) && n <= |extra|
    requires forall p :: p in left ==> p !in alt
    ensures Once(multiset(alt + extra[..n]))
    ensures forall p :: p in extra[..n] ==> p in left
  {
    AscendingOnce(alt);
    AscendingOnce(left);
    assert extra == extra[..n] + extra[n..];
    assert multiset(extra[..n]) <= multiset(left);
    forall p | p in extra[..n]
      ensures p in left
    {
      assert p in multiset(extra[..n]) && p in multiset(left);
    }
    forall p
      ensures multiset(alt + extra[..n])[p] <= 1
    {
      if p in extra[..n] {
        assert p !in alt && p !in multiset(alt);
      } else {
        assert p !in multiset(extra[..n]);
      }
    }
  }

  /** r holds the whole skeleton, and every point added to it is preferred to every point left out. */
  ghost predicate Padded(alt: seq<Point>, extrema: seq<Point>, r: seq<Point>) {
    Within(alt, r) && forall q, p :: q in extrema && q !in r && p in r && p !in alt ==> Preferred(p, q)
  }

  lemma LaterPoints(ps: seq<Point>, rest: seq<Point>)
    requires ps != [] && Ascending(ps) && forall p :: p in rest ==> p in ps[1..]
    ensures forall p :: p in rest ==> p in ps && ps[0].u < p.u
  {
    forall p | p in rest
      ensures p in ps && ps[0].u < p.u
    {
      var k :| 0 <= k < |ps[1..]| && ps[1..][k] == p;
      assert p == ps[k + 1];
    }
  }

  lemma {:induction false} ClassAscends(le: (Point, Point) -> bool, ps: seq<Point>, x: Point)
    requires Ascending(ps)
    ensures Ascending(Class(le, ps, x)) && forall p :: p in Class(le, ps, x) ==> p in ps
  {
    hide *;
    if ps == [] {
      ClassOfNothing(le, x);
    } else {
      TailAscends(ps);
      ClassAscends(le, ps[1..], x);
      LaterPoints(ps, Class(le, ps[1..], x));
      ConsAscends(ps[0], Class(le, ps[1..], x));
      ClassFirst(le, ps, x);
    }
  }

  lemma ClassOfNothing(le: (Point, Point) -> bool, x: Point)
    ensures Class(le, [], x) == [] && Ascending([])
  {}

  lemma TailAscends(ps: seq<Point>)
    requires Ascending(ps) && ps != []
    ensures Ascending(ps[1..])
  {}

  lemma ClassFirst(le: (Point, Point) -> bool, ps: seq<Point>, x: Point)
    requires ps != []
    ensures var rest := Class(le, ps[1..], x); Class(le, ps, x) == rest || Class(le, ps, x) == [ps[0]] + rest
  {}

  lemma ConsAscends(p: Point, ps: seq<Point>)
    requires Ascending(ps) && forall q :: q in ps ==> p.u < q.u
    ensures Ascending([p] + ps)
  {
    forall i: nat, j: nat | i < j < |ps| + 1
      ensures ([p] + ps)[i].u < ([p] + ps)[j].u
    {
      assert ps[j - 1] in ps;
    }
  }

  /** The stable sort by height keeps equally tall leftovers in position order. */
  lemma SortedPrefers(left: seq<Point>, extra: seq<Point>, i: nat, j: nat)
    requires Ascending(left) && SortedBy(TallerFirst, extra) && Stable(TallerFirst, left, extra) && i < j < |extra|
    ensures Preferred(extra[i], extra[j])
  {
    var p, q := extra[i], extra[j];
    assert TallerFirst(p, q);
    if Abs(p.r) == Abs(q.r) {
      ClassSplit(TallerFirst, extra, j);
      InClass(TallerFirst, extra[..j], i, q);
      ClassAscends(TallerFirst, left, q);
      var before := Class(TallerFirst, extra[..j], q);
      var k :| 0 <= k < |before| && before[k] == p;
      var all := Class(TallerFirst, left, q);
      assert all == Class(TallerFirst, extra, q);
      assert all[k] == p && all[|before|] == q;
    }
  }

  /** Fill a short skeleton with the tallest leftover extrema, the leftmost ones among equally tall, in position
      order. */
  method Pad(alt: seq<Point>, extrema: seq<Point>, numNodes: nat) returns (r: seq<Point>)
    requires |alt| < numNodes && Ascending(extrema) && Ascending(alt) && Within(alt, extrema)
    ensures Ascending(r) && Within(r, extrema) && |r| == if |extrema| < numNodes then |extrema| else numNodes
    ensures Padded(alt, extrema, r)
  {
    var left := Filter(extrema, p => p !in alt);
    FilterAscending(extrema, p => p !in alt);
    var extra := Sort(TallerFirst, left);
    LeftoverCount(alt, extrema, left);
    assert |extra| == |multiset(extra)| == |multiset(left)| == |left|;
    var n: nat := numNodes - |alt|;
    if n > |extra| {
      n := |extra|;
    }
    var joined := alt + extra[..n];
    r := Sort(Earlier, joined);
    JoinedOnce(alt, left, extra, n);
    assert |r| == |multiset(r)| == |multiset(joined)| == |joined|;
    forall p | p in r
      ensures p in extrema
    {
      assert p in multiset(r) && p in multiset(joined) && p in joined;
    }
    SortedOnceAscends(r, extrema);
    PadsWithTallest(alt, extrema, left, extra, n, joined, r);
  }

  lemma PadsWithTallest(alt: seq<Point>, extrema: seq<Point>, left: seq<Point>, extra: seq<Point>, n: nat,
          joined: seq<Point>, r: seq<Point>)
    requires n <= |extra| && joined == alt + extra[..n] && multiset(r) == multiset(joined)
    requires SortedBy(TallerFirst, extra) && multiset(extra) == multiset(left)
    requires Ascending(left) && Stable(TallerFirst, left, extra)
    requires forall p :: p in left <==> p in extrema && p !in alt
    ensures Padded(alt, extrema, r)
  {
    forall p
      ensures p in r <==> p in joined
    {
      assert p in r <==> p in multiset(r);
      assert p in joined <==> p in multiset(joined);
    }
    forall k | 0 <= k < n
      ensures extra[k] in r
    {
      assert extra[..n][k] == extra[k];
    }
    forall q, p | q in extrema && q !in r && p in r && p !in alt
      ensures Preferred(p, q)
    {
      assert q in multiset(left) && q in multiset(extra);
      var j :| 0 <= j < |extra| && extra[j] == q;
      var i :| 0 <= i < n && extra[..n][i] == p;
      SortedPrefers(left, extra, i, j);
    }
  }

  // ----- _pick_alternating -----

  /** The non-zero errors, marked by sign. */
  function Signed(candidates: seq<(real, real)>): (r: seq<Point>)
    ensures |r| <= |candidates|
  {
    if candidates == [] then []
    else
      var k := |candidates| - 1;
      var (u, err) := candidates[k];
      Signed(candidates[..k]) + if err == 0.0 then [] else [Point(u, err, if err > 0.0 then 1 else -1)]
  }

  predicate PositionSorted(candidates: seq<(real, real)>) {
    forall i, j :: 0 <= i < j < |candidates| ==> candidates[i].0 < candidates[j].0
  }

  /** The signed points are exactly the candidates with a non-zero error. */
  lemma {:induction false} InSigned(candidates: seq<(real, real)>, p: Point)
    ensures p in Signed(candidates) <==> (p.u, p.r) in candidates && p.r != 0.0 && p.mu == SignOf(p.r)
    decreases |candidates|
  {
    if candidates != [] {
      var k := |candidates| - 1;
      InSigned(candidates[..k], p);
      assert candidates == candidates[..k] + [candidates[k]];
      var (u, err) := candidates[k];
      assert p == Point(p.u, p.r, p.mu) && candidates[k] == (u, err);
      assert err != 0.0 ==> Signed(candidates) == Signed(candidates[..k]) + [Point(u, err, SignOf(err))];
    }
  }

  lemma {:induction false} SignedAscends(candidates: seq<(real, real)>)
    requires PositionSorted(candidates)
    ensures Ascending(Signed(candidates))
    decreases |candidates|
  {
    if candidates != [] {
      var k := |candidates| - 1;
      SignedAscends(candidates[..k]);
      forall i | 0 <= i < |Signed(candidates[..k])|
        ensures Signed(candidates[..k])[i].u < candidates[k].0
      {
        InSigned(candidates[..k], Signed(candidates[..k])[i]);
      }
    }
  }

  lemma SignedFacts(candidates: seq<(real, real)>)
    requires PositionSorted(candidates)
    ensures Ascending(Signed(candidates)) && Marked(Signed(candidates))
    ensures forall p :: p in Signed(candidates) ==> (p.u, p.r) in candidates && p.r != 0.0 && (p.r > 0.0 <==> p.mu == 1)
    ensures forall c :: c in candidates && c.1 != 0.0 ==>
      Point(c.0, c.1, if c.1 > 0.0 then 1 else -1) in Signed(candidates)
  {
    SignedAscends(candidates);
    forall p | p in Signed(candidates)
      ensures (p.u, p.r) in candidates && p.r != 0.0 && p.mu == SignOf(p.r)
    {
      InSigned(candidates, p);
    }
    forall c | c in candidates && c.1 != 0.0
      ensures Point(c.0, c.1, SignOf(c.1)) in Signed(candidates)
    {
      InSigned(candidates, Point(c.0, c.1, SignOf(c.1)));
    }
    forall i | 0 <= i < |Signed(candidates)|
      ensures Signed(candidates)[i].mu == 1 || Signed(candidates)[i].mu == -1
    {
      InSigned(candidates, Signed(candidates)[i]);
    }
  }

  /** `_pick_alternating` on position-sorted candidates: runs of one sign become their tallest member, then the smaller
      end is dropped until num_nodes remain. Signs alternate and a tallest error survives. */
  method PickAlternating(candidates: seq<(real, real)>, numNodes: nat) returns (runs: seq<Point>)
    requires PositionSorted(candidates)
    ensures var all := Collapsed(Signed(candidates)); |runs| == if |all| < numNodes then |all| else numNodes
    ensures Ascending(runs) && Within(runs, Signed(candidates)) && SignsAlternate(runs)
    ensures numNodes >= 1 && Signed(candidates) != [] ==> HoldsTallest(runs, Signed(candidates))
    ensures runs == SmallerEndsDropped(Collapsed(Signed(candidates)), numNodes)
    ensures var all := Collapsed(Signed(candidates)); 1 <= numNodes <= |all| ==> IsWindow(all, runs)
  {
    hide EndsGone, IsWindow, SmallerEndsDropped, Collapsed, Signed, HoldsTallest, Ascending, SignsAlternate, Within;
    var all := CollapseSigns(candidates);
    if 1 <= numNodes <= |all| { WindowLeft(all, numNodes); }
    SignedFacts(candidates);
    CollapsedSkeleton(Signed(candidates));
    runs := DropEnds(all, numNodes, Signed(candidates));
    AlternatingSigns(runs, candidates);
  }

  predicate SignsAlternate(runs: seq<Point>) {
    forall i :: 0 <= i < |runs| - 1 ==> (runs[i].r > 0.0) != (runs[i + 1].r > 0.0)
  }

  lemma AlternatingSigns(runs: seq<Point>, candidates: seq<(real, real)>)
    requires PositionSorted(candidates) && Within(runs, Signed(candidates)) && Alternating(runs)
    ensures SignsAlternate(runs)
  {
    SignedFacts(candidates);
    forall i | 0 <= i < |runs| - 1
      ensures (runs[i].r > 0.0) != (runs[i + 1].r > 0.0)
    {
      assert runs[i] in Signed(candidates) && runs[i + 1] in Signed(candidates);
      SignedPrefix(candidates, |candidates|);
    }
  }

  function SignOf(err: real): int { if err > 0.0 then 1 else -1 }

  lemma SignedSnoc(candidates: seq<(real, real)>, i: nat)
    requires i < |candidates|
    ensures var (u, err) := candidates[i]; var before := Signed(candidates[..i]);
      Signed(candidates[..i + 1]) == if err == 0.0 then before else before + [Point(u, err, SignOf(err))]
  {
    assert candidates[..i + 1][..i] == candidates[..i];
  }

  lemma CollapsedSnoc(ps: seq<Point>, pt: Point)
    ensures Collapsed(ps + [pt]) == Absorb(Collapsed(ps), pt)
  {
    assert (ps + [pt])[..|ps|] == ps;
  }

  predicate SignMarked(ps: seq<Point>) {
    forall p :: p in ps ==> p.mu == SignOf(p.r) && p.r != 0.0
  }

  lemma {:induction false} SignedMarks(candidates: seq<(real, real)>)
    ensures SignMarked(Signed(candidates))
    decreases |candidates|
  {
    if candidates != [] {
      SignedMarks(candidates[..|candidates| - 1]);
    }
  }

  lemma {:induction false} CollapsedWithin(points: seq<Point>)
    ensures Within(Collapsed(points), points)
    decreases |points|
  {
    if points != [] {
      var p := |points| - 1;
      CollapsedWithin(points[..p]);
      assert points == points[..p] + [points[p]];
    }
  }

  lemma LastRunSign(candidates: seq<(real, real)>, runs: seq<Point>)
    requires runs == Collapsed(Signed(candidates)) && runs != []
    ensures runs[|runs| - 1].mu == SignOf(runs[|runs| - 1].r) && runs[|runs| - 1].r != 0.0
  {
    SignedMarks(candidates);
    CollapsedWithin(Signed(candidates));
    assert runs[|runs| - 1] in runs;
  }

  /** One candidate: zero errors are skipped, the rest start a run or replace a lower point of the same sign. */
  method AbsorbSign(runs: seq<Point>, u: real, err: real) returns (next: seq<Point>)
    requires runs != [] ==> runs[|runs| - 1].mu == SignOf(runs[|runs| - 1].r) && runs[|runs| - 1].r != 0.0
    ensures next == if err == 0.0 then runs else Absorb(runs, Point(u, err, SignOf(err)))
  {
    next := runs;
    if err != 0.0 {
      var pt := Point(u, err, SignOf(err));
      if runs != [] && (err > 0.0) == (runs[|runs| - 1].r > 0.0) {
        if Abs(err) > Abs(runs[|runs| - 1].r) {
          next := runs[|runs| - 1 := pt];
        }
      } else {
        next := runs + [pt];
      }
    }
  }

  method CollapseSigns(candidates: seq<(real, real)>) returns (runs: seq<Point>)
    requires PositionSorted(candidates)
    ensures runs == Collapsed(Signed(candidates))
  {
    runs := [];
    for i := 0 to |candidates|
      invariant runs == Collapsed(Signed(candidates[..i]))
    {
      var (u, err) := candidates[i];
      if runs != [] { LastRunSign(candidates[..i], runs); }
      runs := AbsorbSign(runs, u, err);
      SignedSnoc(candidates, i);
      CollapsedSnoc(Signed(candidates[..i]), Point(u, err, SignOf(err)));
    }
    assert candidates[..|candidates|] == candidates;
  }

  /** The smaller end goes, the first one on a tie, until numNodes are left. */
  function SmallerEndsDropped(runs: seq<Point>, numNodes: nat): seq<Point> {
    if |runs| <= numNodes then runs
    else if Abs(runs[0].r) <= Abs(runs[|runs| - 1].r) then SmallerEndsDropped(runs[1..], numNodes)
    else SmallerEndsDropped(runs[..|runs| - 1], numNodes)
  }

  /** The window [lo, hi) stays, and the rest is gone for a reason: each point dropped on the left is at most as tall
      as some point from the last kept one on, and each one dropped on the right is less tall than some point up to
      the first kept one. */
  ghost predicate EndsGone(all: seq<Point>, lo: nat, hi: nat) {
    lo < hi <= |all| &&
    (forall i: nat :: i < lo ==> Matched(all, i, hi)) && forall j: nat :: hi <= j < |all| ==> Topped(all, j, lo)
  }

  /** Point i is at most as tall as some point from the last one before `hi` on. */
  ghost predicate Matched(all: seq<Point>, i: nat, hi: nat)
    requires i < |all|
  {
    exists j: nat :: hi - 1 <= j < |all| && Abs(all[i].r) <= Abs(all[j].r)
  }

  /** Point j is less tall than some point up to position `upTo`. */
  ghost predicate Topped(all: seq<Point>, j: nat, upTo: nat)
    requires j < |all| && upTo < |all|
  {
    exists i: nat :: i <= upTo && Abs(all[i].r) > Abs(all[j].r)
  }

  lemma DropLeft(all: seq<Point>, lo: nat, hi: nat)
    requires EndsGone(all, lo, hi) && hi - lo >= 2 && Abs(all[lo].r) <= Abs(all[hi - 1].r)
    ensures EndsGone(all, lo + 1, hi)
  {
    var next := lo + 1;
    forall j: nat | hi <= j < |all|
      ensures Topped(all, j, next)
    {
      assert Topped(all, j, lo);
    }
  }

  lemma DropRight(all: seq<Point>, lo: nat, hi: nat)
    requires EndsGone(all, lo, hi) && hi - lo >= 2 && Abs(all[lo].r) > Abs(all[hi - 1].r)
    ensures EndsGone(all, lo, hi - 1)
  {
    var next: nat := hi - 1;
    forall i: nat | i < lo
      ensures Matched(all, i, next)
    {
      assert Matched(all, i, hi);
    }
    assert Topped(all, hi - 1, lo);
  }

  ghost predicate IsWindow(all: seq<Point>, runs: seq<Point>) {
    exists a: nat, hi: nat :: EndsGone(all, a, hi) && all[a..hi] == runs
  }

  lemma WindowAt(all: seq<Point>, a: nat, runs: seq<Point>)
    requires EndsGone(all, a, a + |runs|) && all[a..a + |runs|] == runs
    ensures IsWindow(all, runs)
  {}

  /** Dropping the smaller end leaves the window. */
  lemma {:induction false} SmallerEndsGone(all: seq<Point>, lo: nat, hi: nat, n: nat) returns (a: nat)
    requires EndsGone(all, lo, hi) && 1 <= n <= hi - lo
    ensures EndsGone(all, a, a + n) && SmallerEndsDropped(all[lo..hi], n) == all[a..a + n]
    decreases hi - lo
  {
    hide *;
    WindowStep(all, lo, hi, n);
    if hi - lo == n {
      a := lo;
    } else if Abs(all[lo].r) <= Abs(all[hi - 1].r) {
      DropLeft(all, lo, hi);
      a := SmallerEndsGone(all, lo + 1, hi, n);
    } else {
      DropRight(all, lo, hi);
      a := SmallerEndsGone(all, lo, hi - 1, n);
    }
  }

  lemma WindowStep(all: seq<Point>, lo: nat, hi: nat, n: nat)
    requires EndsGone(all, lo, hi) && 1 <= n <= hi - lo
    ensures hi <= |all|
    ensures SmallerEndsDropped(all[lo..hi], n) ==
      if hi - lo == n then all[lo..hi]
      else if Abs(all[lo].r) <= Abs(all[hi - 1].r) then SmallerEndsDropped(all[lo + 1..hi], n)
      else SmallerEndsDropped(all[lo..hi - 1], n)
  {
    hide Matched, Topped;
    var window := all[lo..hi];
    assert window[1..] == all[lo + 1..hi] && window[..|window| - 1] == all[lo..hi - 1];
  }

  lemma WindowLeft(all: seq<Point>, n: nat)
    requires 1 <= n <= |all|
    ensures IsWindow(all, SmallerEndsDropped(all, n))
  {
    hide SmallerEndsDropped, Matched, Topped;
    var a := SmallerEndsGone(all, 0, |all|, n);
    assert all[0..|all|] == all;
    WindowAt(all, a, all[a..a + n]);
  }

  /** Only one window of a given size is of that kind. */
  lemma OneWindow(all: seq<Point>, a: nat, b: nat, n: nat)
    requires n >= 1 && EndsGone(all, a, a + n) && EndsGone(all, b, b + n)
    ensures a == b
  {
    if a < b { NoLaterWindow(all, a, b, n); }
    if b < a { NoLaterWindow(all, b, a, n); }
  }

  lemma NoLaterWindow(all: seq<Point>, a: nat, b: nat, n: nat)
    requires n >= 1 && EndsGone(all, a, a + n) && EndsGone(all, b, b + n)
    ensures a >= b
  {
    if a < b {
      var p := SomeTallest(all[..a + 1]);
      var i: nat :| i <= a && all[..a + 1][i] == p;
      assert Matched(all, i, b + n);
      var j: nat :| b + n - 1 <= j < |all| && Abs(all[i].r) <= Abs(all[j].r);
      assert Topped(all, j, a);
      forall k: nat | k <= a
        ensures Abs(all[k].r) <= Abs(p.r)
      {
        assert all[..a + 1][k] in all[..a + 1];
      }
    }
  }

  method DropEnds(all: seq<Point>, numNodes: nat, points: seq<Point>) returns (runs: seq<Point>)
    requires all == Collapsed(points) && Ascending(points)
    ensures |runs| == if |all| < numNodes then |all| else numNodes
    ensures Ascending(runs) && Within(runs, points) && Alternating(runs)
    ensures numNodes >= 1 && points != [] ==> HoldsTallest(runs, points)
    ensures runs == SmallerEndsDropped(all, numNodes)
  {
    hide Ascending, Alternating, Within, Collapsed;
    runs := all;
    CollapsedSkeleton(points);
    if points != [] {
      ghost var tall := SomeTallest(runs);
      SkeletonTallest(points, tall);
    }
    while |runs| > numNodes
      invariant |runs| >= if |all| < numNodes then |all| else numNodes
      invariant |runs| <= |all| && Ascending(runs) && Alternating(runs) && Within(runs, points)
      invariant numNodes >= 1 && points != [] ==> HoldsTallest(runs, points)
      invariant SmallerEndsDropped(all, numNodes) == SmallerEndsDropped(runs, numNodes)
      decreases |runs|
    {
      if numNodes >= 1 {
        DropSmallerEnd(runs, points);
      }
      EndDropped(runs, points);
      if Abs(runs[0].r) <= Abs(runs[|runs| - 1].r) {
        runs := runs[1..];
      } else {
        runs := runs[..|runs| - 1];
      }
    }
  }

  lemma EndDropped(runs: seq<Point>, points: seq<Point>)
    requires runs != [] && Ascending(runs) && Alternating(runs) && Within(runs, points)
    ensures Ascending(runs[1..]) && Alternating(runs[1..]) && Within(runs[1..], points)
    ensures var rest := runs[..|runs| - 1]; Ascending(rest) && Alternating(rest) && Within(rest, points)
  {}

  lemma SignedPrefix(candidates: seq<(real, real)>, i: nat)
    requires i <= |candidates| && PositionSorted(candidates)
    ensures forall p :: p in Signed(candidates[..i]) ==> (p.r > 0.0 <==> p.mu == 1) && (p.mu == 1 || p.mu == -1)
  {
    SignedFacts(candidates[..i]);
    forall p | p in Signed(candidates[..i])
      ensures p.mu == 1 || p.mu == -1
    {
      var j :| 0 <= j < |Signed(candidates[..i])| && Signed(candidates[..i])[j] == p;
    }
  }

  /** Dropping the smaller end keeps a tallest point. */
  lemma DropSmallerEnd(runs: seq<Point>, points: seq<Point>)
    requires |runs| >= 2 && HoldsTallest(runs, points) && Within(runs, points)
    ensures Abs(runs[0].r) <= Abs(runs[|runs| - 1].r) ==> HoldsTallest(runs[1..], points)
    ensures Abs(runs[0].r) > Abs(runs[|runs| - 1].r) ==> HoldsTallest(runs[..|runs| - 1], points)
  {
    var p :| p in runs && Tallest(p, points);
    var k :| 0 <= k < |runs| && runs[k] == p;
    var last := |runs| - 1;
    if Abs(runs[0].r) <= Abs(runs[last].r) {
      var q := if k == 0 then last else k;
      assert runs[1..][q - 1] == runs[q] && Tallest(runs[q], points) && runs[q] in runs[1..];
    } else {
      assert runs[last] in points && runs[0] in points;
      var q := if k == last then 0 else k;
      assert runs[..last][q] == runs[q] && Tallest(runs[q], points) && runs[q] in runs[..last];
    }
  }
}
