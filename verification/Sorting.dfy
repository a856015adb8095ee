/**
 Python's `sorted` and `list.sort`, as an insertion sort over any total preorder: the sorted permutation that keeps
 equal elements in their order. The comparison is a parameter.
 */
module Sorting {

  ghost predicate TotalOrder<T(!new)>(le: (T, T) -> bool) {
    (forall a, b :: le(a, b) || le(b, a)) && (forall a, b, c :: le(a, b) && le(b, c) ==> le(a, c))
  }

  predicate SortedBy<T>(le: (T, T) -> bool, s: seq<T>) {
    forall i, j :: 0 <= i < j < |s| ==> le(s[i], s[j])
  }

  predicate Equal<T>(le: (T, T) -> bool, a: T, b: T) { le(a, b) && le(b, a) }

  /** The elements of s that compare equal to x, in order. */
  function Class<T>(le: (T, T) -> bool, s: seq<T>, x: T): seq<T> {
    if s == [] then [] else (if Equal(le, s[0], x) then [s[0]] else []) + Class(le, s[1..], x)
  }

  /** r keeps equal elements in the order of s. */
  ghost predicate Stable<T(!new)>(le: (T, T) -> bool, s: seq<T>, r: seq<T>) {
    forall x :: Class(le, r, x) == Class(le, s, x)
  }

  lemma ClassCons<T>(le: (T, T) -> bool, h: T, s: seq<T>, x: T)
    ensures Class(le, [h] + s, x) == (if Equal(le, h, x) then [h] else []) + Class(le, s, x)
  {
    assert ([h] + s)[1..] == s;
  }

  lemma {:induction false} ClassAppend<T>(le: (T, T) -> bool, a: seq<T>, b: seq<T>, x: T)
    ensures Class(le, a + b, x) == Class(le, a, x) + Class(le, b, x)
  {
    if a == [] {
      assert a + b == b;
    } else {
      var h, t := a[0], a[1..];
      ClassAppend(le, t, b, x);
      ClassCons(le, h, t, x);
      ClassCons(le, h, t + b, x);
      assert a == [h] + t && a + b == [h] + (t + b);
    }
  }

  lemma {:induction false} NoneEqual<T>(le: (T, T) -> bool, s: seq<T>, x: T)
    requires forall i :: 0 <= i < |s| ==> !Equal(le, s[i], x)
    ensures Class(le, s, x) == []
  {
    if s != [] { NoneEqual(le, s[1..], x); }
  }

  lemma GreaterNotEqual<T(!new)>(le: (T, T) -> bool, b: seq<T>, x: T, y: T)
    requires TotalOrder(le) && Equal(le, x, y) && forall i :: 0 <= i < |b| ==> !le(b[i], x)
    ensures Class(le, b, y) == []
  {
    forall i | 0 <= i < |b|
      ensures !Equal(le, b[i], y)
    {
      assert !le(b[i], x) && le(y, x);
    }
    NoneEqual(le, b, y);
  }

  lemma ClassOne<T>(le: (T, T) -> bool, x: T, y: T)
    ensures Class(le, [x], y) == if Equal(le, x, y) then [x] else []
  {
    assert [x][1..] == [];
  }

  /** Inserting x before elements that are strictly greater puts it last among its equals. */
  lemma InsertedClass<T(!new)>(le: (T, T) -> bool, a: seq<T>, b: seq<T>, x: T, y: T)
    requires TotalOrder(le) && forall i :: 0 <= i < |b| ==> !le(b[i], x)
    ensures Class(le, a + [x] + b, y) == Class(le, a + b + [x], y)
  {
    ClassAppend(le, a + [x], b, y);
    ClassAppend(le, a, [x], y);
    ClassAppend(le, a, b, y);
    ClassAppend(le, a + b, [x], y);
    ClassOne(le, x, y);
    if Equal(le, x, y) { GreaterNotEqual(le, b, x, y); }
  }

  /** Insert x after the elements that are at most x. */
  method Insert<T(!new)>(le: (T, T) -> bool, s: seq<T>, x: T) returns (r: seq<T>)
    requires TotalOrder(le) && SortedBy(le, s)
    ensures SortedBy(le, r) && multiset(r) == multiset(s) + multiset{x} && Stable(le, s + [x], r)
  {
    var k := |s|;
    while k > 0 && !le(s[k - 1], x)
      invariant 0 <= k <= |s|
      invariant forall j :: k <= j < |s| ==> !le(s[j], x)
    {
      k := k - 1;
    }
    assert s == s[..k] + s[k..];
    r := s[..k] + [x] + s[k..];
    forall i, j | 0 <= i < j < |r|
      ensures le(r[i], r[j])
    {
      InsertedOrder(le, s, x, k, i, j);
    }
    forall y
      ensures Class(le, r, y) == Class(le, s + [x], y)
    {
      InsertedClass(le, s[..k], s[k..], x, y);
    }
  }

  lemma InsertedOrder<T(!new)>(le: (T, T) -> bool, s: seq<T>, x: T, k: nat, i: nat, j: nat)
    requires TotalOrder(le) && SortedBy(le, s) && k <= |s| && i < j <= |s|
    requires k > 0 ==> le(s[k - 1], x)
    requires forall j :: k <= j < |s| ==> !le(s[j], x)
    ensures le((s[..k] + [x] + s[k..])[i], (s[..k] + [x] + s[k..])[j])
  {
    if j == k && i < k - 1 { assert le(s[i], s[k - 1]); }
  }

  /** Python's `sorted`: the sorted permutation that keeps equal elements in their order. */
  method Sort<T(!new)>(le: (T, T) -> bool, s: seq<T>) returns (r: seq<T>)
    requires TotalOrder(le)
    ensures SortedBy(le, r) && multiset(r) == multiset(s) && Stable(le, s, r)
  {
    r := [];
    for i := 0 to |s|
      invariant SortedBy(le, r) && multiset(r) == multiset(s[..i]) && Stable(le, s[..i], r)
    {
      ghost var before := r;
      r := Insert(le, r, s[i]);
      assert s[..i + 1] == s[..i] + [s[i]];
      StableInsert(le, s[..i], before, s[i], r);
    }
    assert s[..|s|] == s;
  }

  lemma StableInsert<T(!new)>(le: (T, T) -> bool, s: seq<T>, before: seq<T>, x: T, r: seq<T>)
    requires Stable(le, s, before) && Stable(le, before + [x], r)
    ensures Stable(le, s + [x], r)
  {
    forall y
      ensures Class(le, r, y) == Class(le, s + [x], y)
    {
      ClassAppend(le, before, [x], y);
      ClassAppend(le, s, [x], y);
    }
  }

  lemma {:induction false} InClass<T>(le: (T, T) -> bool, s: seq<T>, i: nat, x: T)
    requires i < |s| && Equal(le, s[i], x)
    ensures s[i] in Class(le, s, x)
  {
    if i > 0 { InClass(le, s[1..], i - 1, x); }
  }

  /** A later element of a sorted list comes later among its equals: the class splits between them. */
  lemma ClassSplit<T>(le: (T, T) -> bool, s: seq<T>, j: nat)
    requires j < |s| && Equal(le, s[j], s[j])
    ensures Class(le, s, s[j]) == Class(le, s[..j], s[j]) + [s[j]] + Class(le, s[j + 1..], s[j])
  {
    hide Class, Equal;
    var before, after := s[..j], s[j + 1..];
    assert s == before + ([s[j]] + after);
    ClassAppend(le, before, [s[j]] + after, s[j]);
    ClassCons(le, s[j], after, s[j]);
  }
}
