/**
 Lists: filtering, and sorting in the manner of the source's library, which keeps elements that are equal in the order
 as they were. Sizes of sets.
 */
module Sequences {

  // ---------- filtering ----------

  function Filter<T>(s: seq<T>, p: T -> bool): (r: seq<T>) {
    if s == [] then [] else (if p(s[0]) then [s[0]] else []) + Filter(s[1..], p)
  }

  lemma {:induction false} FilterMembers<T>(s: seq<T>, p: T -> bool)
    ensures forall x :: x in Filter(s, p) <==> x in s && p(x)
  {
    if s != [] {
      FilterMembers(s[1..], p);
      assert s == [s[0]] + s[1..];
    }
  }

  lemma {:induction false} FilterFrom<T>(s: seq<T>, p: T -> bool, i: nat) returns (k: nat)
    requires i < |Filter(s, p)|
    ensures k < |s| && s[k] == Filter(s, p)[i] && p(s[k])
  {
    if p(s[0]) && i == 0 {
      k := 0;
    } else {
      var j := FilterFrom(s[1..], p, if p(s[0]) then i - 1 else i);
      k := j + 1;
    }
  }

  lemma {:induction false} FilterAppend<T>(a: seq<T>, b: seq<T>, p: T -> bool)
    ensures Filter(a + b, p) == Filter(a, p) + Filter(b, p)
  {
    if a == [] {
      assert a + b == b;
    } else {
      FilterAppend(a[1..], b, p);
      assert (a + b)[1..] == a[1..] + b;
      var head := if p(a[0]) then [a[0]] else [];
      assert head + (Filter(a[1..], p) + Filter(b, p)) == head + Filter(a[1..], p) + Filter(b, p);
    }
  }

  // ---------- elements under distinct names ----------

  predicate DistinctBy<T>(s: seq<T>, name: T -> string) {
    forall i, j :: 0 <= i < j < |s| ==> name(s[i]) != name(s[j])
  }

  lemma {:induction false} FilterDistinct<T>(s: seq<T>, p: T -> bool, name: T -> string)
    requires DistinctBy(s, name)
    ensures DistinctBy(Filter(s, p), name)
  {
    if s != [] {
      FilterDistinct(s[1..], p, name);
      var rest := Filter(s[1..], p);
      forall i | 0 <= i < |rest| ensures name(rest[i]) != name(s[0]) {
        var k := FilterFrom(s[1..], p, i);
        assert s[k + 1] == rest[i];
      }
      if p(s[0]) {
        assert Filter(s, p) == [s[0]] + rest;
      }
    }
  }

  // ---------- sorting ----------

  ghost predicate IsOrdering<T(!new)>(leq: (T, T) -> bool) {
    && (forall a, b :: leq(a, b) || leq(b, a))
    && forall a, b, c :: leq(a, b) && leq(b, c) ==> leq(a, c)
  }

  predicate Ascending<T>(s: seq<T>, leq: (T, T) -> bool) {
    forall i, j :: 0 <= i < j < |s| ==> leq(s[i], s[j])
  }

  function Insert<T>(x: T, s: seq<T>, leq: (T, T) -> bool): seq<T> {
    if s == [] || leq(x, s[0]) then [x] + s else [s[0]] + Insert(x, s[1..], leq)
  }

  function StableSort<T>(s: seq<T>, leq: (T, T) -> bool): seq<T> {
    if s == [] then [] else Insert(s[0], StableSort(s[1..], leq), leq)
  }

  lemma {:induction false} InsertAscending<T(!new)>(x: T, s: seq<T>, leq: (T, T) -> bool)
    requires IsOrdering(leq) && Ascending(s, leq)
    ensures var r := Insert(x, s, leq); Ascending(r, leq) && |r| == |s| + 1 && forall y :: y in r <==> y == x || y in s
  {
    if s != [] && !leq(x, s[0]) {
      InsertAscending(x, s[1..], leq);
      assert s == [s[0]] + s[1..];
      var rest := Insert(x, s[1..], leq);
      assert Insert(x, s, leq) == [s[0]] + rest;
      hide Insert;
      forall j | 0 <= j < |rest| ensures leq(s[0], rest[j]) {
        assert rest[j] == x || rest[j] in s[1..];
      }
    }
  }

  /** Sorting gives an ascending list of the same elements. */
  lemma {:induction false} SortAscending<T(!new)>(s: seq<T>, leq: (T, T) -> bool)
    requires IsOrdering(leq)
    ensures var r := StableSort(s, leq); Ascending(r, leq) && |r| == |s| && forall y :: y in r <==> y in s
  {
    if s != [] {
      SortAscending(s[1..], leq);
      InsertAscending(s[0], StableSort(s[1..], leq), leq);
      assert s == [s[0]] + s[1..];
    }
  }

  lemma {:induction false} InsertDistinct<T(!new)>(x: T, s: seq<T>, leq: (T, T) -> bool, name: T -> string)
    requires IsOrdering(leq) && Ascending(s, leq) && DistinctBy(s, name) && forall y :: y in s ==> name(y) != name(x)
    ensures DistinctBy(Insert(x, s, leq), name)
  {
    if s != [] && !leq(x, s[0]) {
      InsertDistinct(x, s[1..], leq, name);
      InsertAscending(x, s[1..], leq);
      assert s == [s[0]] + s[1..];
      var rest := Insert(x, s[1..], leq);
      assert Insert(x, s, leq) == [s[0]] + rest;
      hide Insert, IsOrdering, Ascending;
      assert forall y :: y in rest <==> y == x || y in s[1..];
      ConsDistinct(s[0], rest, s[1..], x, name);
    }
  }

  lemma ConsDistinct<T(!new)>(first: T, rest: seq<T>, tail: seq<T>, x: T, name: T -> string)
    requires DistinctBy(rest, name) && DistinctBy([first] + tail, name) && name(first) != name(x)
    requires forall y :: y in rest ==> y == x || y in tail
    ensures DistinctBy([first] + rest, name)
  {
    var s := [first] + tail;
    forall j | 0 <= j < |rest| ensures name(first) != name(rest[j]) {
      assert rest[j] in rest;
      if k :| 0 <= k < |tail| && tail[k] == rest[j] {
        assert s[0] == first && s[k + 1] == tail[k];
      }
    }
  }

  lemma {:induction false} SortDistinct<T(!new)>(s: seq<T>, leq: (T, T) -> bool, name: T -> string)
    requires IsOrdering(leq) && DistinctBy(s, name)
    ensures DistinctBy(StableSort(s, leq), name)
  {
    if s != [] {
      SortDistinct(s[1..], leq, name);
      SortAscending(s[1..], leq);
      hide IsOrdering, Ascending;
      forall y | y in StableSort(s[1..], leq) ensures name(y) != name(s[0]) {
        var k :| 0 <= k < |s[1..]| && s[1..][k] == y;
        assert s[k + 1] == y;
      }
      InsertDistinct(s[0], StableSort(s[1..], leq), leq, name);
    }
  }

  // ---------- stability ----------

  /** The elements with the property are equal in the order. */
  ghost predicate IsClass<T(!new)>(p: T -> bool, leq: (T, T) -> bool) {
    forall a, b :: p(a) && p(b) ==> leq(a, b)
  }

  lemma {:induction false} InsertStable<T(!new)>(x: T, s: seq<T>, leq: (T, T) -> bool, p: T -> bool)
    requires IsClass(p, leq)
    ensures Filter(Insert(x, s, leq), p) == Filter([x], p) + Filter(s, p)
  {
    if s == [] || leq(x, s[0]) {
      FilterAppend([x], s, p);
    } else {
      InsertStable(x, s[1..], leq, p);
      FilterAppend([s[0]], Insert(x, s[1..], leq), p);
      assert !(p(x) && p(s[0]));
      FilterOne(x, p);
      FilterOne(s[0], p);
      PassesBy(Filter([s[0]], p), Filter([x], p), Filter(s[1..], p));
    }
  }

  lemma FilterOne<T>(x: T, p: T -> bool)
    ensures Filter([x], p) == if p(x) then [x] else []
  {
  }

  lemma PassesBy<T>(a: seq<T>, b: seq<T>, c: seq<T>)
    requires a == [] || b == []
    ensures a + (b + c) == b + (a + c)
  {
    if a == [] {
      assert a + (b + c) == b + c && a + c == c;
    } else {
      assert b + (a + c) == a + c && b + c == c;
    }
  }

  /** Sorting keeps elements that are equal in the order as they were. */
  lemma {:induction false} SortStable<T(!new)>(s: seq<T>, leq: (T, T) -> bool, p: T -> bool)
    requires IsClass(p, leq)
    ensures Filter(StableSort(s, leq), p) == Filter(s, p)
  {
    if s != [] {
      SortStable(s[1..], leq, p);
      InsertStable(s[0], StableSort(s[1..], leq), leq, p);
      FilterAppend([s[0]], s[1..], p);
      assert s == [s[0]] + s[1..];
    }
  }

  // ---------- sizes of sets ----------

  /** A subset is no larger, and of the same size only when it is the same set. */
  lemma SubsetSize<T>(a: set<T>, b: set<T>)
    requires a <= b
    ensures |a| <= |b| && (|a| == |b| ==> a == b)
  {
    assert b == a + (b - a) && |b| == |a| + |b - a|;
  }
}
