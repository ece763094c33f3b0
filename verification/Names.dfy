/** Lists of names: the lexicographic order of slices.Sort, and the facts that make a sorted list canonical. */
module Names {
  import Sequences

  /** Lexicographic order by character. */
  predicate Leq(a: string, b: string) {
    if a == "" then true
    else if b == "" then false
    else a[0] < b[0] || (a[0] == b[0] && Leq(a[1..], b[1..]))
  }

  lemma {:induction false} LeqTotal(a: string, b: string)
    ensures Leq(a, b) || Leq(b, a)
  {
    if a != "" && b != "" && a[0] == b[0] {
      LeqTotal(a[1..], b[1..]);
    }
  }

  lemma {:induction false} LeqAntisymmetric(a: string, b: string)
    requires Leq(a, b) && Leq(b, a)
    ensures a == b
  {
    if a != "" && b != "" {
      LeqAntisymmetric(a[1..], b[1..]);
      assert a == [a[0]] + a[1..] && b == [b[0]] + b[1..];
    }
  }

  lemma {:induction false} LeqTransitive(a: string, b: string, c: string)
    requires Leq(a, b) && Leq(b, c)
    ensures Leq(a, c)
  {
    if a != "" && b != "" && c != "" && a[0] == b[0] == c[0] {
      LeqTransitive(a[1..], b[1..], c[1..]);
    }
  }

  predicate SortedNames(s: seq<string>) {
    forall i, j :: 0 <= i < j < |s| ==> Leq(s[i], s[j])
  }

  predicate Distinct(s: seq<string>) {
    forall i, j :: 0 <= i < j < |s| ==> s[i] != s[j]
  }

  lemma LeqIsOrdering()
    ensures Sequences.IsOrdering(Leq)
  {
    forall a, b ensures Leq(a, b) || Leq(b, a) {
      LeqTotal(a, b);
    }
    forall a, b, c | Leq(a, b) && Leq(b, c) ensures Leq(a, c) {
      LeqTransitive(a, b, c);
    }
  }

  /** slices.Sort on names. */
  function Sort(s: seq<string>): seq<string> {
    Sequences.StableSort(s, Leq)
  }

  lemma SortSorts(s: seq<string>)
    ensures SortedNames(Sort(s)) && forall x :: x in Sort(s) <==> x in s
  {
    LeqIsOrdering();
    Sequences.SortAscending(s, Leq);
  }

  lemma SortDistinct(s: seq<string>)
    requires Distinct(s)
    ensures Distinct(Sort(s))
  {
    LeqIsOrdering();
    Sequences.SortDistinct(s, Leq, Itself);
  }

  function Itself(s: string): string { s }

  lemma FirstIsIn(s: seq<string>)
    requires s != []
    ensures s[0] in s
  {
  }

  /** Sorted, duplicate-free lists with the same names are the same list. */
  lemma {:induction false} SortedUnique(a: seq<string>, b: seq<string>)
    requires SortedNames(a) && SortedNames(b) && Distinct(a) && Distinct(b)
    requires forall x :: x in a <==> x in b
    ensures a == b
  {
    if a == [] {
      if b != [] {
        FirstIsIn(b);
      }
    } else {
      assert a[0] in b && b != [];
      assert b[0] in a;
      LeqAntisymmetricHeads(a, b);
      forall x ensures x in a[1..] <==> x in b[1..] {
        assert x in a[1..] <==> x in a && x != a[0];
        assert x in b[1..] <==> x in b && x != b[0];
      }
      SortedUnique(a[1..], b[1..]);
      assert a == [a[0]] + a[1..] && b == [b[0]] + b[1..];
    }
  }

  lemma LeqAntisymmetricHeads(a: seq<string>, b: seq<string>)
    requires SortedNames(a) && SortedNames(b) && a != [] && b != [] && a[0] in b && b[0] in a
    ensures a[0] == b[0]
  {
    var i :| 0 <= i < |b| && b[i] == a[0];
    var j :| 0 <= j < |a| && a[j] == b[0];
    LeqTotal(a[0], a[0]);
    LeqTotal(b[0], b[0]);
    assert Leq(b[0], a[0]) && Leq(a[0], b[0]);
    LeqAntisymmetric(a[0], b[0]);
  }

  /** The members of a list that are in a set, in their order. */
  function Keep(s: seq<string>, names: set<string>): (r: seq<string>)
    ensures forall x :: x in r <==> x in s && x in names
    ensures Distinct(s) ==> Distinct(r)
  {
    if s == [] then []
    else
      assert s == [s[0]] + s[1..];
      (if s[0] in names then [s[0]] else []) + Keep(s[1..], names)
  }
}
