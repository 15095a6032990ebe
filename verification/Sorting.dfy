/**
 Sorting by a three-way comparison, standing for sort.Slice and for ORDER BY:
 insertion into a sorted sequence, sorting as repeated insertion, and the one
 strictly sorted sequence that lists a set, whatever order the set is visited in.
 */
module Sorting {
  import opened Ordering

  ghost predicate SortedBy<T>(cmp: (T, T) -> int, s: seq<T>) {
    forall i, j :: 0 <= i < j < |s| ==> cmp(s[i], s[j]) <= 0
  }

  ghost predicate StrictlySortedBy<T>(cmp: (T, T) -> int, s: seq<T>) {
    forall i, j :: 0 <= i < j < |s| ==> cmp(s[i], s[j]) < 0
  }

  function Elements<T>(s: seq<T>): set<T> {
    set x | x in s
  }

  function InsertSorted<T>(cmp: (T, T) -> int, x: T, s: seq<T>): seq<T> {
    if s == [] || cmp(x, s[0]) <= 0 then [x] + s else [s[0]] + InsertSorted(cmp, x, s[1..])
  }

  function Sort<T>(cmp: (T, T) -> int, s: seq<T>): seq<T> {
    if s == [] then [] else InsertSorted(cmp, s[0], Sort(cmp, s[1..]))
  }

  lemma {:induction false} InsertKeepsElements<T>(cmp: (T, T) -> int, x: T, s: seq<T>)
    ensures multiset(InsertSorted(cmp, x, s)) == multiset(s) + multiset{x}
  {
    if s != [] && cmp(x, s[0]) > 0 {
      InsertKeepsElements(cmp, x, s[1..]);
      assert s == [s[0]] + s[1..];
    }
  }

  lemma SortedCons<T>(cmp: (T, T) -> int, x: T, s: seq<T>)
    requires SortedBy(cmp, s) && forall i :: 0 <= i < |s| ==> cmp(x, s[i]) <= 0
    ensures SortedBy(cmp, [x] + s)
  {
    var t := [x] + s;
    forall i, j | 0 <= i < j < |t| ensures cmp(t[i], t[j]) <= 0 {
      assert t[j] == s[j - 1];
      if i > 0 {
        assert t[i] == s[i - 1];
      }
    }
  }

  lemma BelowHead<T(!new)>(cmp: (T, T) -> int, x: T, s: seq<T>)
    requires TotalPreorder(cmp) && SortedBy(cmp, s) && s != [] && cmp(x, s[0]) <= 0
    ensures forall i :: 0 <= i < |s| ==> cmp(x, s[i]) <= 0
  {
    forall i | 0 <= i < |s| ensures cmp(x, s[i]) <= 0 {
      if i > 0 {
        assert cmp(s[0], s[i]) <= 0;
      }
    }
  }

  lemma {:induction false} InsertKeepsSorted<T(!new)>(cmp: (T, T) -> int, x: T, s: seq<T>)
    requires TotalPreorder(cmp) && SortedBy(cmp, s)
    ensures SortedBy(cmp, InsertSorted(cmp, x, s))
  {
    if s == [] {
    } else if cmp(x, s[0]) <= 0 {
      BelowHead(cmp, x, s);
      SortedCons(cmp, x, s);
    } else {
      InsertKeepsSorted(cmp, x, s[1..]);
      var rest := InsertSorted(cmp, x, s[1..]);
      forall i | 0 <= i < |rest| ensures cmp(s[0], rest[i]) <= 0 {
        InsertKeepsElements(cmp, x, s[1..]);
        assert rest[i] in multiset(rest);
        assert rest[i] == x || rest[i] in s[1..];
      }
      SortedCons(cmp, s[0], rest);
    }
  }

  lemma {:induction false} SortSorts<T(!new)>(cmp: (T, T) -> int, s: seq<T>)
    requires TotalPreorder(cmp)
    ensures SortedBy(cmp, Sort(cmp, s)) && multiset(Sort(cmp, s)) == multiset(s)
  {
    if s != [] {
      SortSorts(cmp, s[1..]);
      InsertKeepsSorted(cmp, s[0], Sort(cmp, s[1..]));
      InsertKeepsElements(cmp, s[0], Sort(cmp, s[1..]));
      assert s == [s[0]] + s[1..];
    }
  }

  lemma LastIsGreatest<T(!new)>(cmp: (T, T) -> int, s: seq<T>)
    requires TotalPreorder(cmp) && s != []
    ensures var sorted := Sort(cmp, s);
            && |sorted| == |s| && sorted[|sorted| - 1] in s
            && forall x {:trigger x in s} :: x in s ==> cmp(x, sorted[|sorted| - 1]) <= 0
  {
    SortSorts(cmp, s);
    var sorted := Sort(cmp, s);
    assert |sorted| == |multiset(sorted)| == |multiset(s)| == |s|;
    assert sorted[|sorted| - 1] in multiset(sorted);
    forall x | x in s ensures cmp(x, sorted[|sorted| - 1]) <= 0 {
      assert x in multiset(s);
      assert x in sorted;
    }
  }

  ghost predicate Distinct<T>(s: seq<T>) {
    forall i, j :: 0 <= i < j < |s| ==> s[i] != s[j]
  }

  /** Distinct elements sort strictly. */
  lemma SortIsStrict<T(!new)>(cmp: (T, T) -> int, s: seq<T>)
    requires TotalOrder(cmp) && Distinct(s)
    ensures StrictlySortedBy(cmp, Sort(cmp, s))
  {
    SortSorts(cmp, s);
    var sorted := Sort(cmp, s);
    forall i, j | 0 <= i < j < |sorted| ensures cmp(sorted[i], sorted[j]) < 0 {
      if sorted[i] == sorted[j] {
        Repeated(sorted, i, j);
        DistinctOnce(s, sorted[i]);
        assert false;
      }
    }
  }

  lemma Repeated<T>(s: seq<T>, i: int, j: int)
    requires 0 <= i < j < |s| && s[i] == s[j]
    ensures multiset(s)[s[i]] >= 2
  {
    assert s == s[..j] + [s[j]] + s[j + 1..];
    assert s[i] in s[..j];
  }

  lemma {:induction false} DistinctOnce<T>(s: seq<T>, x: T)
    requires Distinct(s)
    ensures multiset(s)[x] <= 1
  {
    if s != [] {
      DistinctOnce(s[1..], x);
      assert s == [s[0]] + s[1..];
      if x == s[0] {
        assert x !in s[1..];
      }
    }
  }

  /** A set has one strictly sorted sequence. */
  lemma {:induction false} SortedUnique<T(!new)>(cmp: (T, T) -> int, a: seq<T>, b: seq<T>)
    requires TotalOrder(cmp) && StrictlySortedBy(cmp, a) && StrictlySortedBy(cmp, b)
    requires forall x :: x in a <==> x in b
    ensures a == b
  {
    assert b != [] ==> b[0] in a;
    if a != [] {
      assert a[0] in b;
      assert b != [];
      assert b[0] in a;
      assert a[0] == b[0];
      forall x ensures x in a[1..] <==> x in b[1..] {
        if x in a[1..] {
          assert x in a && x != a[0];
        }
        if x in b[1..] {
          assert x in b && x != b[0];
        }
      }
      SortedUnique(cmp, a[1..], b[1..]);
      assert a == [a[0]] + a[1..] && b == [b[0]] + b[1..];
    }
  }

  // ----- The elements of a set in order -----

  ghost predicate Lists<T(!new)>(cmp: (T, T) -> int, s: set<T>, q: seq<T>) {
    StrictlySortedBy(cmp, q) && forall x :: x in q <==> x in s
  }

  lemma {:induction false} Enumerate<T>(s: set<T>) returns (q: seq<T>)
    ensures Distinct(q) && forall x :: x in q <==> x in s
    decreases s
  {
    if s == {} {
      q := [];
    } else {
      var x :| x in s;
      var rest := Enumerate(s - {x});
      q := [x] + rest;
    }
  }

  lemma ListExists<T(!new)>(cmp: (T, T) -> int, s: set<T>) returns (q: seq<T>)
    requires TotalOrder(cmp)
    ensures Lists(cmp, s, q)
  {
    var any := Enumerate(s);
    q := Sort(cmp, any);
    SortSorts(cmp, any);
    SortIsStrict(cmp, any);
    forall x ensures x in q <==> x in s {
      assert x in q <==> x in multiset(q);
      assert x in any <==> x in multiset(any);
    }
  }

  /** The one strictly sorted sequence of a set's elements. */
  ghost function Ordered<T(!new)>(cmp: (T, T) -> int, s: set<T>): (q: seq<T>)
    requires TotalOrder(cmp)
    ensures Lists(cmp, s, q)
  {
    assert exists q :: Lists(cmp, s, q) by { var q := ListExists(cmp, s); }
    var q :| Lists(cmp, s, q);
    q
  }

  lemma ListIsOrdered<T(!new)>(cmp: (T, T) -> int, s: set<T>, q: seq<T>)
    requires TotalOrder(cmp) && Lists(cmp, s, q)
    ensures q == Ordered(cmp, s)
  {
    SortedUnique(cmp, q, Ordered(cmp, s));
  }

  ghost function First<T(!new)>(cmp: (T, T) -> int, s: set<T>): (x: T)
    requires TotalOrder(cmp) && s != {}
    ensures x in s && forall y :: y in s ==> cmp(x, y) <= 0
  {
    var q := Ordered(cmp, s);
    assert q != [] by { var y :| y in s; assert y in q; }
    q[0]
  }

  lemma FirstIs<T(!new)>(cmp: (T, T) -> int, s: set<T>, x: T)
    requires TotalOrder(cmp) && x in s && forall y :: y in s ==> cmp(x, y) <= 0
    ensures x == First(cmp, s)
  {
    var y := First(cmp, s);
    assert cmp(x, y) <= 0 && cmp(y, x) <= 0;
  }

  /** Whatever order a set is visited in, sorting gives the same sequence. */
  method SortSet<T(!new, ==)>(cmp: (T, T) -> int, s: set<T>) returns (q: seq<T>)
    requires TotalOrder(cmp)
    ensures q == Ordered(cmp, s)
  {
    var collected: seq<T> := [];
    var rest := s;
    while rest != {}
      invariant rest <= s && Distinct(collected)
      invariant forall x :: x in collected <==> x in s - rest
    {
      var x :| x in rest;
      assert x !in collected;
      collected, rest := collected + [x], rest - {x};
    }
    q := Sort(cmp, collected);
    SortSorts(cmp, collected);
    SortIsStrict(cmp, collected);
    forall x ensures x in q <==> x in s {
      assert x in q <==> x in multiset(q);
      assert x in collected <==> x in multiset(collected);
    }
    ListIsOrdered(cmp, s, q);
  }
}
