/**
 Three-way comparisons: a negative, zero or positive result, as in strings.Compare.
 Total orders and preorders, lexicographic order on sequences, and comparisons
 combined so that the first one that is not zero decides.
 */
module Ordering {

  /** A comparison that orders its type linearly. */
  ghost predicate TotalOrder<T(!new)>(cmp: (T, T) -> int) {
    && (forall a, b :: cmp(a, b) == 0 <==> a == b)
    && (forall a, b {:trigger cmp(a, b)} :: cmp(a, b) < 0 <==> cmp(b, a) > 0)
    && (forall a, b, c {:trigger cmp(a, b), cmp(b, c)} :: cmp(a, b) <= 0 && cmp(b, c) <= 0 ==> cmp(a, c) <= 0)
  }

  /** A comparison that may call two different values equivalent. */
  ghost predicate TotalPreorder<T(!new)>(cmp: (T, T) -> int) {
    && (forall a :: cmp(a, a) == 0)
    && (forall a, b {:trigger cmp(a, b)} :: cmp(a, b) < 0 <==> cmp(b, a) > 0)
    && (forall a, b, c {:trigger cmp(a, b), cmp(b, c)} :: cmp(a, b) <= 0 && cmp(b, c) <= 0 ==> cmp(a, c) <= 0)
  }

  function CompareInt(a: int, b: int): int {
    if a < b then -1 else if a > b then 1 else 0
  }

  lemma IntOrder()
    ensures TotalOrder<int>(CompareInt)
  {
  }

  function CompareChar(a: char, b: char): int {
    if a < b then -1 else if a > b then 1 else 0
  }

  /** Lexicographic comparison; a proper prefix comes first. */
  function Lex<T>(cmp: (T, T) -> int, a: seq<T>, b: seq<T>): int {
    if a == [] then (if b == [] then 0 else -1)
    else if b == [] then 1
    else if cmp(a[0], b[0]) != 0 then cmp(a[0], b[0])
    else Lex(cmp, a[1..], b[1..])
  }

  function CompareText(a: string, b: string): int {
    Lex(CompareChar, a, b)
  }

  lemma {:induction false} LexZero<T(!new)>(cmp: (T, T) -> int, a: seq<T>, b: seq<T>)
    requires TotalOrder(cmp)
    ensures Lex(cmp, a, b) == 0 <==> a == b
  {
    if a != [] && b != [] {
      LexZero(cmp, a[1..], b[1..]);
      assert a == [a[0]] + a[1..] && b == [b[0]] + b[1..];
    }
  }

  lemma {:induction false} LexFlip<T(!new)>(cmp: (T, T) -> int, a: seq<T>, b: seq<T>)
    requires TotalOrder(cmp)
    ensures Lex(cmp, a, b) < 0 <==> Lex(cmp, b, a) > 0
  {
    if a != [] && b != [] {
      LexFlip(cmp, a[1..], b[1..]);
    }
  }

  lemma {:induction false} LexTransitive<T(!new)>(cmp: (T, T) -> int, a: seq<T>, b: seq<T>, c: seq<T>)
    requires TotalOrder(cmp)
    requires Lex(cmp, a, b) <= 0 && Lex(cmp, b, c) <= 0
    ensures Lex(cmp, a, c) <= 0
  {
    if a != [] && b != [] && c != [] {
      var x, y, z := a[0], b[0], c[0];
      assert cmp(x, y) <= 0 && cmp(y, z) <= 0 && cmp(x, z) <= 0;
      if cmp(x, z) == 0 {
        assert cmp(y, x) <= 0;
        assert x == y == z;
        LexTransitive(cmp, a[1..], b[1..], c[1..]);
      }
    }
  }

  /** Lexicographic order over a linear order is linear. */
  lemma LexIsTotalOrder<T(!new)>(cmp: (T, T) -> int)
    requires TotalOrder(cmp)
    ensures TotalOrder((a: seq<T>, b: seq<T>) => Lex(cmp, a, b))
  {
    forall a: seq<T>, b: seq<T> ensures Lex(cmp, a, b) == 0 <==> a == b { LexZero(cmp, a, b); }
    forall a: seq<T>, b: seq<T> ensures Lex(cmp, a, b) < 0 <==> Lex(cmp, b, a) > 0 { LexFlip(cmp, a, b); }
    forall a: seq<T>, b: seq<T>, c: seq<T> | Lex(cmp, a, b) <= 0 && Lex(cmp, b, c) <= 0
      ensures Lex(cmp, a, c) <= 0
    {
      LexTransitive(cmp, a, b, c);
    }
  }

  lemma TextIsTotalOrder()
    ensures TotalOrder(CompareText)
  {
    assert TotalOrder(CompareChar);
    LexIsTotalOrder(CompareChar);
    var lex := (a: string, b: string) => Lex(CompareChar, a, b);
    assert forall a, b :: CompareText(a, b) == lex(a, b);
  }

  /** The first comparison that is not zero decides. */
  function Then(x: int, y: int): int {
    if x != 0 then x else y
  }

  ghost predicate IsThen<T(!new)>(f: (T, T) -> int, g: (T, T) -> int, h: (T, T) -> int) {
    forall a, b {:trigger h(a, b)} :: h(a, b) == Then(f(a, b), g(a, b))
  }

  lemma ThenIsPreorder<T(!new)>(f: (T, T) -> int, g: (T, T) -> int, h: (T, T) -> int)
    requires TotalPreorder(f) && TotalPreorder(g) && IsThen(f, g, h)
    ensures TotalPreorder(h)
  {
    forall a, b ensures h(a, b) < 0 <==> h(b, a) > 0 {
      assert f(a, b) < 0 <==> f(b, a) > 0;
      assert f(b, a) < 0 <==> f(a, b) > 0;
      assert g(a, b) < 0 <==> g(b, a) > 0;
    }
    forall a, b, c | h(a, b) <= 0 && h(b, c) <= 0 ensures h(a, c) <= 0 {
      assert f(a, b) <= 0 && f(b, c) <= 0 && f(a, c) <= 0;
      if f(a, c) == 0 {
        assert f(c, a) <= 0 && f(c, b) <= 0 && f(b, a) <= 0;
        assert f(a, b) == 0 && f(b, c) == 0;
      }
    }
  }

  lemma ByKeyIsPreorder<T(!new), K(!new)>(key: T -> K, cmp: (K, K) -> int, h: (T, T) -> int)
    requires TotalPreorder(cmp) && forall a, b {:trigger h(a, b)} :: h(a, b) == cmp(key(a), key(b))
    ensures TotalPreorder(h)
  {
  }

  lemma SeparatingIsTotal<T(!new)>(h: (T, T) -> int)
    requires TotalPreorder(h) && forall a, b :: h(a, b) == 0 ==> a == b
    ensures TotalOrder(h)
  {
  }

  /** a is below b at place i: equal before it, and there a is smaller or has ended. */
  ghost predicate BelowAt<T>(cmp: (T, T) -> int, a: seq<T>, b: seq<T>, i: nat) {
    && i <= |a| && i <= |b|
    && (forall j :: 0 <= j < i ==> cmp(a[j], b[j]) == 0)
    && (if i < |a| && i < |b| then cmp(a[i], b[i]) < 0 else i == |a| < |b|)
  }

  /** What Lex computes: the first difference decides, and a proper prefix comes first. */
  lemma {:induction false} LexBelow<T>(cmp: (T, T) -> int, a: seq<T>, b: seq<T>)
    ensures Lex(cmp, a, b) < 0 <==> exists i: nat :: BelowAt(cmp, a, b, i)
    decreases |a|
  {
    if a == [] || b == [] || cmp(a[0], b[0]) != 0 {
      assert BelowAt(cmp, a, b, 0) <==> Lex(cmp, a, b) < 0;
    } else {
      LexBelow(cmp, a[1..], b[1..]);
      if i: nat :| BelowAt(cmp, a[1..], b[1..], i) {
        assert BelowAt(cmp, a, b, i + 1);
      }
      if i: nat :| BelowAt(cmp, a, b, i) {
        assert forall j :: 0 <= j < i - 1 ==> cmp(a[1..][j], b[1..][j]) == cmp(a[j + 1], b[j + 1]);
        assert BelowAt(cmp, a[1..], b[1..], i - 1);
      }
    }
  }

  /** One text comes before another in the dictionary. */
  ghost predicate InDictionaryOrder(a: string, b: string) {
    exists i: nat {:trigger a[..i]} ::
      && i <= |a| && i <= |b| && a[..i] == b[..i]
      && (if i < |a| && i < |b| then a[i] < b[i] else i == |a| < |b|)
  }

  lemma TextIsDictionary(a: string, b: string)
    ensures CompareText(a, b) < 0 <==> InDictionaryOrder(a, b)
  {
    LexBelow(CompareChar, a, b);
    if i: nat :| BelowAt(CompareChar, a, b, i) {
      assert a[..i] == b[..i];
    }
    if InDictionaryOrder(a, b) {
      var i: nat :| i <= |a| && i <= |b| && a[..i] == b[..i] &&
                    (if i < |a| && i < |b| then a[i] < b[i] else i == |a| < |b|);
      assert forall j :: 0 <= j < i ==> a[..i][j] == b[..i][j];
      assert BelowAt(CompareChar, a, b, i);
    }
  }
}
