/** Sorting by key, where equal keys may come in any order. */
module Sorting {
  ghost predicate TotalOrder<T(!new)>(before: (T, T) -> bool) {
    && (forall x, y :: before(x, y) && before(y, x) ==> x == y)
    && (forall x, y :: before(x, y) || before(y, x))
    && (forall x, y, z :: before(x, y) && before(y, z) ==> before(x, z))
  }

  /** `out` is `xs` in the order of their keys; equal keys may come either way. */
  ghost predicate Sorted<T(!new), K(!new)>(before: (K, K) -> bool, key: T -> K, xs: seq<T>, out: seq<T>) {
    multiset(out) == multiset(xs) && InOrder(before, key, out)
  }

  predicate DistinctKeys<T, K(==)>(key: T -> K, xs: seq<T>) {
    forall i, j :: 0 <= i < j < |xs| ==> key(xs[i]) != key(xs[j])
  }

  /** Elements with one key are one element. */
  ghost predicate KeysDecide<T(!new), K(!new)>(key: T -> K, xs: seq<T>) {
    forall x, y :: x in xs && y in xs && key(x) == key(y) ==> x == y
  }

  lemma {:induction false} SameLength<T>(a: seq<T>, b: seq<T>)
    requires multiset(a) == multiset(b)
    ensures |a| == |b|
  {
    assert |multiset(a)| == |a| && |multiset(b)| == |b|;
  }

  lemma SameMembers<T>(a: seq<T>, b: seq<T>, x: T)
    requires multiset(a) == multiset(b) && x in a
    ensures x in b
  {
    assert x in multiset(a);
  }

  ghost predicate InOrder<T(!new), K(!new)>(before: (K, K) -> bool, key: T -> K, xs: seq<T>) {
    forall i, j :: 0 <= i < j < |xs| ==> before(key(xs[i]), key(xs[j]))
  }

  lemma FirstIsLeast<T(!new), K(!new)>(before: (K, K) -> bool, key: T -> K, a: seq<T>, x: T)
    requires InOrder(before, key, a) && x in a
    ensures x == a[0] || before(key(a[0]), key(x))
  {
    var j :| 0 <= j < |a| && a[j] == x;
  }

  /** The least element comes first, however the rest is arranged. */
  lemma SameHead<T(!new), K(!new)>(before: (K, K) -> bool, key: T -> K, a: seq<T>, b: seq<T>)
    requires TotalOrder(before) && KeysDecide(key, a) && InOrder(before, key, a) && InOrder(before, key, b)
    requires a != [] && b != [] && a[0] in b && b[0] in a
    ensures a[0] == b[0]
  {
    FirstIsLeast(before, key, a, b[0]);
    FirstIsLeast(before, key, b, a[0]);
  }

  lemma SameRest<T>(a: seq<T>, b: seq<T>)
    requires multiset(a) == multiset(b) && a != [] && b != [] && a[0] == b[0]
    ensures multiset(a[1..]) == multiset(b[1..])
  {
    assert a == [a[0]] + a[1..] && b == [b[0]] + b[1..];
    assert multiset(a[1..]) == multiset(a) - multiset{a[0]};
    assert multiset(b[1..]) == multiset(b) - multiset{b[0]};
  }

  /** Where keys decide there is one way to sort. */
  lemma {:induction false} SortIsUnique<T(!new), K(!new)>(before: (K, K) -> bool, key: T -> K, a: seq<T>, b: seq<T>)
    requires TotalOrder(before) && KeysDecide(key, a) && InOrder(before, key, a) && InOrder(before, key, b)
    requires multiset(a) == multiset(b)
    ensures a == b
    decreases |a|
  {
    SameLength(a, b);
    if a != [] {
      SameMembers(a, b, a[0]);
      SameMembers(b, a, b[0]);
      SameHead(before, key, a, b);
      SameRest(a, b);
      assert KeysDecide(key, a[1..]) && InOrder(before, key, a[1..]) && InOrder(before, key, b[1..]);
      SortIsUnique(before, key, a[1..], b[1..]);
      assert a == [a[0]] + a[1..] && b == [b[0]] + b[1..];
    }
  }

  function Swapped<T>(a: seq<T>, i: nat, j: nat): seq<T>
    requires i < |a| && j < |a|
  {
    a[i := a[j]][j := a[i]]
  }

  /** Two elements with one key can change places. */
  lemma TiesSwap<T(!new), K(!new)>(before: (K, K) -> bool, key: T -> K, a: seq<T>, i: nat, j: nat)
    requires InOrder(before, key, a) && i < j < |a| && key(a[i]) == key(a[j]) && a[i] != a[j]
    ensures InOrder(before, key, Swapped(a, i, j)) && multiset(Swapped(a, i, j)) == multiset(a) && Swapped(a, i, j) != a
  {
    var b := Swapped(a, i, j);
    assert forall t :: 0 <= t < |a| ==> key(b[t]) == key(a[t]);
    assert b[i] == a[j];
  }

  /** Where two elements share a key, so that they can change places. */
  lemma FindTie<T(!new), K(!new)>(key: T -> K, a: seq<T>) returns (i: nat, j: nat)
    requires !KeysDecide(key, a)
    ensures i < j < |a| && key(a[i]) == key(a[j]) && a[i] != a[j]
  {
    var x, y :| x in a && y in a && key(x) == key(y) && x != y;
    var p :| 0 <= p < |a| && a[p] == x;
    var q :| 0 <= q < |a| && a[q] == y;
    i, j := if p < q then p else q, if p < q then q else p;
  }

  lemma KeysDecideSame<T(!new), K(!new)>(key: T -> K, a: seq<T>, b: seq<T>)
    requires multiset(a) == multiset(b) && KeysDecide(key, a)
    ensures KeysDecide(key, b)
  {
    forall x, y | x in b && y in b && key(x) == key(y) ensures x == y {
      SameMembers(b, a, x);
      SameMembers(b, a, y);
    }
  }

  /** The sorted arrangement of a list is determined exactly if keys decide. */
  lemma SortIsDetermined<T(!new), K(!new)>(before: (K, K) -> bool, key: T -> K, xs: seq<T>, a: seq<T>)
    requires TotalOrder(before) && Sorted(before, key, xs, a)
    ensures (forall b :: Sorted(before, key, xs, b) ==> b == a) <==> KeysDecide(key, xs)
  {
    if KeysDecide(key, xs) {
      KeysDecideSame(key, xs, a);
      forall b | Sorted(before, key, xs, b) ensures b == a {
        SortIsUnique(before, key, a, b);
      }
    } else {
      if KeysDecide(key, a) {
        KeysDecideSame(key, a, xs);
      }
      var i, j := FindTie(key, a);
      TiesSwap(before, key, a, i, j);
      assert Sorted(before, key, xs, Swapped(a, i, j));
    }
  }

  // ---------- sorting by insertion ----------

  /** `x` placed after everything it need not precede. */
  function Inserted<T, K>(before: (K, K) -> bool, key: T -> K, xs: seq<T>, x: T): seq<T> {
    if xs == [] || !before(key(xs[0]), key(x)) then [x] + xs else [xs[0]] + Inserted(before, key, xs[1..], x)
  }

  function Arranged<T, K>(before: (K, K) -> bool, key: T -> K, xs: seq<T>): seq<T> {
    if xs == [] then [] else Inserted(before, key, Arranged(before, key, xs[..|xs| - 1]), xs[|xs| - 1])
  }

  lemma {:induction false} InsertedAt<T, K>(before: (K, K) -> bool, key: T -> K, xs: seq<T>, x: T, i: nat)
    requires i <= |xs| && (forall j :: 0 <= j < i ==> before(key(xs[j]), key(x))) && (i < |xs| ==> !before(key(xs[i]), key(x)))
    ensures Inserted(before, key, xs, x) == xs[..i] + [x] + xs[i..]
  {
    if i > 0 {
      InsertedAt(before, key, xs[1..], x, i - 1);
      assert xs[..i] == [xs[0]] + xs[1..][..i - 1] && xs[i..] == xs[1..][i - 1..];
    } else {
      assert xs[..0] + [x] + xs[0..] == [x] + xs;
    }
  }

  /** Places `x` where the order wants it among entries already in order. */
  method Insert<T(!new), K(!new)>(before: (K, K) -> bool, key: T -> K, xs: seq<T>, x: T) returns (out: seq<T>)
    requires TotalOrder(before) && InOrder(before, key, xs)
    ensures out == Inserted(before, key, xs, x)
    ensures InOrder(before, key, out) && multiset(out) == multiset(xs) + multiset{x}
  {
    var i := 0;
    while i < |xs| && before(key(xs[i]), key(x))
      invariant i <= |xs| && forall j :: 0 <= j < i ==> before(key(xs[j]), key(x))
    {
      i := i + 1;
    }
    InsertKeepsOrder(before, key, xs, x, i);
    InsertAdds(xs, x, i);
    InsertedAt(before, key, xs, x, i);
    out := xs[..i] + [x] + xs[i..];
  }

  /** How far insertion goes. */
  lemma InsertionPoint<T, K>(before: (K, K) -> bool, key: T -> K, xs: seq<T>, x: T) returns (i: nat)
    ensures i <= |xs| && (forall j :: 0 <= j < i ==> before(key(xs[j]), key(x))) && (i < |xs| ==> !before(key(xs[i]), key(x)))
  {
    i := 0;
    while i < |xs| && before(key(xs[i]), key(x))
      invariant i <= |xs| && forall j :: 0 <= j < i ==> before(key(xs[j]), key(x))
    {
      i := i + 1;
    }
  }

  lemma {:induction false} ArrangedIsSorted<T(!new), K(!new)>(before: (K, K) -> bool, key: T -> K, xs: seq<T>)
    requires TotalOrder(before)
    ensures Sorted(before, key, xs, Arranged(before, key, xs))
  {
    if xs != [] {
      var n := |xs| - 1;
      ArrangedIsSorted(before, key, xs[..n]);
      var rest := Arranged(before, key, xs[..n]);
      var i := InsertionPoint(before, key, rest, xs[n]);
      InsertedAt(before, key, rest, xs[n], i);
      InsertKeepsOrder(before, key, rest, xs[n], i);
      InsertAdds(rest, xs[n], i);
      assert xs == xs[..n] + [xs[n]];
    }
  }

  /** Insertion leaves alone what is in order. */
  lemma {:induction false} ArrangedStays<T(!new), K(!new)>(before: (K, K) -> bool, key: T -> K, xs: seq<T>)
    requires InOrder(before, key, xs)
    ensures Arranged(before, key, xs) == xs
  {
    if xs != [] {
      var n := |xs| - 1;
      ArrangedStays(before, key, xs[..n]);
      InsertedAt(before, key, xs[..n], xs[n], n);
      assert xs == xs[..n] + [xs[n]];
    }
  }

  lemma InsertAdds<T>(xs: seq<T>, x: T, i: nat)
    requires i <= |xs|
    ensures multiset(xs[..i] + [x] + xs[i..]) == multiset(xs) + multiset{x}
  {
    assert xs == xs[..i] + xs[i..];
  }

  lemma InsertKeepsOrder<T(!new), K(!new)>(before: (K, K) -> bool, key: T -> K, xs: seq<T>, x: T, i: nat)
    requires TotalOrder(before) && InOrder(before, key, xs) && i <= |xs|
    requires forall j :: 0 <= j < i ==> before(key(xs[j]), key(x))
    requires i < |xs| ==> before(key(x), key(xs[i]))
    ensures InOrder(before, key, xs[..i] + [x] + xs[i..])
  {
    var out := xs[..i] + [x] + xs[i..];
    assert forall j :: 0 <= j < |out| ==> out[j] == if j < i then xs[j] else if j == i then x else xs[j - 1];
    forall a, b | 0 <= a < b < |out| ensures before(key(out[a]), key(out[b])) {
      if a == i && b > i + 1 {
        assert before(key(x), key(xs[i])) && before(key(xs[i]), key(xs[b - 1]));
      }
    }
  }

  lemma TwiceIn<T>(b: seq<T>, i: nat, j: nat)
    requires i < j < |b| && b[i] == b[j]
    ensures multiset(b)[b[i]] >= 2
  {
    assert b == b[..j] + [b[j]] + b[j + 1..];
    assert b[i] in b[..j];
  }

  lemma OnceIn<T>(a: seq<T>, x: nat)
    requires x < |a| && forall y :: 0 <= y < |a| && y != x ==> a[y] != a[x]
    ensures multiset(a)[a[x]] == 1
  {
    assert a == a[..x] + [a[x]] + a[x + 1..];
    assert a[x] !in a[..x] && a[x] !in a[x + 1..];
  }

  lemma DistinctOnce<T, K>(key: T -> K, a: seq<T>, x: nat)
    requires x < |a| && DistinctKeys(key, a)
    ensures multiset(a)[a[x]] == 1
  {
    assert forall y :: 0 <= y < |a| && y != x ==> key(a[y]) != key(a[x]);
    OnceIn(a, x);
  }

  /** Different keys stay different. */
  lemma DistinctStay<T, K>(key: T -> K, a: seq<T>, b: seq<T>)
    requires multiset(a) == multiset(b) && DistinctKeys(key, a)
    ensures DistinctKeys(key, b)
  {
    forall i, j | 0 <= i < j < |b| ensures key(b[i]) != key(b[j]) {
      SameMembers(b, a, b[i]);
      SameMembers(b, a, b[j]);
      var x :| 0 <= x < |a| && a[x] == b[i];
      DistinctOnce(key, a, x);
      if b[i] == b[j] {
        TwiceIn(b, i, j);
      }
    }
  }

  method Sort<T(!new), K(!new)>(before: (K, K) -> bool, key: T -> K, xs: seq<T>) returns (out: seq<T>)
    requires TotalOrder(before)
    ensures out == Arranged(before, key, xs) && Sorted(before, key, xs, out)
    ensures DistinctKeys(key, xs) ==> DistinctKeys(key, out)
    ensures InOrder(before, key, xs) ==> out == xs
  {
    out := [];
    for i := 0 to |xs|
      invariant out == Arranged(before, key, xs[..i]) && InOrder(before, key, out)
    {
      assert xs[..i + 1][..i] == xs[..i];
      out := Insert(before, key, out, xs[i]);
    }
    assert xs[..|xs|] == xs;
    ArrangedIsSorted(before, key, xs);
    if DistinctKeys(key, xs) {
      DistinctStay(key, xs, out);
    }
    if InOrder(before, key, xs) {
      ArrangedStays(before, key, xs);
    }
  }
}
