/** Python's order on strings and on tuples of strings, and sorting by such a key. */
module Sorting {

  type Key = seq<string>

  predicate StringLess(a: string, b: string) {
    b != [] && (a == [] || a[0] < b[0] || (a[0] == b[0] && StringLess(a[1..], b[1..])))
  }

  predicate KeyLess(a: Key, b: Key) {
    b != [] && (a == [] || StringLess(a[0], b[0]) || (a[0] == b[0] && KeyLess(a[1..], b[1..])))
  }

  lemma {:induction false} StringTrichotomy(a: string, b: string)
    ensures StringLess(a, b) || a == b || StringLess(b, a)
    ensures !(StringLess(a, b) && StringLess(b, a)) && !StringLess(a, a)
  {
    if a != [] && b != [] {
      StringTrichotomy(a[1..], b[1..]);
      assert a == [a[0]] + a[1..] && b == [b[0]] + b[1..];
    }
    if a != [] { StringTrichotomy(a[1..], a[1..]); }
  }

  /** The two strings agree up to n, and there the first one ends or has the smaller character. */
  predicate DiffersAt(a: string, b: string, n: nat) {
    n <= |a| && n < |b| && a[..n] == b[..n] && (n == |a| || a[n] < b[n])
  }

  lemma SameStart(a: string, b: string, n: nat)
    requires DiffersAt(a, b, n) && n > 0
    ensures a != [] && b != [] && a[0] == b[0]
  {
    assert a[..n][0] == b[..n][0];
  }

  /** The order of strings is that of their first difference. */
  lemma {:induction false} StringOrder(a: string, b: string)
    ensures StringLess(a, b) <==> exists n: nat :: DiffersAt(a, b, n)
  {
    forall n: nat | DiffersAt(a, b, n) && n > 0 ensures a != [] && b != [] && a[0] == b[0] {
      SameStart(a, b, n);
    }
    if a != [] && b != [] && a[0] == b[0] {
      StringOrder(a[1..], b[1..]);
      if n: nat :| DiffersAt(a[1..], b[1..], n) {
        assert a[..n + 1] == [a[0]] + a[1..][..n] && b[..n + 1] == [b[0]] + b[1..][..n];
        assert DiffersAt(a, b, n + 1);
      }
      if n: nat :| DiffersAt(a, b, n) {
        assert n > 0 && a[1..][..n - 1] == a[..n][1..] && b[1..][..n - 1] == b[..n][1..];
        assert DiffersAt(a[1..], b[1..], n - 1);
      }
    } else if b != [] && (a == [] || a[0] < b[0]) {
      assert DiffersAt(a, b, 0);
    }
  }

  /** The order of keys is that of their first different component. */
  lemma KeyStep(x: string, a: Key, y: string, b: Key)
    ensures KeyLess([x] + a, [y] + b) <==> if x == y then KeyLess(a, b) else StringLess(x, y)
  {
    StringTrichotomy(x, y);
    assert ([x] + a)[1..] == a && ([y] + b)[1..] == b;
  }

  lemma {:induction false} StringTransitive(a: string, b: string, c: string)
    requires StringLess(a, b) && StringLess(b, c)
    ensures StringLess(a, c)
  {
    if a != [] && a[0] == b[0] == c[0] {
      StringTransitive(a[1..], b[1..], c[1..]);
    }
  }

  lemma {:induction false} KeyTrichotomy(a: Key, b: Key)
    ensures KeyLess(a, b) || a == b || KeyLess(b, a)
    ensures !(KeyLess(a, b) && KeyLess(b, a)) && !KeyLess(a, a)
  {
    if a != [] && b != [] {
      KeyTrichotomy(a[1..], b[1..]);
      StringTrichotomy(a[0], b[0]);
      assert a == [a[0]] + a[1..] && b == [b[0]] + b[1..];
    }
    if a != [] {
      KeyTrichotomy(a[1..], a[1..]);
      StringTrichotomy(a[0], a[0]);
    }
  }

  lemma {:induction false} KeyTransitive(a: Key, b: Key, c: Key)
    requires KeyLess(a, b) && KeyLess(b, c)
    ensures KeyLess(a, c)
  {
    if a != [] {
      if StringLess(a[0], b[0]) && StringLess(b[0], c[0]) {
        StringTransitive(a[0], b[0], c[0]);
      } else if a[0] == b[0] == c[0] {
        KeyTransitive(a[1..], b[1..], c[1..]);
      }
    }
  }

  /** No two elements share a key. */
  ghost predicate Distinguishes<T(!new)>(key: T -> Key, s: set<T>) {
    forall x, y | x in s && y in s && key(x) == key(y) :: x == y
  }

  ghost predicate Increasing<T>(key: T -> Key, xs: seq<T>) {
    forall i, j | 0 <= i < j < |xs| :: KeyLess(key(xs[i]), key(xs[j]))
  }

  function Elements<T(==)>(xs: seq<T>): set<T> { set x | x in xs }

  /** xs is sorted(s, key=key). */
  ghost predicate Listing<T>(key: T -> Key, xs: seq<T>, s: set<T>) {
    Increasing(key, xs) && Elements(xs) == s
  }

  lemma {:induction false} ListingSize<T>(key: T -> Key, xs: seq<T>, s: set<T>)
    requires Listing(key, xs, s)
    ensures |xs| == |s|
    decreases |xs|
  {
    if xs != [] {
      var n := |xs| - 1;
      KeyTrichotomy(key(xs[n]), key(xs[n]));
      assert xs[n] !in Elements(xs[..n]);
      assert Elements(xs) == Elements(xs[..n]) + {xs[n]};
      ListingSize(key, xs[..n], Elements(xs[..n]));
    }
  }

  /** A set has only one sorted listing: the output of a sort is unique. */
  lemma {:induction false} ListingUnique<T>(key: T -> Key, xs: seq<T>, ys: seq<T>, s: set<T>)
    requires Listing(key, xs, s) && Listing(key, ys, s)
    ensures xs == ys
    decreases |xs|
  {
    ListingSize(key, xs, s);
    ListingSize(key, ys, s);
    if xs != [] {
      var n := |xs| - 1;
      LastIsGreatest(key, xs, s);
      LastIsGreatest(key, ys, s);
      assert xs[n] in s && ys[n] in s;
      KeyTrichotomy(key(xs[n]), key(ys[n]));
      assert xs[n] == ys[n];
      WithoutLast(key, xs, s);
      WithoutLast(key, ys, s);
      ListingUnique(key, xs[..n], ys[..n], s - {xs[n]});
      assert xs == xs[..n] + [xs[n]] && ys == ys[..n] + [ys[n]];
    }
  }

  lemma LastIsGreatest<T>(key: T -> Key, xs: seq<T>, s: set<T>)
    requires Listing(key, xs, s) && xs != []
    ensures forall x | x in s && x != xs[|xs| - 1] :: KeyLess(key(x), key(xs[|xs| - 1]))
  {
    forall x | x in s && x != xs[|xs| - 1] ensures KeyLess(key(x), key(xs[|xs| - 1])) {
      assert x in Elements(xs);
    }
  }

  lemma WithoutLast<T>(key: T -> Key, xs: seq<T>, s: set<T>)
    requires Listing(key, xs, s) && xs != []
    ensures Listing(key, xs[..|xs| - 1], s - {xs[|xs| - 1]})
  {
    var n := |xs| - 1;
    KeyTrichotomy(key(xs[n]), key(xs[n]));
    forall x ensures x in Elements(xs[..n]) <==> x in s - {xs[n]} {
      if x in s { assert x in Elements(xs); }
    }
  }

  /** sorted(s, key=key), by insertion. */
  method Sort<T(==, !new)>(key: T -> Key, s: set<T>) returns (xs: seq<T>)
    requires Distinguishes(key, s)
    ensures Listing(key, xs, s)
  {
    xs := [];
    var rest := s;
    while rest != {}
      invariant rest <= s && Listing(key, xs, s - rest)
      decreases rest
    {
      var x :| x in rest;
      assert forall y | y in xs :: y in Elements(xs) && key(y) != key(x);
      xs := Insert(key, xs, x);
      rest := rest - {x};
      assert s - rest == (s - (rest + {x})) + {x};
    }
    assert s - rest == s;
  }

  method Insert<T(==)>(key: T -> Key, xs: seq<T>, x: T) returns (ys: seq<T>)
    requires Increasing(key, xs) && forall y | y in xs :: key(y) != key(x)
    ensures Increasing(key, ys) && Elements(ys) == Elements(xs) + {x}
  {
    hide KeyLess;
    var i := 0;
    while i < |xs| && KeyLess(key(xs[i]), key(x))
      invariant 0 <= i <= |xs| && forall k | 0 <= k < i :: KeyLess(key(xs[k]), key(x))
    {
      i := i + 1;
    }
    if i < |xs| {
      KeyTrichotomy(key(xs[i]), key(x));
      assert xs[i] in xs;
      forall k | i < k < |xs| ensures KeyLess(key(x), key(xs[k])) {
        KeyTransitive(key(x), key(xs[i]), key(xs[k]));
      }
    }
    ys := xs[..i] + [x] + xs[i..];
    assert Elements(ys) == Elements(xs) + {x} by {
      assert xs == xs[..i] + xs[i..];
    }
  }
}
