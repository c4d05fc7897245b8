// Strict total orders, the library sort, and the uniqueness of a sorted arrangement,
// which is what makes a result independent of Go's map iteration order.
module Ordering {

  ghost predicate StrictTotal<T(!new)>(less: (T, T) -> bool) {
    && (forall x :: !less(x, x))
    && (forall x, y :: less(x, y) || x == y || less(y, x))
    && (forall x, y, z :: less(x, y) && less(y, z) ==> less(x, z))
  }

  predicate Ascending<T>(less: (T, T) -> bool, s: seq<T>) {
    forall i, j :: 0 <= i < j < |s| ==> less(s[i], s[j])
  }

  ghost function Elements<T>(s: seq<T>): set<T> {
    set x | x in s
  }

  function Insert<T>(less: (T, T) -> bool, x: T, s: seq<T>): seq<T> {
    if s == [] || less(x, s[0]) then [x] + s
    else [s[0]] + Insert(less, x, s[1..])
  }

  // sort.Slice and sort.Strings, as insertion.
  function Sort<T>(less: (T, T) -> bool, s: seq<T>): seq<T> {
    if s == [] then [] else Insert(less, s[0], Sort(less, s[1..]))
  }

  lemma {:induction false} InsertCounts<T>(less: (T, T) -> bool, x: T, s: seq<T>)
    ensures multiset(Insert(less, x, s)) == multiset(s) + multiset{x}
  {
    if s != [] && !less(x, s[0]) {
      InsertCounts(less, x, s[1..]);
      assert s == [s[0]] + s[1..];
    }
  }

  lemma ConsAscends<T>(less: (T, T) -> bool, x: T, s: seq<T>)
    requires Ascending(less, s) && forall y :: y in s ==> less(x, y)
    ensures Ascending(less, [x] + s)
  {
  }

  lemma {:induction false} InsertAscends<T(!new)>(less: (T, T) -> bool, x: T, s: seq<T>)
    requires StrictTotal(less) && Ascending(less, s) && x !in s
    ensures Ascending(less, Insert(less, x, s))
  {
    if s == [] {
    } else if less(x, s[0]) {
      assert forall y :: y in s ==> less(x, y);
      ConsAscends(less, x, s);
    } else {
      var tail := Insert(less, x, s[1..]);
      InsertAscends(less, x, s[1..]);
      InsertCounts(less, x, s[1..]);
      forall y | y in tail ensures less(s[0], y) {
        assert y in multiset(tail);
        assert y == x || y in s[1..];
      }
      ConsAscends(less, s[0], tail);
    }
  }

  predicate Distinct<T(==)>(s: seq<T>) {
    forall i, j :: 0 <= i < j < |s| ==> s[i] != s[j]
  }

  function Flatten<T>(batches: seq<seq<T>>): seq<T> {
    if batches == [] then [] else Flatten(batches[..|batches| - 1]) + batches[|batches| - 1]
  }

  lemma FlattenAppend<T>(batches: seq<seq<T>>, batch: seq<T>)
    ensures Flatten(batches + [batch]) == Flatten(batches) + batch
  {
    assert (batches + [batch])[..|batches|] == batches;
  }

  lemma {:induction false} InFlattened<T>(batches: seq<seq<T>>, x: T) returns (i: nat, j: nat)
    requires x in Flatten(batches)
    ensures i < |batches| && j < |batches[i]| && batches[i][j] == x
  {
    var last := |batches| - 1;
    if x in batches[last] {
      i := last;
      j :| 0 <= j < |batches[last]| && batches[last][j] == x;
    } else {
      i, j := InFlattened(batches[..last], x);
    }
  }

  lemma Associative<T>(a: seq<T>, b: seq<T>, c: seq<T>)
    ensures (a + b) + c == a + (b + c)
  {
  }

  lemma LastInjective<T>(a: seq<T>, x: T, b: seq<T>, y: T)
    requires a + [x] == b + [y]
    ensures a == b && x == y
  {
    assert (a + [x])[|a|] == x && (a + [x])[..|a|] == a;
    assert (b + [y])[|b|] == y && (b + [y])[..|b|] == b;
  }

  lemma DistinctAppend<T>(s: seq<T>, x: T)
    requires Distinct(s) && x !in Elements(s)
    ensures Distinct(s + [x]) && Elements(s + [x]) == Elements(s) + {x}
  {
    assert forall i :: 0 <= i < |s| ==> s[i] in Elements(s);
  }

  lemma SameElements<T>(a: seq<T>, b: seq<T>)
    requires multiset(a) == multiset(b)
    ensures Elements(a) == Elements(b)
  {
    assert forall x :: x in a <==> x in multiset(a);
    assert forall x :: x in b <==> x in multiset(b);
  }

  lemma {:induction false} SortSorts<T(!new)>(less: (T, T) -> bool, s: seq<T>)
    requires StrictTotal(less) && Distinct(s)
    ensures Ascending(less, Sort(less, s)) && Elements(Sort(less, s)) == Elements(s)
    ensures multiset(Sort(less, s)) == multiset(s)
  {
    if s != [] {
      var head, tail := s[0], s[1..];
      SortSorts(less, tail);
      assert s == [head] + tail;
      assert head !in Sort(less, tail) by {
        assert head !in Elements(tail);
      }
      InsertAscends(less, head, Sort(less, tail));
      InsertCounts(less, head, Sort(less, tail));
    }
    SameElements(Sort(less, s), s);
  }

  // A set has one ascending arrangement.
  lemma {:induction false} AscendingUnique<T(!new)>(less: (T, T) -> bool, a: seq<T>, b: seq<T>)
    requires StrictTotal(less) && Ascending(less, a) && Ascending(less, b)
    requires Elements(a) == Elements(b)
    ensures a == b
  {
    if a == [] {
      if b != [] {
        HeadIsLeast(less, b, a);
        assert false;
      }
    } else {
      assert a[0] in Elements(a);
      HeadIsLeast(less, a, b);
      HeadIsLeast(less, b, a);
      assert Elements(a[1..]) == Elements(a) - {a[0]} by { HeadSplits(less, a); }
      assert Elements(b[1..]) == Elements(b) - {b[0]} by { HeadSplits(less, b); }
      AscendingUnique(less, a[1..], b[1..]);
      assert a == [a[0]] + a[1..] && b == [b[0]] + b[1..];
    }
  }

  lemma HeadIsLeast<T(!new)>(less: (T, T) -> bool, a: seq<T>, b: seq<T>)
    requires StrictTotal(less) && Ascending(less, a) && a != [] && Elements(a) == Elements(b)
    ensures b != [] && !less(b[0], a[0])
  {
    assert a[0] in Elements(b);
    assert b[0] in Elements(a);
    var i :| 0 <= i < |a| && a[i] == b[0];
    assert i == 0 || less(a[0], a[i]);
  }

  lemma HeadSplits<T(!new)>(less: (T, T) -> bool, a: seq<T>)
    requires StrictTotal(less) && Ascending(less, a) && a != []
    ensures Elements(a[1..]) == Elements(a) - {a[0]}
  {
    assert a == [a[0]] + a[1..];
    forall j | 0 <= j < |a[1..]|
      ensures a[1..][j] != a[0]
    {
      assert less(a[0], a[j + 1]);
    }
  }

  lemma ConsElements<T>(x: T, s: seq<T>)
    ensures Elements([x] + s) == {x} + Elements(s)
  {
  }

  lemma {:induction false} InsertElements<T>(less: (T, T) -> bool, x: T, s: seq<T>)
    ensures Elements(Insert(less, x, s)) == Elements(s) + {x}
  {
    if s == [] || less(x, s[0]) {
      ConsElements(x, s);
    } else {
      InsertElements(less, x, s[1..]);
      assert s == [s[0]] + s[1..];
      ConsElements(s[0], s[1..]);
      ConsElements(s[0], Insert(less, x, s[1..]));
    }
  }

  // The ascending arrangement of a finite set.
  ghost function Arranged<T(!new)>(less: (T, T) -> bool, s: set<T>): (a: seq<T>)
    requires StrictTotal(less)
    ensures Ascending(less, a) && Elements(a) == s
  {
    if s == {} then []
    else
      var x :| x in s;
      var rest := Arranged(less, s - {x});
      assert x !in Elements(rest);
      InsertAscends(less, x, rest);
      InsertElements(less, x, rest);
      assert (s - {x}) + {x} == s;
      Insert(less, x, rest)
  }

  // The values of a map in whatever order iteration yields them, given that a value
  // determines its key.
  method MapValues<K(==), V(==)>(m: map<K, V>, ghost key: V -> K) returns (values: seq<V>)
    requires forall k :: k in m ==> key(m[k]) == k
    ensures Distinct(values) && Elements(values) == m.Values
  {
    values := [];
    var remaining := m.Keys;
    while remaining != {}
      invariant remaining <= m.Keys
      invariant Distinct(values)
      invariant forall k :: k in m && k !in remaining ==> m[k] in values
      invariant forall v :: v in values ==> key(v) in m && key(v) !in remaining && m[key(v)] == v
      decreases |remaining|
    {
      var k :| k in remaining;
      values := values + [m[k]];
      remaining := remaining - {k};
    }
    assert forall v :: v in m.Values ==> exists k :: k in m && m[k] == v;
  }
}
