/** `Array.prototype.sort` with the source's numeric comparators. The language standard requires a
    stable sort; for a consistent comparator that fixes the result, and insertion sort computes it.
    The comparators subtract numeric keys, so a key that is `NaN` makes the difference `NaN`, which
    the sort reads as 0. Such a comparator is not consistent, and the standard then leaves the order
    to the implementation; the model takes the order insertion sort gives. */
module StableSort {
  import opened Js

  /** How a comparator orders keys: `a - b`, `b - a`, or the constant 0 for a sort key the source
      does not recognise. */
  datatype Direction = Ascending | Descending | Unordered

  /** The sign of the comparator's result for `a` and `b`; 0 when either key is `NaN` (`None`). */
  function Compare<T>(key: T -> Option<real>, dir: Direction, a: T, b: T): int {
    var ka, kb := key(a), key(b);
    if dir == Unordered || ka.None? || kb.None? then 0
    else
      var d := if dir == Ascending then ka.value - kb.value else kb.value - ka.value;
      if d < 0.0 then -1 else if d > 0.0 then 1 else 0
  }

  /** Every key of `s` is a number. */
  predicate Numeric<T>(s: seq<T>, key: T -> Option<real>) {
    forall i :: 0 <= i < |s| ==> key(s[i]).Some?
  }

  /** No element of `s` compares above a later one. */
  predicate Ordered<T>(s: seq<T>, key: T -> Option<real>, dir: Direction) {
    forall i, j :: 0 <= i < j < |s| ==> Compare(key, dir, s[i], s[j]) <= 0
  }

  /** The elements of `s` whose key is `v`, in their order in `s`. */
  function WithKey<T>(s: seq<T>, key: T -> Option<real>, v: Option<real>): seq<T> {
    if s == [] then []
    else
      var rest := WithKey(s[..|s| - 1], key, v);
      if key(s[|s| - 1]) == v then rest + [s[|s| - 1]] else rest
  }

  /** One step of insertion sort: `x` moves left past the elements that compare above it. */
  function Insert<T>(s: seq<T>, x: T, key: T -> Option<real>, dir: Direction): seq<T> {
    if s == [] then [x]
    else if Compare(key, dir, s[|s| - 1], x) > 0 then Insert(s[..|s| - 1], x, key, dir) + [s[|s| - 1]]
    else s + [x]
  }

  /** The stable sort of `s`: each element inserted, left to right, into the sorted prefix. */
  function Sort<T>(s: seq<T>, key: T -> Option<real>, dir: Direction): seq<T> {
    if s == [] then [] else Insert(Sort(s[..|s| - 1], key, dir), s[|s| - 1], key, dir)
  }

  // ---------------------------------------------------------------------------------------------
  // Permutation

  lemma {:induction false} InsertPermutes<T>(s: seq<T>, x: T, key: T -> Option<real>, dir: Direction)
    ensures multiset(Insert(s, x, key, dir)) == multiset(s) + multiset{x}
    ensures |Insert(s, x, key, dir)| == |s| + 1
  {
    if s != [] && Compare(key, dir, s[|s| - 1], x) > 0 {
      var init, last := s[..|s| - 1], s[|s| - 1];
      InsertPermutes(init, x, key, dir);
      MultisetLast(s);
      assert Insert(s, x, key, dir) == Insert(init, x, key, dir) + [last];
    }
  }

  /** The sorted list holds exactly the elements of the input, as often as the input does. */
  lemma {:induction false} SortPermutes<T>(s: seq<T>, key: T -> Option<real>, dir: Direction)
    ensures multiset(Sort(s, key, dir)) == multiset(s)
    ensures |Sort(s, key, dir)| == |s|
  {
    if s != [] {
      var init, last := s[..|s| - 1], s[|s| - 1];
      SortPermutes(init, key, dir);
      InsertPermutes(Sort(init, key, dir), last, key, dir);
      MultisetLast(s);
      assert Sort(s, key, dir) == Insert(Sort(init, key, dir), last, key, dir);
    }
  }

  lemma MultisetLast<T>(s: seq<T>)
    requires s != []
    ensures multiset(s) == multiset(s[..|s| - 1]) + multiset{s[|s| - 1]}
  {
    assert s == s[..|s| - 1] + [s[|s| - 1]];
  }

  // ---------------------------------------------------------------------------------------------
  // Order

  /** Comparison of numeric keys is transitive. */
  lemma CompareTransitive<T>(key: T -> Option<real>, dir: Direction, a: T, b: T, c: T)
    requires key(a).Some? && key(b).Some? && key(c).Some?
    requires Compare(key, dir, a, b) <= 0 && Compare(key, dir, b, c) <= 0
    ensures Compare(key, dir, a, c) <= 0
  {
  }

  /** If every element of `s`, and `x`, compares at most `y`, so does every element after inserting `x`. */
  lemma {:induction false} InsertBelow<T>(s: seq<T>, x: T, y: T, key: T -> Option<real>, dir: Direction)
    requires forall i :: 0 <= i < |s| ==> Compare(key, dir, s[i], y) <= 0
    requires Compare(key, dir, x, y) <= 0
    ensures forall e :: e in Insert(s, x, key, dir) ==> Compare(key, dir, e, y) <= 0
  {
    if s != [] && Compare(key, dir, s[|s| - 1], x) > 0 {
      InsertBelow(s[..|s| - 1], x, y, key, dir);
    }
  }

  lemma {:induction false} InsertOrdered<T>(s: seq<T>, x: T, key: T -> Option<real>, dir: Direction)
    requires Ordered(s, key, dir) && Numeric(s, key) && key(x).Some?
    ensures Ordered(Insert(s, x, key, dir), key, dir)
  {
    if s != [] {
      var init, last := s[..|s| - 1], s[|s| - 1];
      if Compare(key, dir, last, x) > 0 {
        InsertOrdered(init, x, key, dir);
        InsertBelow(init, x, last, key, dir);
        var r := Insert(init, x, key, dir);
        assert forall i :: 0 <= i < |r| ==> r[i] in r;
      } else {
        forall i | 0 <= i < |s|
          ensures Compare(key, dir, s[i], x) <= 0
        {
          if i < |s| - 1 {
            CompareTransitive(key, dir, s[i], last, x);
          }
        }
      }
    }
  }

  lemma {:induction false} InsertNumeric<T>(s: seq<T>, x: T, key: T -> Option<real>, dir: Direction)
    requires Numeric(s, key) && key(x).Some?
    ensures Numeric(Insert(s, x, key, dir), key)
  {
    InsertPermutes(s, x, key, dir);
    var r := Insert(s, x, key, dir);
    forall i | 0 <= i < |r|
      ensures key(r[i]).Some?
    {
      assert r[i] in multiset(r);
    }
  }

  /** When every key is a number, the result is in comparator order. */
  lemma {:induction false} SortOrdered<T>(s: seq<T>, key: T -> Option<real>, dir: Direction)
    requires Numeric(s, key)
    ensures Ordered(Sort(s, key, dir), key, dir) && Numeric(Sort(s, key, dir), key)
  {
    if s != [] {
      SortOrdered(s[..|s| - 1], key, dir);
      InsertOrdered(Sort(s[..|s| - 1], key, dir), s[|s| - 1], key, dir);
      InsertNumeric(Sort(s[..|s| - 1], key, dir), s[|s| - 1], key, dir);
    }
  }

  /** In an ordered list of numbers, ascending keys never decrease and descending ones never
      increase. */
  lemma OrderedValues<T>(s: seq<T>, key: T -> Option<real>, dir: Direction)
    requires Ordered(s, key, dir) && Numeric(s, key)
    ensures dir == Ascending ==> forall i, j :: 0 <= i < j < |s| ==> key(s[i]).value <= key(s[j]).value
    ensures dir == Descending ==> forall i, j :: 0 <= i < j < |s| ==> key(s[i]).value >= key(s[j]).value
  {
    forall i, j | 0 <= i < j < |s|
      ensures dir == Ascending ==> key(s[i]).value <= key(s[j]).value
      ensures dir == Descending ==> key(s[i]).value >= key(s[j]).value
    {
      assert Compare(key, dir, s[i], s[j]) <= 0;
    }
  }

  // ---------------------------------------------------------------------------------------------
  // Stability

  lemma WithKeySnoc<T>(s: seq<T>, y: T, key: T -> Option<real>, v: Option<real>)
    ensures WithKey(s + [y], key, v) == WithKey(s, key, v) + (if key(y) == v then [y] else [])
  {
    assert (s + [y])[..|s|] == s;
  }

  lemma {:induction false} InsertStable<T>(s: seq<T>, x: T, key: T -> Option<real>, dir: Direction, v: Option<real>)
    ensures WithKey(Insert(s, x, key, dir), key, v) == WithKey(s, key, v) + (if key(x) == v then [x] else [])
  {
    if s == [] {
      assert Insert(s, x, key, dir) == [] + [x];
      WithKeySnoc([], x, key, v);
    } else {
      var init, last := s[..|s| - 1], s[|s| - 1];
      assert s == init + [last];
      WithKeySnoc(init, last, key, v);
      var l := if key(last) == v then [last] else [];
      var m := if key(x) == v then [x] else [];
      var w := WithKey(init, key, v);
      if Compare(key, dir, last, x) > 0 {
        var r := Insert(init, x, key, dir);
        assert Insert(s, x, key, dir) == r + [last];
        InsertStable(init, x, key, dir, v);
        WithKeySnoc(r, last, key, v);
        assert l == [] || m == [] by {
          assert key(last) != key(x);
        }
        assert WithKey(r + [last], key, v) == (w + m) + l;
        assert (w + m) + l == (w + l) + m;
      } else {
        assert Insert(s, x, key, dir) == s + [x];
        WithKeySnoc(s, x, key, v);
      }
    }
  }

  /** Stability: for every key value, the elements with that key keep their relative order. */
  lemma {:induction false} SortStable<T>(s: seq<T>, key: T -> Option<real>, dir: Direction, v: Option<real>)
    ensures WithKey(Sort(s, key, dir), key, v) == WithKey(s, key, v)
  {
    if s != [] {
      SortStable(s[..|s| - 1], key, dir, v);
      InsertStable(Sort(s[..|s| - 1], key, dir), s[|s| - 1], key, dir, v);
    }
  }

  /** A comparator that always returns 0 leaves the order as it was. */
  lemma {:induction false} SortUnordered<T>(s: seq<T>, key: T -> Option<real>)
    ensures Sort(s, key, Unordered) == s
  {
    if s != [] {
      SortUnordered(s[..|s| - 1], key);
      assert s[..|s| - 1] + [s[|s| - 1]] == s;
    }
  }

  // ---------------------------------------------------------------------------------------------
  // In place

  /** `a.sort(comparator)`, in place: insertion sort, shifting each element left past the elements
      that compare above it. */
  method SortInPlace<T>(a: array<T>, key: T -> Option<real>, dir: Direction)
    modifies a
    ensures a[..] == Sort(old(a[..]), key, dir)
  {
    ghost var input := a[..];
    for i := 0 to a.Length
      invariant a[..i] == Sort(input[..i], key, dir)
      invariant a[i..] == input[i..]
    {
      assert a[i] == input[i];
      InsertInPlace(a, i, key, dir);
      assert input[..i + 1][..i] == input[..i];
    }
    assert input[..a.Length] == input;
  }

  /** One pass of the sort: `a[i]` is moved into the prefix `a[..i]`. */
  method InsertInPlace<T>(a: array<T>, i: nat, key: T -> Option<real>, dir: Direction)
    requires i < a.Length
    modifies a
    ensures a[..i + 1] == Insert(old(a[..i]), old(a[i]), key, dir)
    ensures a[i + 1..] == old(a[i + 1..])
  {
    ghost var sorted := a[..i];
    ghost var rest := a[i + 1..];
    var x := a[i];
    var j := i;
    while j > 0 && Compare(key, dir, a[j - 1], x) > 0
      invariant 0 <= j <= i
      invariant forall k :: 0 <= k < j ==> a[k] == sorted[k]
      invariant forall k :: j < k <= i ==> a[k] == sorted[k - 1]
      invariant a[i + 1..] == rest
      invariant forall k :: j <= k < i ==> Compare(key, dir, sorted[k], x) > 0
    {
      a[j] := a[j - 1];
      j := j - 1;
    }
    assert j == 0 || Compare(key, dir, sorted[j - 1], x) <= 0;
    a[j] := x;
    InsertAt(sorted, x, j, key, dir);
    Shifted(a[..i + 1], sorted, x, j);
  }

  /** The prefix after the shifting loop: the elements before `j`, then `x`, then the rest moved
      one place right. */
  lemma Shifted<T>(b: seq<T>, sorted: seq<T>, x: T, j: nat)
    requires |b| == |sorted| + 1 && j <= |sorted|
    requires forall k :: 0 <= k < j ==> b[k] == sorted[k]
    requires b[j] == x
    requires forall k :: j < k < |b| ==> b[k] == sorted[k - 1]
    ensures b == sorted[..j] + [x] + sorted[j..]
  {
  }

  /** Where `Insert` puts `x`: after the last element that does not compare above it. */
  lemma InsertAt<T>(s: seq<T>, x: T, j: nat, key: T -> Option<real>, dir: Direction)
    requires j <= |s|
    requires forall k :: j <= k < |s| ==> Compare(key, dir, s[k], x) > 0
    requires j == 0 || Compare(key, dir, s[j - 1], x) <= 0
    ensures Insert(s, x, key, dir) == s[..j] + [x] + s[j..]
  {
    var a, b := s[..j], s[j..];
    assert forall k :: 0 <= k < |b| ==> b[k] == s[j + k];
    assert a + b == s;
    InsertBefore(a, b, x, key, dir);
  }

  /** `x` inserted into `a + b` lands between them when every element of `b` compares above it
      and the last of `a` does not. */
  lemma {:induction false} InsertBefore<T>(a: seq<T>, b: seq<T>, x: T, key: T -> Option<real>, dir: Direction)
    requires forall k :: 0 <= k < |b| ==> Compare(key, dir, b[k], x) > 0
    requires a == [] || Compare(key, dir, a[|a| - 1], x) <= 0
    ensures Insert(a + b, x, key, dir) == a + [x] + b
  {
    if b == [] {
      assert a + b == a;
    } else {
      var b', y := b[..|b| - 1], b[|b| - 1];
      SplitLast(a, b);
      SplitLast(a + [x], b);
      assert forall k :: 0 <= k < |b'| ==> b'[k] == b[k];
      InsertBefore(a, b', x, key, dir);
      InsertAbove(a + b', y, x, key, dir);
    }
  }

  /** An element that compares above `x` stays after it. */
  lemma InsertAbove<T>(s: seq<T>, y: T, x: T, key: T -> Option<real>, dir: Direction)
    requires Compare(key, dir, y, x) > 0
    ensures Insert(s + [y], x, key, dir) == Insert(s, x, key, dir) + [y]
  {
    assert (s + [y])[..|s|] == s;
  }

  lemma SplitLast<T>(a: seq<T>, b: seq<T>)
    requires b != []
    ensures a + b == (a + b[..|b| - 1]) + [b[|b| - 1]]
  {
    assert b == b[..|b| - 1] + [b[|b| - 1]];
  }
}
