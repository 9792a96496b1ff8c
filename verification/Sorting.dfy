/**
 Sorting by a string key, as `sort.Slice` is used. What Go promises of it is
 that the result is sorted and a permutation; SortBy is one such sorting, and
 keeps the order of equal keys.
 */
module Sorting {

  // Go compares strings byte by byte.
  predicate AtMost(a: string, b: string) {
    a == "" || (b != "" && (a[0] < b[0] || (a[0] == b[0] && AtMost(a[1..], b[1..]))))
  }

  lemma {:induction false} AtMostTotal(a: string, b: string)
    ensures AtMost(a, b) || AtMost(b, a)
    ensures AtMost(a, b) && AtMost(b, a) ==> a == b
  {
    if a != "" && b != "" && a[0] == b[0] {
      AtMostTotal(a[1..], b[1..]);
      assert a == [a[0]] + a[1..] && b == [b[0]] + b[1..];
    }
  }

  lemma {:induction false} AtMostTransitive(a: string, b: string, c: string)
    requires AtMost(a, b) && AtMost(b, c)
    ensures AtMost(a, c)
  {
    if a != "" && a[0] == b[0] == c[0] {
      AtMostTransitive(a[1..], b[1..], c[1..]);
    }
  }

  // That order: a proper beginning comes first, and otherwise the first byte in
  // which the two differ decides.
  lemma {:induction false} AtMostLaw(a: string, b: string)
    ensures AtMost(a, b) <==> a <= b || exists k :: 0 <= k < |a| && k < |b| && a[..k] == b[..k] && a[k] < b[k]
  {
    if a != "" && b != "" {
      if a[0] == b[0] {
        AtMostLaw(a[1..], b[1..]);
        BytesShift(a, b);
      } else {
        assert a[..0] == b[..0];
        assert forall k :: 0 < k < |a| && k < |b| ==> a[..k][0] != b[..k][0];
      }
    }
  }

  lemma BytesShift(a: string, b: string)
    requires a != "" && b != "" && a[0] == b[0]
    ensures a <= b <==> a[1..] <= b[1..]
    ensures (exists k :: 0 <= k < |a| && k < |b| && a[..k] == b[..k] && a[k] < b[k])
            <==> exists k :: 0 <= k < |a| - 1 && k < |b| - 1 && a[1..][..k] == b[1..][..k] && a[1..][k] < b[1..][k]
  {
    assert a == [a[0]] + a[1..] && b == [b[0]] + b[1..];
    forall k | 0 < k < |a| && k < |b| ensures a[..k] == b[..k] <==> a[1..][..k - 1] == b[1..][..k - 1] {
      assert a[..k] == [a[0]] + a[1..][..k - 1] && b[..k] == [b[0]] + b[1..][..k - 1];
    }
    if k :| 0 <= k < |a| && k < |b| && a[..k] == b[..k] && a[k] < b[k] {
      assert k > 0 && a[1..][k - 1] < b[1..][k - 1];
    }
    if k :| 0 <= k < |a| - 1 && k < |b| - 1 && a[1..][..k] == b[1..][..k] && a[1..][k] < b[1..][k] {
      assert a[..k + 1] == b[..k + 1] && a[k + 1] < b[k + 1];
    }
  }

  ghost predicate Sorted<T>(xs: seq<T>, key: T -> string) {
    forall i, j :: 0 <= i < j < |xs| ==> AtMost(key(xs[i]), key(xs[j]))
  }

  function Insert<T>(x: T, sorted: seq<T>, key: T -> string): seq<T> {
    if sorted == [] || AtMost(key(x), key(sorted[0])) then [x] + sorted
    else [sorted[0]] + Insert(x, sorted[1..], key)
  }

  function SortBy<T>(xs: seq<T>, key: T -> string): seq<T> {
    if xs == [] then [] else Insert(xs[0], SortBy(xs[1..], key), key)
  }

  lemma {:induction false} InsertSorts<T>(x: T, sorted: seq<T>, key: T -> string)
    requires Sorted(sorted, key)
    ensures Sorted(Insert(x, sorted, key), key)
    ensures multiset(Insert(x, sorted, key)) == multiset(sorted) + multiset{x}
  {
    if sorted == [] {
    } else if AtMost(key(x), key(sorted[0])) {
      forall j | 0 <= j < |sorted| ensures AtMost(key(x), key(sorted[j])) {
        if j > 0 {
          AtMostTransitive(key(x), key(sorted[0]), key(sorted[j]));
        }
      }
    } else {
      var head, tail := sorted[0], sorted[1..];
      assert sorted == [head] + tail;
      InsertSorts(x, tail, key);
      var rest := Insert(x, tail, key);
      AtMostTotal(key(x), key(head));
      forall j | 0 <= j < |rest| ensures AtMost(key(head), key(rest[j])) {
        assert rest[j] in multiset(rest);
        assert rest[j] == x || rest[j] in tail;
      }
    }
  }

  lemma {:induction false} SortSorts<T>(xs: seq<T>, key: T -> string)
    ensures Sorted(SortBy(xs, key), key)
    ensures multiset(SortBy(xs, key)) == multiset(xs)
    ensures |SortBy(xs, key)| == |xs|
  {
    if xs != [] {
      SortSorts(xs[1..], key);
      InsertSorts(xs[0], SortBy(xs[1..], key), key);
      assert xs == [xs[0]] + xs[1..];
    }
    assert |multiset(SortBy(xs, key))| == |multiset(xs)|;
  }

  // Elements with one key can change places.
  lemma SwapKeepsSorted<T>(xs: seq<T>, key: T -> string, p: nat, q: nat)
    requires Sorted(xs, key) && p < |xs| && q < |xs| && key(xs[p]) == key(xs[q])
    ensures Sorted(xs[p := xs[q]][q := xs[p]], key)
    ensures multiset(xs[p := xs[q]][q := xs[p]]) == multiset(xs)
  {
    var swapped := xs[p := xs[q]][q := xs[p]];
    assert forall k :: 0 <= k < |xs| ==> key(swapped[k]) == key(xs[k]);
  }

  lemma HeadIsLeast<T>(xs: seq<T>, key: T -> string, x: T)
    requires Sorted(xs, key) && x in xs
    ensures AtMost(key(xs[0]), key(x))
  {
    var i :| 0 <= i < |xs| && xs[i] == x;
    AtMostTotal(key(x), key(x));
  }

  // The heads of two sortings of the same elements have the same key.
  lemma SameHeadKey<T>(a: seq<T>, b: seq<T>, key: T -> string)
    requires Sorted(a, key) && Sorted(b, key) && multiset(a) == multiset(b) && a != [] && b != []
    ensures b[0] in a && key(a[0]) == key(b[0])
  {
    assert a[0] in multiset(b) && b[0] in multiset(a);
    HeadIsLeast(a, key, b[0]);
    HeadIsLeast(b, key, a[0]);
    AtMostTotal(key(a[0]), key(b[0]));
  }

  lemma SameTails<T>(a: seq<T>, b: seq<T>)
    requires multiset(a) == multiset(b) && a != [] && b != [] && a[0] == b[0]
    ensures multiset(a[1..]) == multiset(b[1..])
  {
    assert a == [a[0]] + a[1..] && b == [b[0]] + b[1..];
    assert multiset(a[1..]) == multiset(a) - multiset{a[0]};
    assert multiset(b[1..]) == multiset(b) - multiset{b[0]};
  }

  // If equal keys mean equal elements, every sorting is the same list.
  lemma {:induction false} SortedUnique<T>(a: seq<T>, b: seq<T>, key: T -> string)
    requires Sorted(a, key) && Sorted(b, key) && multiset(a) == multiset(b)
    requires forall x, y :: x in a && y in a && key(x) == key(y) ==> x == y
    ensures a == b
  {
    assert |multiset(a)| == |a| && |multiset(b)| == |b|;
    if a != [] {
      SameHeadKey(a, b, key);
      assert a[0] == b[0];
      SameTails(a, b);
      SortedUnique(a[1..], b[1..], key);
      assert a == [a[0]] + a[1..] && b == [b[0]] + b[1..];
    }
  }
}
