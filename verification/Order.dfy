/** Strings in lexicographic order, and sequences arranged by a string key. */
module Order {

  /** Lexicographic order by character. */
  predicate Leq(a: string, b: string) {
    a == "" || (b != "" && (a[0] < b[0] || (a[0] == b[0] && Leq(a[1..], b[1..]))))
  }

  lemma {:induction false} LeqTotal(a: string, b: string)
    ensures Leq(a, b) || Leq(b, a)
    ensures Leq(a, b) && Leq(b, a) ==> a == b
  {
    if a != "" && b != "" && a[0] == b[0] {
      LeqTotal(a[1..], b[1..]);
      assert a == [a[0]] + a[1..] && b == [b[0]] + b[1..];
    }
  }

  /** Up to position `k` the strings agree, and there `a` ends or has the smaller character. */
  predicate BeforeAt(a: string, b: string, k: nat) {
    && k <= |a| && k <= |b| && a[..k] == b[..k]
    && (k == |a| || (k < |b| && a[k] < b[k]))
  }

  lemma NotBefore(a: string, b: string, k: nat)
    requires a != "" && (b == "" || b[0] < a[0])
    ensures !BeforeAt(a, b, k)
  {
    if 0 < k <= |a| && k <= |b| {
      assert a[..k][0] == a[0] && b[..k][0] == b[0];
    }
  }

  /** The order is decided where two strings first differ: by the smaller character, or by ending first. */
  lemma {:induction false} LeqAtFirstDifference(a: string, b: string)
    ensures Leq(a, b) <==> exists k: nat :: BeforeAt(a, b, k)
  {
    if a == "" {
      assert BeforeAt(a, b, 0);
    } else if b != "" && a[0] == b[0] {
      LeqAtFirstDifference(a[1..], b[1..]);
      if k: nat :| BeforeAt(a[1..], b[1..], k) {
        assert a[..k + 1] == [a[0]] + a[1..][..k] && b[..k + 1] == [b[0]] + b[1..][..k];
        assert BeforeAt(a, b, k + 1);
      }
      if k: nat :| BeforeAt(a, b, k) {
        assert k > 0;
        assert a[1..][..k - 1] == a[..k][1..] && b[1..][..k - 1] == b[..k][1..];
        assert BeforeAt(a[1..], b[1..], k - 1);
      }
    } else if b != "" && a[0] < b[0] {
      assert BeforeAt(a, b, 0);
    } else {
      forall k: nat ensures !BeforeAt(a, b, k) {
        NotBefore(a, b, k);
      }
    }
  }

  lemma {:induction false} LeqTransitive(a: string, b: string, c: string)
    requires Leq(a, b) && Leq(b, c)
    ensures Leq(a, c)
  {
    if a != "" && a[0] == b[0] == c[0] {
      LeqTransitive(a[1..], b[1..], c[1..]);
    }
  }

  predicate Sorted(xs: seq<string>) {
    forall i, j :: 0 <= i < j < |xs| ==> Leq(xs[i], xs[j])
  }

  lemma FirstIsLeast(xs: seq<string>, y: string)
    requires Sorted(xs) && y in multiset(xs)
    ensures Leq(xs[0], y)
  {
    var i :| 0 <= i < |xs| && xs[i] == y;
    LeqTotal(y, y);
  }

  lemma SameFirst(xs: seq<string>, ys: seq<string>)
    requires Sorted(xs) && Sorted(ys) && multiset(xs) == multiset(ys) && xs != []
    ensures ys != [] && xs[0] == ys[0]
  {
    assert xs[0] in multiset(ys);
    assert ys[0] in multiset(xs);
    FirstIsLeast(xs, ys[0]);
    FirstIsLeast(ys, xs[0]);
    LeqTotal(xs[0], ys[0]);
  }

  lemma SameTail(xs: seq<string>, ys: seq<string>)
    requires multiset(xs) == multiset(ys) && xs != [] && ys != [] && xs[0] == ys[0]
    ensures multiset(xs[1..]) == multiset(ys[1..])
  {
    assert xs == [xs[0]] + xs[1..] && ys == [ys[0]] + ys[1..];
    assert multiset(xs[1..]) == multiset(xs) - multiset{xs[0]};
    assert multiset(ys[1..]) == multiset(ys) - multiset{ys[0]};
  }

  /** A sorted arrangement of given strings is unique, so it does not matter which sort produced it. */
  lemma {:induction false} SortedUnique(xs: seq<string>, ys: seq<string>)
    requires Sorted(xs) && Sorted(ys) && multiset(xs) == multiset(ys)
    ensures xs == ys
  {
    if xs == [] {
      assert |ys| == |multiset(ys)|;
    } else {
      SameFirst(xs, ys);
      SameTail(xs, ys);
      assert xs == [xs[0]] + xs[1..] && ys == [ys[0]] + ys[1..];
      TailSorted(xs[0], xs[1..]);
      TailSorted(ys[0], ys[1..]);
      SortedUnique(xs[1..], ys[1..]);
    }
  }

  function Map<T, U>(f: T -> U, xs: seq<T>): (ys: seq<U>)
    ensures |ys| == |xs| && forall i :: 0 <= i < |xs| ==> ys[i] == f(xs[i])
  {
    seq(|xs|, i requires 0 <= i < |xs| => f(xs[i]))
  }

  lemma MapConcat<T, U>(f: T -> U, xs: seq<T>, ys: seq<T>)
    ensures Map(f, xs + ys) == Map(f, xs) + Map(f, ys)
  {
  }

  lemma MapCons<T, U>(f: T -> U, x: T, xs: seq<T>)
    ensures Map(f, [x] + xs) == [f(x)] + Map(f, xs)
  {
  }

  /** Taking an element out of the middle. */
  lemma TakeOut<T>(a: seq<T>, x: T, b: seq<T>)
    ensures multiset(a + b) == multiset(a + ([x] + b)) - multiset{x}
    ensures multiset(a + ([x] + b)) == multiset(a + b) + multiset{x}
  {
  }

  lemma MapTakeOut<T, U>(f: T -> U, a: seq<T>, x: T, b: seq<T>)
    ensures multiset(Map(f, a + ([x] + b))) == multiset(Map(f, a + b)) + multiset{f(x)}
  {
    MapConcat(f, a, b);
    MapConcat(f, a, [x] + b);
    MapCons(f, x, b);
    TakeOut(Map(f, a), f(x), Map(f, b));
  }

  lemma FirstOut<T>(xs: seq<T>)
    requires xs != []
    ensures multiset(xs[1..]) == multiset(xs) - multiset{xs[0]}
  {
    assert xs == [xs[0]] + xs[1..];
  }

  /** Sequences with the same elements, the first element of one taken out of both. */
  lemma SameRest<T>(xs: seq<T>, ys: seq<T>) returns (a: seq<T>, b: seq<T>)
    requires multiset(xs) == multiset(ys) && xs != []
    ensures ys == a + ([xs[0]] + b)
    ensures multiset(xs[1..]) == multiset(a + b)
  {
    assert xs[0] in multiset(ys);
    var j :| 0 <= j < |ys| && ys[j] == xs[0];
    a, b := ys[..j], ys[j + 1..];
    assert ys == a + ([xs[0]] + b);
    FirstOut(xs);
    TakeOut(a, xs[0], b);
  }

  /** Rearranging a sequence rearranges what it is mapped to. */
  lemma {:induction false} MapPermutes<T, U>(f: T -> U, xs: seq<T>, ys: seq<T>)
    requires multiset(xs) == multiset(ys)
    ensures multiset(Map(f, xs)) == multiset(Map(f, ys))
    decreases |xs|
  {
    if xs == [] {
      assert |ys| == |multiset(ys)|;
    } else {
      var x, xs' := xs[0], xs[1..];
      var a, b := SameRest(xs, ys);
      MapPermutes(f, xs', a + b);
      assert xs == [x] + xs';
      MapCons(f, x, xs');
      MapTakeOut(f, a, x, b);
    }
  }

  function Insert<T>(key: T -> string, t: T, ts: seq<T>): (r: seq<T>)
    ensures multiset(r) == multiset(ts) + multiset{t}
    decreases |ts|
  {
    if ts == [] || Leq(key(t), key(ts[0])) then [t] + ts
    else
      assert ts == [ts[0]] + ts[1..];
      [ts[0]] + Insert(key, t, ts[1..])
  }

  /** The elements in the order of their keys. */
  function Arrange<T>(key: T -> string, ts: seq<T>): (r: seq<T>)
    ensures multiset(r) == multiset(ts)
    decreases |ts|
  {
    if ts == [] then []
    else
      assert ts == [ts[0]] + ts[1..];
      Insert(key, ts[0], Arrange(key, ts[1..]))
  }

  lemma SortedCons(x: string, xs: seq<string>)
    requires Sorted(xs) && forall y :: y in xs ==> Leq(x, y)
    ensures Sorted([x] + xs)
  {
  }

  /** Something before all keys of a sorted sequence can be put first. */
  lemma ConsSorted<T>(key: T -> string, t: T, ts: seq<T>)
    requires Sorted(Map(key, ts)) && forall y :: y in Map(key, ts) ==> Leq(key(t), y)
    ensures Sorted(Map(key, [t] + ts))
  {
    SortedCons(key(t), Map(key, ts));
    MapCons(key, t, ts);
  }

  /** The keys after an insertion are those before it and the new one. */
  lemma InsertKeys<T>(key: T -> string, t: T, ts: seq<T>, y: string)
    requires y in Map(key, Insert(key, t, ts))
    ensures y == key(t) || y in Map(key, ts)
  {
    MapPermutes(key, Insert(key, t, ts), [t] + ts);
    MapCons(key, t, ts);
    assert y in multiset(Map(key, Insert(key, t, ts)));
  }

  lemma {:induction false} InsertSorted<T>(key: T -> string, t: T, ts: seq<T>)
    requires Sorted(Map(key, ts))
    ensures Sorted(Map(key, Insert(key, t, ts)))
    decreases |ts|
  {
    if ts == [] {
    } else if Leq(key(t), key(ts[0])) {
      forall y | y in Map(key, ts) ensures Leq(key(t), y) {
        FirstIsLeast(Map(key, ts), y);
        LeqTransitive(key(t), key(ts[0]), y);
      }
      ConsSorted(key, t, ts);
    } else {
      var first, tail := ts[0], ts[1..];
      assert ts == [first] + tail;
      MapCons(key, first, tail);
      TailSorted(key(first), Map(key, tail));
      InsertSorted(key, t, tail);
      LeqTotal(key(t), key(first));
      forall y | y in Map(key, Insert(key, t, tail)) ensures Leq(key(first), y) {
        InsertKeys(key, t, tail, y);
        if y in Map(key, tail) {
          FirstIsLeast(Map(key, ts), y);
        }
      }
      ConsSorted(key, first, Insert(key, t, tail));
    }
  }

  lemma TailSorted(x: string, xs: seq<string>)
    requires Sorted([x] + xs)
    ensures Sorted(xs)
  {
    assert forall i :: 0 <= i < |xs| ==> ([x] + xs)[i + 1] == xs[i];
  }

  lemma {:induction false} ArrangeSorted<T>(key: T -> string, ts: seq<T>)
    ensures Sorted(Map(key, Arrange(key, ts)))
    decreases |ts|
  {
    if ts != [] {
      ArrangeSorted(key, ts[1..]);
      InsertSorted(key, ts[0], Arrange(key, ts[1..]));
    }
  }

  /** However the same elements are ordered, and whichever sort their keys go through, the result is the
      keys of the arranged elements. */
  lemma AnySortArranges<T>(key: T -> string, xs: seq<T>, ys: seq<T>, sorted: seq<string>)
    requires multiset(xs) == multiset(ys)
    requires Sorted(sorted) && multiset(sorted) == multiset(Map(key, xs))
    ensures sorted == Map(key, Arrange(key, ys))
  {
    MapPermutes(key, xs, Arrange(key, ys));
    ArrangeSorted(key, ys);
    SortedUnique(sorted, Map(key, Arrange(key, ys)));
  }

  /** `sort`: an insertion sort stands for the library's. */
  method Sort(parts: seq<string>) returns (sorted: seq<string>)
    ensures Sorted(sorted) && multiset(sorted) == multiset(parts)
  {
    sorted := [];
    for i := 0 to |parts|
      invariant Sorted(sorted) && multiset(sorted) == multiset(parts[..i])
    {
      var k := 0;
      while k < |sorted| && Leq(sorted[k], parts[i])
        invariant k <= |sorted| && forall j :: 0 <= j < k ==> Leq(sorted[j], parts[i])
      {
        k := k + 1;
      }
      InsertAt(sorted, k, parts[i]);
      assert parts[..i + 1] == parts[..i] + [parts[i]];
      sorted := sorted[..k] + [parts[i]] + sorted[k..];
    }
    assert parts[..|parts|] == parts;
  }

  lemma InsertAt(xs: seq<string>, k: nat, x: string)
    requires Sorted(xs) && k <= |xs|
    requires forall j :: 0 <= j < k ==> Leq(xs[j], x)
    requires k < |xs| ==> !Leq(xs[k], x)
    ensures Sorted(xs[..k] + [x] + xs[k..])
    ensures multiset(xs[..k] + [x] + xs[k..]) == multiset(xs) + multiset{x}
  {
    forall j | k <= j < |xs| ensures Leq(x, xs[j]) {
      LeqTotal(x, xs[k]);
      if j > k {
        LeqTransitive(x, xs[k], xs[j]);
      }
    }
    SortedBetween(xs[..k], x, xs[k..]);
    assert xs[..k] + xs[k..] == xs;
    TakeOut(xs[..k], x, xs[k..]);
    assert xs[..k] + [x] + xs[k..] == xs[..k] + ([x] + xs[k..]);
  }

  lemma SortedBetween(a: seq<string>, x: string, b: seq<string>)
    requires Sorted(a + b)
    requires (forall i :: 0 <= i < |a| ==> Leq(a[i], x)) && forall j :: 0 <= j < |b| ==> Leq(x, b[j])
    ensures Sorted(a + [x] + b)
  {
    var r, n := a + [x] + b, |a|;
    forall i, j | 0 <= i < j < |r| ensures Leq(r[i], r[j]) {
      var i', j' := if i <= n then i else i - 1, if j <= n then j else j - 1;
      if i != n && j != n {
        assert r[i] == (a + b)[i'] && r[j] == (a + b)[j'];
      }
    }
  }
}
