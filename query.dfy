/** The query shapes the controllers ask the database for: `findOne` (the
    first record matching a filter), `find` with a filter, and
    `.sort({ field: -1 })`, records ordered by a timestamp, newest first. The
    database does this work; here the filter keeps the matching records in
    store order, and the sort is an insertion sort proved to return a
    permutation of its input in non-increasing timestamp order. */
module Query {
  import opened Js

  /** `find(filter)`: the records satisfying `keep`, each as often as in `xs`. */
  function Filter<T(!new)>(xs: seq<T>, keep: T -> bool): (r: seq<T>)
    ensures forall x :: x in r ==> x in xs && keep(x)
    ensures forall x :: keep(x) ==> multiset(r)[x] == multiset(xs)[x]
    ensures |r| <= |xs|
  {
    if xs == [] then []
    else
      assert xs == [xs[0]] + xs[1..];
      (if keep(xs[0]) then [xs[0]] else []) + Filter(xs[1..], keep)
  }

  /** `xs` is ordered newest first by `stamp`. */
  predicate NewestFirstBy<T>(xs: seq<T>, stamp: T -> int) {
    forall i, j :: 0 <= i < j < |xs| ==> stamp(xs[i]) >= stamp(xs[j])
  }

  /** Everything in `rest`, a rearrangement of `tail` with `x` added, is no newer than `head`
      when neither `x` nor anything in `tail` is. */
  lemma NoNewerThanHead<T>(head: T, tail: seq<T>, x: T, rest: seq<T>, stamp: T -> int)
    requires multiset(rest) == multiset(tail) + multiset{x}
    requires stamp(x) <= stamp(head)
    requires forall k :: 0 <= k < |tail| ==> stamp(tail[k]) <= stamp(head)
    ensures forall k :: 0 <= k < |rest| ==> stamp(rest[k]) <= stamp(head)
  {
    forall k | 0 <= k < |rest|
      ensures stamp(rest[k]) <= stamp(head)
    {
      assert rest[k] in multiset(rest);
      if rest[k] != x {
        assert rest[k] in multiset(tail);
        var j :| 0 <= j < |tail| && tail[j] == rest[k];
      }
    }
  }

  /** Putting in front of a sorted sequence an element no older than any of it keeps it sorted. */
  lemma ConsSorted<T>(head: T, rest: seq<T>, stamp: T -> int)
    requires NewestFirstBy(rest, stamp)
    requires forall k :: 0 <= k < |rest| ==> stamp(rest[k]) <= stamp(head)
    ensures NewestFirstBy([head] + rest, stamp)
  {
    var r := [head] + rest;
    forall i, j | 0 <= i < j < |r|
      ensures stamp(r[i]) >= stamp(r[j])
    {
      assert r[j] == rest[j - 1];
      if i > 0 {
        assert r[i] == rest[i - 1];
      }
    }
  }

  /** Places `x` after every element at least as new and before every older one. */
  function InsertByStamp<T>(x: T, xs: seq<T>, stamp: T -> int): (r: seq<T>)
    requires NewestFirstBy(xs, stamp)
    ensures NewestFirstBy(r, stamp)
    ensures multiset(r) == multiset(xs) + multiset{x}
    ensures |r| == |xs| + 1
  {
    if xs == [] || stamp(xs[0]) < stamp(x) then
      ConsSorted(x, xs, stamp);
      [x] + xs
    else
      var tail := xs[1..];
      var rest := InsertByStamp(x, tail, stamp);
      assert xs == [xs[0]] + tail;
      assert forall k :: 0 <= k < |tail| ==> tail[k] == xs[k + 1];
      NoNewerThanHead(xs[0], tail, x, rest, stamp);
      ConsSorted(xs[0], rest, stamp);
      [xs[0]] + rest
  }

  /** `xs` reordered newest first: the same records, each as often as before. */
  function SortNewestFirst<T>(xs: seq<T>, stamp: T -> int): (r: seq<T>)
    ensures NewestFirstBy(r, stamp)
    ensures multiset(r) == multiset(xs)
    ensures |r| == |xs|
  {
    if xs == [] then []
    else
      assert xs == [xs[0]] + xs[1..];
      InsertByStamp(xs[0], SortNewestFirst(xs[1..], stamp), stamp)
  }

  /** Elements of a rearrangement are elements of the original. */
  lemma SameMultisetMembers<T>(r: seq<T>, xs: seq<T>)
    requires multiset(r) == multiset(xs)
    ensures forall i :: 0 <= i < |r| ==> r[i] in xs
  {
    forall i | 0 <= i < |r|
      ensures r[i] in xs
    {
      assert r[i] in multiset(r);
    }
  }

  /** `find(filter).sort({ field: -1 })`: the matching records, newest first. */
  function FindNewestFirst<T(!new)>(xs: seq<T>, keep: T -> bool, stamp: T -> int): (r: seq<T>)
    ensures NewestFirstBy(r, stamp)
    ensures multiset(r) == multiset(Filter(xs, keep))
    ensures |r| == |Filter(xs, keep)|
    ensures forall i :: 0 <= i < |r| ==> r[i] in xs && keep(r[i])
  {
    var found := Filter(xs, keep);
    var r := SortNewestFirst(found, stamp);
    SameMultisetMembers(r, found);
    r
  }

  /** `xs.map(f)`. */
  function Map<T, U>(xs: seq<T>, f: T -> U): (r: seq<U>)
    ensures |r| == |xs| && forall i :: 0 <= i < |xs| ==> r[i] == f(xs[i])
  {
    seq(|xs|, i requires 0 <= i < |xs| => f(xs[i]))
  }

  /** Mapping a newest-first sequence through `f` keeps it newest first when
      each row carries the stamp of the record it comes from. */
  lemma MapKeepsOrder<T, U>(found: seq<T>, stamp: T -> int, f: T -> U, rowStamp: U -> int)
    requires NewestFirstBy(found, stamp)
    requires forall x :: rowStamp(f(x)) == stamp(x)
    ensures NewestFirstBy(Map(found, f), rowStamp)
  {
    var r := Map(found, f);
    forall i, j | 0 <= i < j < |r|
      ensures rowStamp(r[i]) >= rowStamp(r[j])
    {
      assert rowStamp(r[i]) == stamp(found[i]);
      assert rowStamp(r[j]) == stamp(found[j]);
    }
  }

  /** `Map` distributes over concatenation. */
  lemma MapAppend<T, U>(x: seq<T>, y: seq<T>, f: T -> U)
    ensures Map(x + y, f) == Map(x, f) + Map(y, f)
  {
    assert forall i :: 0 <= i < |x| + |y| ==> (x + y)[i] == if i < |x| then x[i] else y[i - |x|];
  }

  /** Rearranging the records rearranges their images: the same rows, each as often. */
  lemma {:induction false} MapPermutation<T, U>(a: seq<T>, b: seq<T>, f: T -> U)
    requires multiset(a) == multiset(b)
    ensures multiset(Map(a, f)) == multiset(Map(b, f))
    decreases |a|
  {
    if a == [] {
      assert |b| == |multiset(b)| == 0;
    } else {
      assert a[0] in multiset(b);
      var k :| 0 <= k < |b| && b[k] == a[0];
      var rest := b[..k] + b[k + 1..];
      assert b == b[..k] + [b[k]] + b[k + 1..];
      assert a == [a[0]] + a[1..];
      assert multiset(b) == multiset(b[..k]) + multiset{b[k]} + multiset(b[k + 1..]);
      assert multiset(rest) == multiset(b[..k]) + multiset(b[k + 1..]);
      assert multiset(a) == multiset{a[0]} + multiset(a[1..]);
      forall z
        ensures multiset(rest)[z] == multiset(a[1..])[z]
      {
        assert multiset(a)[z] == multiset(b)[z];
      }
      assert multiset(rest) == multiset(a[1..]);
      MapPermutation(a[1..], rest, f);
      MapAppend([a[0]], a[1..], f);
      MapAppend(b[..k] + [b[k]], b[k + 1..], f);
      MapAppend(b[..k], [b[k]], f);
      MapAppend(b[..k], b[k + 1..], f);
    }
  }

  /** `find(filter).sort(…).map(f)` lists the image of every matching record, each as often as it is stored. */
  lemma FoundImage<T(!new), U>(xs: seq<T>, keep: T -> bool, stamp: T -> int, f: T -> U)
    ensures multiset(Map(FindNewestFirst(xs, keep, stamp), f)) == multiset(Map(Filter(xs, keep), f))
  {
    MapPermutation(FindNewestFirst(xs, keep, stamp), Filter(xs, keep), f);
  }

  /** The image of a stored record that matches is among the images of the matches. */
  lemma FilterImageHas<T(!new), U>(xs: seq<T>, keep: T -> bool, f: T -> U, x: T)
    requires x in xs && keep(x)
    ensures f(x) in Map(Filter(xs, keep), f)
  {
    var found := Filter(xs, keep);
    assert x in multiset(found);
    var j :| 0 <= j < |found| && found[j] == x;
    assert Map(found, f)[j] == f(x);
  }

  /** `findOne(filter)`: the position of the first record satisfying `keep`. */
  function FindFirst<T>(xs: seq<T>, keep: T -> bool): (r: Option<nat>)
    ensures r.None? <==> forall j :: 0 <= j < |xs| ==> !keep(xs[j])
    ensures r.Some? ==> r.value < |xs| && keep(xs[r.value])
    ensures r.Some? ==> forall j :: 0 <= j < r.value ==> !keep(xs[j])
  {
    if xs == [] then None
    else if keep(xs[0]) then Some(0)
    else
      var rest := FindFirst(xs[1..], keep);
      assert forall j :: 1 <= j < |xs| ==> xs[j] == xs[1..][j - 1];
      if rest.None? then None else Some(rest.value + 1)
  }
}
