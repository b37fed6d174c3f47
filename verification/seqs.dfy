/** Collection primitives over a MongoDB collection held as a sequence in
    natural (insertion) order: `findOne`, `updateOne`, `deleteOne`,
    `find(filter)`, `countDocuments`, `limit` and newest-first order. */
module Seqs {
  import opened Wrappers

  /** The smaller of two integers: how many items a `.limit(n)` leaves. */
  function Min(a: int, b: int): (m: int)
    ensures m <= a && m <= b
    ensures m == a || m == b
  {
    if a <= b then a else b
  }

  /** Index of the first element satisfying `p`, as `findOne` picks it. */
  function FindFirst<T>(xs: seq<T>, p: T -> bool): (r: Option<nat>)
    ensures r.Some? ==> r.value < |xs| && p(xs[r.value])
    ensures r.Some? ==> forall j :: 0 <= j < r.value ==> !p(xs[j])
    ensures r.None? <==> forall j :: 0 <= j < |xs| ==> !p(xs[j])
    decreases |xs|
  {
    if xs == [] then None
    else if p(xs[0]) then Some(0)
    else match FindFirst(xs[1..], p)
      case None => None
      case Some(i) => Some(i + 1)
  }

  /** Index of the last element satisfying `p`: the entry that survives when
      matches are folded into a JavaScript object keyed by e-mail. */
  function FindLast<T>(xs: seq<T>, p: T -> bool): (r: Option<nat>)
    ensures r.Some? ==> r.value < |xs| && p(xs[r.value])
    ensures r.Some? ==> forall j :: r.value < j < |xs| ==> !p(xs[j])
    ensures r.None? <==> forall j :: 0 <= j < |xs| ==> !p(xs[j])
    decreases |xs|
  {
    if xs == [] then None
    else if p(xs[|xs| - 1]) then Some(|xs| - 1)
    else FindLast(xs[..|xs| - 1], p)
  }

  /** Two sequences whose elements agree on `p` position by position have
      their first match at the same place. */
  lemma SameMatchesSameFirst<T>(a: seq<T>, b: seq<T>, p: T -> bool)
    requires |a| == |b|
    requires forall k :: 0 <= k < |a| ==> p(a[k]) == p(b[k])
    ensures FindFirst(a, p) == FindFirst(b, p)
  {
  }

  /** `xs` without its element at index `i`. */
  function RemoveAt<T>(xs: seq<T>, i: nat): (r: seq<T>)
    requires i < |xs|
    ensures |r| == |xs| - 1
    ensures forall j :: 0 <= j < i ==> r[j] == xs[j]
    ensures forall j :: i <= j < |r| ==> r[j] == xs[j + 1]
    ensures multiset(r) + multiset{xs[i]} == multiset(xs)
  {
    assert xs == xs[..i] + [xs[i]] + xs[i + 1..];
    xs[..i] + xs[i + 1..]
  }

  lemma AppendIndex<T>(x: seq<T>, y: seq<T>, i: nat)
    requires i < |y|
    ensures (x + y)[|x| + i] == y[i]
  {
  }

  /** `deleteOne(filter)`: the collection afterwards and the `deletedCount`. */
  function DeleteFirst<T>(xs: seq<T>, p: T -> bool): (r: (seq<T>, nat))
    ensures r.1 <= 1
    ensures r.1 == 0 <==> forall j :: 0 <= j < |xs| ==> !p(xs[j])
    ensures r.1 == 0 ==> r.0 == xs
    ensures r.1 == 1 ==> FindFirst(xs, p).Some? && r.0 == RemoveAt(xs, FindFirst(xs, p).value)
    ensures Count(r.0, p) == Count(xs, p) - r.1
  {
    match FindFirst(xs, p)
    case None => (xs, 0)
    case Some(i) =>
      CountRemoveAt(xs, i, p);
      (RemoveAt(xs, i), 1)
  }

  /** Number of elements satisfying `p`: `countDocuments(filter)`. */
  function Count<T>(xs: seq<T>, p: T -> bool): (n: nat)
    ensures n <= |xs|
    ensures n == 0 <==> forall j :: 0 <= j < |xs| ==> !p(xs[j])
    decreases |xs|
  {
    if xs == [] then 0 else (if p(xs[0]) then 1 else 0) + Count(xs[1..], p)
  }

  lemma {:induction false} CountAppend<T>(a: seq<T>, b: seq<T>, p: T -> bool)
    ensures Count(a + b, p) == Count(a, p) + Count(b, p)
    decreases |a|
  {
    if a == [] {
      assert a + b == b;
    } else {
      assert (a + b)[1..] == a[1..] + b;
      CountAppend(a[1..], b, p);
    }
  }

  /** Deleting the element at `i` lowers the count by one exactly when that
      element matched. */
  lemma CountRemoveAt<T>(xs: seq<T>, i: nat, p: T -> bool)
    requires i < |xs|
    ensures Count(RemoveAt(xs, i), p) + (if p(xs[i]) then 1 else 0) == Count(xs, p)
  {
    var pre, tail := xs[..i], xs[i..];
    assert xs == pre + tail;
    assert tail[1..] == xs[i + 1..];
    assert Count(tail, p) == (if p(xs[i]) then 1 else 0) + Count(xs[i + 1..], p);
    CountAppend(pre, tail, p);
    CountAppend(pre, xs[i + 1..], p);
  }

  /** `find(filter).toArray()`: the matching elements, in collection order. */
  function Filter<T>(xs: seq<T>, p: T -> bool): (r: seq<T>)
    ensures |r| == Count(xs, p)
    ensures forall k :: 0 <= k < |r| ==> p(r[k])
    ensures forall k :: 0 <= k < |r| ==> r[k] in xs
    decreases |xs|
  {
    if xs == [] then []
    else if p(xs[0]) then [xs[0]] + Filter(xs[1..], p)
    else Filter(xs[1..], p)
  }

  /** The k-th element Filter keeps is the element of xs that has exactly k
      matches before it: Filter keeps the matches in their original order. */
  lemma {:induction false} FilterRank<T>(xs: seq<T>, p: T -> bool, k: nat)
    requires k < |Filter(xs, p)|
    ensures exists j :: 0 <= j < |xs| && xs[j] == Filter(xs, p)[k] && Count(xs[..j], p) == k
    decreases |xs|
  {
    var tail := xs[1..];
    if p(xs[0]) && k == 0 {
      assert xs[..0] == [];
      assert xs[0] == Filter(xs, p)[0];
    } else {
      var k' := if p(xs[0]) then k - 1 else k;
      assert Filter(xs, p)[k] == Filter(tail, p)[k'];
      FilterRank(tail, p, k');
      var j' :| 0 <= j' < |tail| && tail[j'] == Filter(tail, p)[k'] && Count(tail[..j'], p) == k';
      assert xs[..j' + 1][1..] == tail[..j'];
      assert xs[j' + 1] == Filter(xs, p)[k];
    }
  }

  /** Nothing that matches is dropped. */
  lemma {:induction false} FilterKeeps<T>(xs: seq<T>, p: T -> bool, j: nat)
    requires j < |xs| && p(xs[j])
    ensures xs[j] in Filter(xs, p)
    decreases |xs|
  {
    if j > 0 {
      FilterKeeps(xs[1..], p, j - 1);
    }
  }

  lemma {:induction false} FilterAppend<T>(a: seq<T>, b: seq<T>, p: T -> bool)
    ensures Filter(a + b, p) == Filter(a, p) + Filter(b, p)
    decreases |a|
  {
    if a == [] {
      assert a + b == b;
    } else {
      assert (a + b)[1..] == a[1..] + b;
      FilterAppend(a[1..], b, p);
    }
  }

  /** A filter every element passes keeps the sequence whole. */
  lemma {:induction false} FilterAll<T>(xs: seq<T>, p: T -> bool)
    requires forall k :: 0 <= k < |xs| ==> p(xs[k])
    ensures Filter(xs, p) == xs
    decreases |xs|
  {
    if xs != [] {
      FilterAll(xs[1..], p);
    }
  }

  /** `.limit(n)`: the first `n` elements, or all of them when there are fewer. */
  function Take<T>(xs: seq<T>, n: nat): (r: seq<T>)
    ensures |r| == Min(n, |xs|)
    ensures r <= xs
  {
    if |xs| <= n then xs else xs[..n]
  }

  /** `.map(f)` over a sequence. */
  function Map<A, B>(xs: seq<A>, f: A -> B): (r: seq<B>)
    ensures |r| == |xs|
    ensures forall k :: 0 <= k < |xs| ==> r[k] == f(xs[k])
  {
    seq(|xs|, k requires 0 <= k < |xs| => f(xs[k]))
  }

  /** The elements in the opposite order. */
  function Reverse<T>(xs: seq<T>): (r: seq<T>)
    ensures |r| == |xs|
    ensures forall k :: 0 <= k < |xs| ==> r[k] == xs[|xs| - 1 - k]
  {
    seq(|xs|, k requires 0 <= k < |xs| => xs[|xs| - 1 - k])
  }

  /** `key` never decreases along `xs`: a collection whose records were
      stamped by a clock that does not run backwards, in insertion order. */
  predicate Ascending<T>(xs: seq<T>, key: T -> int)
  {
    forall i, j :: 0 <= i < j < |xs| ==> key(xs[i]) <= key(xs[j])
  }

  /** `key` never increases along `xs`: `.sort({ key: -1 })`. */
  predicate Descending<T>(xs: seq<T>, key: T -> int)
  {
    forall i, j :: 0 <= i < j < |xs| ==> key(xs[i]) >= key(xs[j])
  }

  /** Filtering keeps an ascending sequence ascending. */
  lemma {:induction false} FilterKeepsOrder<T>(xs: seq<T>, p: T -> bool, key: T -> int)
    requires Ascending(xs, key)
    ensures Ascending(Filter(xs, p), key)
    decreases |xs|
  {
    if xs != [] {
      FilterKeepsOrder(xs[1..], p, key);
      var rest := Filter(xs[1..], p);
      if p(xs[0]) {
        forall k | 0 <= k < |rest|
          ensures key(xs[0]) <= key(rest[k])
        {
          assert rest[k] in xs[1..];
        }
      }
    }
  }

  /** `x` placed into a sequence ordered largest key first: ahead of the
      first element whose key is not larger than its own. */
  function Insert<T>(x: T, ys: seq<T>, key: T -> int): (r: seq<T>)
    ensures |r| == |ys| + 1
    ensures multiset(r) == multiset(ys) + multiset{x}
    ensures r[0] == x || (ys != [] && r[0] == ys[0])
    ensures Descending(ys, key) ==> Descending(r, key)
    decreases |ys|
  {
    if ys == [] || key(x) >= key(ys[0]) then
      ConsDescending(x, ys, key);
      [x] + ys
    else
      var rest := Insert(x, ys[1..], key);
      assert ys == [ys[0]] + ys[1..];
      DropDescending(ys, key);
      ConsDescending(ys[0], rest, key);
      [ys[0]] + rest
  }

  /** Putting an element no smaller than the head in front keeps the order. */
  lemma ConsDescending<T>(x: T, ys: seq<T>, key: T -> int)
    ensures Descending(ys, key) && (ys != [] ==> key(x) >= key(ys[0])) ==> Descending([x] + ys, key)
  {
    if Descending(ys, key) && (ys != [] ==> key(x) >= key(ys[0])) {
      var r := [x] + ys;
      forall i, j | 0 <= i < j < |r|
        ensures key(r[i]) >= key(r[j])
      {
        if i == 0 {
          assert r[j] == ys[j - 1];
          assert key(ys[0]) >= key(ys[j - 1]);
        } else {
          assert r[i] == ys[i - 1] && r[j] == ys[j - 1];
        }
      }
    }
  }

  /** Dropping the head keeps the order. */
  lemma DropDescending<T>(xs: seq<T>, key: T -> int)
    requires xs != []
    ensures Descending(xs, key) ==> Descending(xs[1..], key)
  {
    if Descending(xs, key) {
      var tail := xs[1..];
      forall i, j | 0 <= i < j < |tail|
        ensures key(tail[i]) >= key(tail[j])
      {
        assert tail[i] == xs[i + 1] && tail[j] == xs[j + 1];
      }
    }
  }

  /** `.sort({ key: -1 })`: the same elements, largest key first. The sort is
      stable, so elements with equal keys keep the order they came in. */
  function SortDescending<T>(xs: seq<T>, key: T -> int): (r: seq<T>)
    ensures |r| == |xs|
    ensures multiset(r) == multiset(xs)
    ensures Descending(r, key)
    decreases |xs|
  {
    if xs == [] then []
    else
      assert xs == [xs[0]] + xs[1..];
      Insert(xs[0], SortDescending(xs[1..], key), key)
  }

  /** A sequence already largest key first is left as it is. */
  lemma {:induction false} SortedIsUnchanged<T>(xs: seq<T>, key: T -> int)
    requires Descending(xs, key)
    ensures SortDescending(xs, key) == xs
    decreases |xs|
  {
    if xs != [] {
      var tail := xs[1..];
      DropDescending(xs, key);
      SortedIsUnchanged(tail, key);
      if tail != [] {
        assert key(xs[0]) >= key(xs[1]);
      }
      assert [xs[0]] + tail == xs;
    }
  }

  /** `.sort({ createdAt: -1 })` on a collection: newest first; documents
      with the same time stay newest-inserted first. */
  function NewestFirst<T>(xs: seq<T>, key: T -> int): (r: seq<T>)
    ensures |r| == |xs|
    ensures multiset(r) == multiset(xs)
    ensures Descending(r, key)
  {
    assert multiset(Reverse(xs)) == multiset(xs) by {
      ReverseSameElements(xs);
    }
    SortDescending(Reverse(xs), key)
  }

  lemma {:induction false} ReverseSameElements<T>(xs: seq<T>)
    ensures multiset(Reverse(xs)) == multiset(xs)
    decreases |xs|
  {
    if xs != [] {
      var init := xs[..|xs| - 1];
      ReverseSameElements(init);
      assert xs == init + [xs[|xs| - 1]];
      assert Reverse(xs) == [xs[|xs| - 1]] + Reverse(init);
    }
  }

  /** Sorting keeps a property every element has. */
  lemma NewestFirstKeeps<T>(xs: seq<T>, key: T -> int, p: T -> bool)
    requires forall k :: 0 <= k < |xs| ==> p(xs[k])
    ensures forall k :: 0 <= k < |xs| ==> p(NewestFirst(xs, key)[k])
  {
    var r := NewestFirst(xs, key);
    forall k | 0 <= k < |r|
      ensures p(r[k])
    {
      assert r[k] in multiset(xs);
      var j :| 0 <= j < |xs| && xs[j] == r[k];
    }
  }

  /** On a collection stamped by a clock that never runs backwards, the
      newest-first order is the reverse of insertion order. */
  lemma NewestFirstOfChronological<T>(xs: seq<T>, key: T -> int)
    requires Ascending(xs, key)
    ensures NewestFirst(xs, key) == Reverse(xs)
  {
    ReverseIsNewestFirst(xs, key);
    SortedIsUnchanged(Reverse(xs), key);
  }

  /** An element whose key is at least every other key heads the
      newest-first order when it is the last one inserted. */
  lemma LatestHeadsNewestFirst<T>(xs: seq<T>, x: T, key: T -> int)
    requires forall k :: 0 <= k < |xs| ==> key(xs[k]) <= key(x)
    ensures NewestFirst(xs + [x], key)[0] == x
  {
    var ys := xs + [x];
    assert ys[..|ys| - 1] == xs;
    var rest := Reverse(xs);
    assert Reverse(ys) == [x] + rest;
    assert [x] + rest == Reverse(ys);
    var sorted := SortDescending(rest, key);
    if sorted != [] {
      ReverseSameElements(xs);
      assert sorted[0] in multiset(sorted);
      assert sorted[0] in multiset(xs);
      assert sorted[0] in xs;
    }
    assert ([x] + rest)[1..] == rest;
  }

  /** Reversing a chronological collection yields it newest first. */
  lemma ReverseIsNewestFirst<T>(xs: seq<T>, key: T -> int)
    requires Ascending(xs, key)
    ensures Descending(Reverse(xs), key)
  {
    var r := Reverse(xs);
    forall i, j | 0 <= i < j < |r|
      ensures key(r[i]) >= key(r[j])
    {
      assert r[i] == xs[|xs| - 1 - i] && r[j] == xs[|xs| - 1 - j];
    }
  }
}
