/** Sequence helpers: comprehension filters, integer ranges, the sorted
    elements of a set, and flattening. */
module Seqs {
  import opened Wrappers

  /** `[x for x in s if p(x)]` */
  function Filter<T>(s: seq<T>, p: T -> bool): (r: seq<T>)
    ensures |r| <= |s|
    ensures forall x :: x in r ==> x in s && p(x)
    ensures forall x :: x in s && p(x) ==> x in r
    decreases |s|
  {
    if |s| == 0 then []
    else Filter(s[..|s| - 1], p) + (if p(s[|s| - 1]) then [s[|s| - 1]] else [])
  }

  lemma {:induction false} FilterAppend<T>(a: seq<T>, b: seq<T>, p: T -> bool)
    ensures Filter(a + b, p) == Filter(a, p) + Filter(b, p)
    decreases |b|
  {
    if |b| == 0 {
      assert a + b == a;
    } else {
      var b' := b[..|b| - 1];
      FilterAppend(a, b', p);
      assert (a + b)[..|a + b| - 1] == a + b';
      assert (a + b)[|a + b| - 1] == b[|b| - 1];
      var tail := if p(b[|b| - 1]) then [b[|b| - 1]] else [];
      calc {
        Filter(a + b, p);
        Filter(a + b', p) + tail;
        Filter(a, p) + Filter(b', p) + tail;
        Filter(a, p) + (Filter(b', p) + tail);
      }
    }
  }

  lemma {:induction false} FilterAll<T>(s: seq<T>, p: T -> bool)
    requires forall k :: 0 <= k < |s| ==> p(s[k])
    ensures Filter(s, p) == s
    decreases |s|
  {
    if |s| > 0 {
      FilterAll(s[..|s| - 1], p);
    }
  }

  lemma {:induction false} FilterNone<T>(s: seq<T>, p: T -> bool)
    requires forall k :: 0 <= k < |s| ==> !p(s[k])
    ensures Filter(s, p) == []
    decreases |s|
  {
    if |s| > 0 {
      FilterNone(s[..|s| - 1], p);
    }
  }

  /** `list(range(a, b))` */
  function Range(a: int, b: int): (r: seq<int>)
    ensures |r| == if a <= b then b - a else 0
    ensures forall k :: 0 <= k < |r| ==> r[k] == a + k
    decreases b - a
  {
    if a >= b then [] else [a] + Range(a + 1, b)
  }

  predicate Distinct<T(==)>(s: seq<T>) {
    forall i, j :: 0 <= i < j < |s| ==> s[i] != s[j]
  }

  predicate StrictlyIncreasing(s: seq<int>) {
    forall i, j :: 0 <= i < j < |s| ==> s[i] < s[j]
  }

  /** `sorted(set(xs))`: the distinct values of `xs` in increasing order. */
  function SortedDistinct(xs: seq<int>): (r: seq<int>)
    ensures StrictlyIncreasing(r)
    ensures forall x :: x in r <==> x in xs
    decreases |xs|
  {
    if |xs| == 0 then [] else InsertUnique(xs[|xs| - 1], SortedDistinct(xs[..|xs| - 1]))
  }

  /** Insert `x` into an increasing sequence unless it is already there. */
  function InsertUnique(x: int, t: seq<int>): (r: seq<int>)
    requires StrictlyIncreasing(t)
    ensures StrictlyIncreasing(r)
    ensures forall y :: y in r <==> y == x || y in t
    ensures |r| > 0 && (r[0] == x || (|t| > 0 && r[0] == t[0]))
  {
    if |t| == 0 then [x]
    else if x < t[0] then [x] + t
    else if x == t[0] then t
    else [t[0]] + InsertUnique(x, t[1..])
  }

  /** `[x for xs in ss for x in xs]` */
  function Flatten<T>(ss: seq<seq<T>>): seq<T>
    decreases |ss|
  {
    if |ss| == 0 then [] else Flatten(ss[..|ss| - 1]) + ss[|ss| - 1]
  }

  lemma {:induction false} FlattenAppend<T>(a: seq<seq<T>>, b: seq<seq<T>>)
    ensures Flatten(a + b) == Flatten(a) + Flatten(b)
    decreases |b|
  {
    if |b| == 0 {
      assert a + b == a;
    } else {
      var b' := b[..|b| - 1];
      FlattenAppend(a, b');
      assert (a + b)[..|a + b| - 1] == a + b';
      assert (a + b)[|a + b| - 1] == b[|b| - 1];
      calc {
        Flatten(a + b);
        Flatten(a + b') + b[|b| - 1];
        Flatten(a) + Flatten(b') + b[|b| - 1];
        Flatten(a) + (Flatten(b') + b[|b| - 1]);
      }
    }
  }

  /** The index of the first element satisfying p, if any. */
  function FirstWhere<T>(s: seq<T>, p: T -> bool): (r: Option<nat>)
    ensures r.Some? ==> r.value < |s| && p(s[r.value]) && forall k :: 0 <= k < r.value ==> !p(s[k])
    ensures r.None? ==> forall k :: 0 <= k < |s| ==> !p(s[k])
    decreases |s|
  {
    if |s| == 0 then None
    else
      var init := s[..|s| - 1];
      assert forall k :: 0 <= k < |init| ==> init[k] == s[k];
      match FirstWhere(init, p)
      case Some(k) => Some(k)
      case None => if p(s[|s| - 1]) then Some(|s| - 1) else None
  }

  /** The index of the last element satisfying p, if any. */
  function LastWhere<T>(s: seq<T>, p: T -> bool): (r: Option<nat>)
    ensures r.Some? ==> r.value < |s| && p(s[r.value]) && forall k :: r.value < k < |s| ==> !p(s[k])
    ensures r.None? ==> forall k :: 0 <= k < |s| ==> !p(s[k])
    decreases |s|
  {
    if |s| == 0 then None
    else if p(s[|s| - 1]) then Some(|s| - 1)
    else
      var init := s[..|s| - 1];
      assert forall k :: 0 <= k < |init| ==> init[k] == s[k];
      LastWhere(init, p)
  }

  /** The first satisfying index is the one nothing before it precedes. */
  lemma FirstWhereIs<T>(s: seq<T>, p: T -> bool, i: nat)
    requires i < |s| && p(s[i]) && forall k :: 0 <= k < i ==> !p(s[k])
    ensures FirstWhere(s, p) == Some(i)
  {
  }

  /** The last satisfying index is the one nothing after it follows. */
  lemma LastWhereIs<T>(s: seq<T>, p: T -> bool, i: nat)
    requires i < |s| && p(s[i]) && forall k :: i < k < |s| ==> !p(s[k])
    ensures LastWhere(s, p) == Some(i)
  {
  }

  /** Extending the prefix searched by one element. */
  lemma WhereSnoc<T>(s: seq<T>, p: T -> bool, j: nat)
    requires j < |s|
    ensures FirstWhere(s[..j + 1], p) == if FirstWhere(s[..j], p).Some? then FirstWhere(s[..j], p) else if p(s[j]) then Some(j) else None
    ensures LastWhere(s[..j + 1], p) == if p(s[j]) then Some(j) else LastWhere(s[..j], p)
  {
    assert s[..j + 1][..j] == s[..j];
  }

  // Small multiset identities the solver does not find on its own in a
  // larger context.

  lemma MultisetAssoc<T>(x: multiset<T>, y: multiset<T>, z: multiset<T>)
    ensures x + (y + z) == x + y + z
  {
  }

  lemma MultisetSwap<T>(x: multiset<T>, y: multiset<T>, z: multiset<T>)
    ensures x + y + z == x + z + y
  {
  }

  lemma MultisetExt<T>(m1: multiset<T>, m2: multiset<T>)
    requires forall y :: m1[y] == m2[y]
    ensures m1 == m2
  {
  }

  /** The distinct elements of `xs` in order of first appearance: the keys
      of a Python dict (insertion-ordered) filled from `xs`. */
  function FirstSeen<T(==)>(xs: seq<T>): (r: seq<T>)
    decreases |xs|
  {
    if |xs| == 0 then []
    else
      var r := FirstSeen(xs[..|xs| - 1]);
      if xs[|xs| - 1] in r then r else r + [xs[|xs| - 1]]
  }

  lemma FirstSeenSnoc<T>(xs: seq<T>, y: T)
    ensures FirstSeen(xs + [y]) == if y in FirstSeen(xs) then FirstSeen(xs) else FirstSeen(xs) + [y]
  {
    assert (xs + [y])[..|xs|] == xs;
  }

  /** `xs.index(x)` */
  function IndexOf<T(==)>(xs: seq<T>, x: T): (n: nat)
    requires x in xs
    ensures n < |xs| && xs[n] == x && x !in xs[..n]
    decreases |xs|
  {
    var init := xs[..|xs| - 1];
    if x in init then
      var n := IndexOf(init, x);
      assert xs[..n] == init[..n];
      n
    else |xs| - 1
  }

  lemma IndexOfSnoc<T>(xs: seq<T>, y: T, x: T)
    requires x in xs
    ensures IndexOf(xs + [y], x) == IndexOf(xs, x)
  {
    assert (xs + [y])[..|xs|] == xs;
  }

  /** The dict keys are exactly the elements. */
  lemma {:induction false} FirstSeenMembers<T>(xs: seq<T>)
    ensures forall x :: x in FirstSeen(xs) <==> x in xs
    decreases |xs|
  {
    if |xs| > 0 {
      FirstSeenMembers(xs[..|xs| - 1]);
      assert xs == xs[..|xs| - 1] + [xs[|xs| - 1]];
    }
  }

  /** The dict keys hold every element once, and nothing else, in the
      order in which each first appears. */
  lemma {:induction false} FirstSeenOrder<T>(xs: seq<T>)
    ensures Distinct(FirstSeen(xs))
    ensures forall x :: x in FirstSeen(xs) <==> x in xs
    ensures forall a, b :: 0 <= a < b < |FirstSeen(xs)| ==>
      IndexOf(xs, FirstSeen(xs)[a]) < IndexOf(xs, FirstSeen(xs)[b])
    decreases |xs|
  {
    if |xs| > 0 {
      var init, y := xs[..|xs| - 1], xs[|xs| - 1];
      assert xs == init + [y];
      FirstSeenOrder(init);
      var r := FirstSeen(init);
      forall x | x in init {
        IndexOfSnoc(init, y, x);
      }
      if y !in r {
        assert y !in init;
        assert IndexOf(xs, y) == |init|;
      }
    }
  }

  /** `[f(j) for j in range(n)]`, built by appending. */
  function Tab<T>(n: nat, f: nat -> T): (r: seq<T>)
    ensures |r| == n
  {
    if n == 0 then [] else Tab(n - 1, f) + [f(n - 1)]
  }

  lemma {:induction false} TabAt<T>(n: nat, f: nat -> T)
    ensures forall j :: 0 <= j < n ==> Tab(n, f)[j] == f(j)
  {
    if n > 0 {
      TabAt(n - 1, f);
    }
  }

  /** One block more of a concatenation. */
  lemma FlattenPrefix<T>(bs: seq<seq<T>>, s: nat)
    requires s < |bs|
    ensures Flatten(bs[..s + 1]) == Flatten(bs[..s]) + bs[s]
  {
    assert bs[..s + 1][..s] == bs[..s];
  }

  /** Blocks of equal width `w` concatenate to `|bs| * w` elements. */
  lemma {:induction false} FlattenUniform<T>(bs: seq<seq<T>>, w: nat)
    requires forall x :: 0 <= x < |bs| ==> |bs[x]| == w
    ensures |Flatten(bs)| == |bs| * w
    decreases |bs|
  {
    if |bs| > 0 {
      FlattenUniform(bs[..|bs| - 1], w);
      assert (|bs| - 1) * w + w == |bs| * w;
    }
  }

  /** Appending to one block adds exactly what was appended to the
      multiset of the concatenation. */
  lemma {:induction false} FlattenGrowMultiset<T>(bs: seq<seq<T>>, x: nat, t: seq<T>)
    requires x < |bs|
    ensures multiset(Flatten(bs[x := bs[x] + t])) == multiset(Flatten(bs)) + multiset(t)
    decreases |bs|
  {
    var bs' := bs[x := bs[x] + t];
    var init, last := bs[..|bs| - 1], bs[|bs| - 1];
    if x == |bs| - 1 {
      assert bs'[..|bs'| - 1] == init;
      assert Flatten(bs') == Flatten(init) + (last + t);
      assert Flatten(init) + (last + t) == Flatten(init) + last + t;
    } else {
      FlattenGrowMultiset(init, x, t);
      assert bs'[..|bs'| - 1] == init[x := init[x] + t];
      assert Flatten(bs') == Flatten(init[x := init[x] + t]) + last;
      calc {
        multiset(Flatten(bs'));
        multiset(Flatten(init[x := init[x] + t])) + multiset(last);
        multiset(Flatten(init)) + multiset(t) + multiset(last);
        { MultisetSwap(multiset(Flatten(init)), multiset(t), multiset(last)); }
        multiset(Flatten(init)) + multiset(last) + multiset(t);
      }
    }
  }
}
