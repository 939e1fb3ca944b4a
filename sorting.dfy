/** Python's built-in stable sort (`sorted`, `list.sort`), as a function on
    sequences ordered by a total preorder. `sort(key=k, reverse=True)` keeps
    equal keys in input order, so it is the ascending sort on the negated key. */
module Sorting {

  ghost predicate TotalPreorder<T(!new)>(le: (T, T) -> bool) {
    && (forall a, b :: le(a, b) || le(b, a))
    && (forall a, b, c :: le(a, b) && le(b, c) ==> le(a, c))
  }

  predicate Sorted<T>(s: seq<T>, le: (T, T) -> bool) {
    forall i, j :: 0 <= i < j < |s| ==> le(s[i], s[j])
  }

  /** Elements the preorder cannot tell apart from `e`, in sequence order. */
  function Ties<T>(s: seq<T>, le: (T, T) -> bool, e: T): (r: seq<T>)
    ensures |r| <= |s|
  {
    if |s| == 0 then []
    else Ties(s[..|s| - 1], le, e) + (if le(s[|s| - 1], e) && le(e, s[|s| - 1]) then [s[|s| - 1]] else [])
  }

  /** Insert `x` after every element not strictly greater than it. */
  function InsertStable<T>(x: T, t: seq<T>, le: (T, T) -> bool): seq<T>
  {
    if |t| == 0 then [x]
    else if le(x, t[0]) && !le(t[0], x) then [x] + t
    else [t[0]] + InsertStable(x, t[1..], le)
  }

  /** The stable sort of `s`. */
  function SortBy<T>(s: seq<T>, le: (T, T) -> bool): seq<T>
  {
    if |s| == 0 then [] else InsertStable(s[|s| - 1], SortBy(s[..|s| - 1], le), le)
  }

  lemma {:induction false} InsertStablePerm<T>(x: T, t: seq<T>, le: (T, T) -> bool)
    ensures multiset(InsertStable(x, t, le)) == multiset(t) + multiset{x}
    ensures |InsertStable(x, t, le)| == |t| + 1
  {
    if |t| > 0 && !(le(x, t[0]) && !le(t[0], x)) {
      InsertStablePerm(x, t[1..], le);
      assert t == [t[0]] + t[1..];
    }
  }

  lemma {:induction false} InsertStableSorted<T(!new)>(x: T, t: seq<T>, le: (T, T) -> bool)
    requires TotalPreorder(le) && Sorted(t, le)
    ensures Sorted(InsertStable(x, t, le), le)
  {
    if |t| > 0 && !(le(x, t[0]) && !le(t[0], x)) {
      InsertStableSorted(x, t[1..], le);
      InsertStablePerm(x, t[1..], le);
      var r := InsertStable(x, t[1..], le);
      forall k | 0 <= k < |r| ensures le(t[0], r[k]) {
        assert r[k] in multiset(r);
        assert r[k] == x || r[k] in multiset(t[1..]);
        if r[k] != x {
          var m :| 0 <= m < |t[1..]| && t[1..][m] == r[k];
        }
      }
    }
  }

  lemma TiesAppend<T>(a: seq<T>, b: seq<T>, le: (T, T) -> bool, e: T)
    ensures Ties(a + b, le, e) == Ties(a, le, e) + Ties(b, le, e)
    decreases |b|
  {
    if |b| == 0 {
      assert a + b == a;
    } else {
      TiesAppend(a, b[..|b| - 1], le, e);
      assert (a + b)[..|a + b| - 1] == a + b[..|b| - 1];
      assert (a + b)[|a + b| - 1] == b[|b| - 1];
    }
  }

  /** Ties of a sequence whose elements are all strictly above `e`'s class is empty. */
  lemma TiesNone<T>(t: seq<T>, le: (T, T) -> bool, e: T)
    requires forall k :: 0 <= k < |t| ==> !le(t[k], e)
    ensures Ties(t, le, e) == []
    decreases |t|
  {
    if |t| > 0 {
      TiesNone(t[..|t| - 1], le, e);
    }
  }

  /** Inserting in front of strictly greater elements adds `x` last among its ties. */
  lemma InsertFrontTies<T(!new)>(x: T, t: seq<T>, le: (T, T) -> bool, e: T)
    requires TotalPreorder(le) && Sorted(t, le)
    requires |t| > 0 && le(x, t[0]) && !le(t[0], x)
    ensures Ties([x] + t, le, e) == Ties(t, le, e) + Ties([x], le, e)
  {
    TiesAppend([x], t, le, e);
    if le(x, e) && le(e, x) {
      forall k | 0 <= k < |t| ensures !le(t[k], e) {
        if k > 0 {
          assert le(t[0], t[k]);
        }
      }
      TiesNone(t, le, e);
    } else {
      assert Ties([x], le, e) == [] by { assert [x][..0] == []; }
    }
  }

  lemma {:induction false} InsertStableTies<T(!new)>(x: T, t: seq<T>, le: (T, T) -> bool, e: T)
    requires TotalPreorder(le) && Sorted(t, le)
    ensures Ties(InsertStable(x, t, le), le, e) == Ties(t, le, e) + Ties([x], le, e)
  {
    if |t| == 0 {
      assert t + [x] == [x];
      TiesAppend(t, [x], le, e);
    } else if le(x, t[0]) && !le(t[0], x) {
      InsertFrontTies(x, t, le, e);
    } else {
      InsertStableTies(x, t[1..], le, e);
      TiesAppend([t[0]], InsertStable(x, t[1..], le), le, e);
      TiesAppend([t[0]], t[1..], le, e);
      assert t == [t[0]] + t[1..];
    }
  }

  /** The sort is ordered, is a permutation, and keeps tied elements in input order. */
  lemma {:induction false} SortByCorrect<T(!new)>(s: seq<T>, le: (T, T) -> bool)
    requires TotalPreorder(le)
    ensures Sorted(SortBy(s, le), le)
    ensures multiset(SortBy(s, le)) == multiset(s)
    ensures |SortBy(s, le)| == |s|
    ensures forall e :: Ties(SortBy(s, le), le, e) == Ties(s, le, e)
  {
    if |s| > 0 {
      var p := s[..|s| - 1];
      SortByCorrect(p, le);
      InsertStableSorted(s[|s| - 1], SortBy(p, le), le);
      InsertStablePerm(s[|s| - 1], SortBy(p, le), le);
      assert s == p + [s[|s| - 1]];
      forall e ensures Ties(SortBy(s, le), le, e) == Ties(s, le, e) {
        InsertStableTies(s[|s| - 1], SortBy(p, le), le, e);
        TiesAppend(p, [s[|s| - 1]], le, e);
      }
    }
  }

  /** The preorder comparing real keys. */
  function ByKey<T>(key: T -> real): (T, T) -> bool {
    (a: T, b: T) => key(a) <= key(b)
  }

  lemma ByKeyPreorder<T(!new)>(key: T -> real)
    ensures TotalPreorder(ByKey(key))
  {
  }

  /** Python's `sorted(s, key=key)` */
  function SortAscending<T>(s: seq<T>, key: T -> real): seq<T> {
    SortBy(s, ByKey(key))
  }

  /** Python's `sorted(s, key=key, reverse=True)` */
  function SortDescending<T>(s: seq<T>, key: T -> real): seq<T> {
    SortBy(s, ByKey((x: T) => -key(x)))
  }

  /** Descending sort: ordered by decreasing key, a permutation of the input. */
  lemma {:induction false} SortDescendingCorrect<T(!new)>(s: seq<T>, key: T -> real)
    ensures |SortDescending(s, key)| == |s|
    ensures multiset(SortDescending(s, key)) == multiset(s)
    ensures forall i, j :: 0 <= i < j < |s| ==> key(SortDescending(s, key)[i]) >= key(SortDescending(s, key)[j])
  {
    var neg := (x: T) => -key(x);
    ByKeyPreorder(neg);
    SortByCorrect(s, ByKey(neg));
  }

  /** Ascending sort: ordered by increasing key, a permutation of the input. */
  lemma {:induction false} SortAscendingCorrect<T(!new)>(s: seq<T>, key: T -> real)
    ensures |SortAscending(s, key)| == |s|
    ensures multiset(SortAscending(s, key)) == multiset(s)
    ensures forall i, j :: 0 <= i < j < |s| ==> key(SortAscending(s, key)[i]) <= key(SortAscending(s, key)[j])
  {
    ByKeyPreorder(key);
    SortByCorrect(s, ByKey(key));
  }
}
