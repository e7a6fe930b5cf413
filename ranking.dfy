/** Python's `sorted` keyed on the second component, highest first (main.py:28-30),
    which both the trend list and `Counter.most_common()` use: a stable sort of (item, key)
    pairs on the key, highest first, equal keys keeping their input order. */
module Ranking {

  predicate NonIncreasing<T>(s: seq<(T, int)>) {
    forall i, j :: 0 <= i < j < |s| ==> s[i].1 >= s[j].1
  }

  /** The pairs of `s` whose key is `k`, in their order in `s`. */
  function WithKey<T>(s: seq<(T, int)>, k: int): seq<(T, int)>
  {
    if s == [] then []
    else (if s[0].1 == k then [s[0]] else []) + WithKey(s[1..], k)
  }

  /** Puts `x` before the first pair whose key is not above its own. */
  function Insert<T>(x: (T, int), s: seq<(T, int)>): seq<(T, int)>
  {
    if s == [] || s[0].1 <= x.1 then [x] + s
    else [s[0]] + Insert(x, s[1..])
  }

  /** Inserting adds exactly `x`. */
  lemma {:induction false} InsertAdds<T>(x: (T, int), s: seq<(T, int)>)
    ensures multiset(Insert(x, s)) == multiset(s) + multiset{x}
    ensures |Insert(x, s)| == |s| + 1
  {
    if s != [] && s[0].1 > x.1 {
      InsertAdds(x, s[1..]);
      assert [s[0]] + s[1..] == s;
    }
  }

  /** The sort, as an insertion sort that inserts each pair in front of the
      equal-keyed pairs that came after it. */
  function SortDesc<T>(s: seq<(T, int)>): seq<(T, int)>
  {
    if s == [] then [] else Insert(s[0], SortDesc(s[1..]))
  }

  /** The sort is a permutation in non-increasing key order. */
  lemma {:induction false} SortDescSorts<T>(s: seq<(T, int)>)
    ensures multiset(SortDesc(s)) == multiset(s)
    ensures |SortDesc(s)| == |s|
    ensures NonIncreasing(SortDesc(s))
  {
    if s != [] {
      SortDescSorts(s[1..]);
      InsertAdds(s[0], SortDesc(s[1..]));
      InsertKeepsOrder(s[0], SortDesc(s[1..]));
      assert [s[0]] + s[1..] == s;
    }
  }

  /** A pair put in front of an ordered list keeps it ordered when its key is
      at least that of the list's first pair. */
  lemma ConsOrdered<T>(p: (T, int), s: seq<(T, int)>)
    requires NonIncreasing(s) && (s != [] ==> s[0].1 <= p.1)
    ensures NonIncreasing([p] + s)
  {
    var r := [p] + s;
    forall i, j | 0 <= i < j < |r| ensures r[i].1 >= r[j].1 {
      if i == 0 {
        assert r[j] == s[j - 1] && s[0].1 >= s[j - 1].1;
      } else {
        assert r[i] == s[i - 1] && r[j] == s[j - 1];
      }
    }
  }

  lemma {:induction false} InsertKeepsOrder<T>(x: (T, int), s: seq<(T, int)>)
    requires NonIncreasing(s)
    ensures NonIncreasing(Insert(x, s))
  {
    if s == [] || s[0].1 <= x.1 {
      ConsOrdered(x, s);
    } else {
      var t := s[1..];
      assert forall i :: 0 <= i < |t| ==> t[i] == s[i + 1];
      InsertKeepsOrder(x, t);
      ConsOrdered(s[0], Insert(x, t));
    }
  }

  lemma {:induction false} WithKeyAppend<T>(a: seq<(T, int)>, b: seq<(T, int)>, k: int)
    ensures WithKey(a + b, k) == WithKey(a, k) + WithKey(b, k)
  {
    if a != [] {
      assert (a + b)[1..] == a[1..] + b;
      WithKeyAppend(a[1..], b, k);
    } else {
      assert a + b == b;
    }
  }

  /** Inserting `x` adds it in front of the pairs that share its key: every pair
      it is placed behind has a higher key. */
  lemma {:induction false} InsertWithKey<T>(x: (T, int), s: seq<(T, int)>, k: int)
    ensures WithKey(Insert(x, s), k) == (if x.1 == k then [x] else []) + WithKey(s, k)
  {
    if s == [] || s[0].1 <= x.1 {
      WithKeyAppend([x], s, k);
      assert WithKey([x], k) == (if x.1 == k then [x] else []) + WithKey([x][1..], k);
    } else {
      InsertWithKey(x, s[1..], k);
      WithKeyAppend([s[0]], Insert(x, s[1..]), k);
      WithKeyAppend([s[0]], s[1..], k);
      assert [s[0]] + s[1..] == s;
      assert WithKey([s[0]], k) == (if s[0].1 == k then [s[0]] else []) + WithKey([s[0]][1..], k);
    }
  }

  /** Stability: for every key, the pairs carrying it keep their input order. */
  lemma {:induction false} SortDescStable<T>(s: seq<(T, int)>, k: int)
    ensures WithKey(SortDesc(s), k) == WithKey(s, k)
  {
    if s != [] {
      SortDescStable(s[1..], k);
      InsertWithKey(s[0], SortDesc(s[1..]), k);
    }
  }

  /** The items of `s` come in increasing `rank`. */
  predicate ByRank<T>(s: seq<(T, int)>, rank: T -> int) {
    forall i, j :: 0 <= i < j < |s| ==> rank(s[i].0) < rank(s[j].0)
  }

  /** Pairs with equal keys come in increasing `rank` of their items. */
  predicate TiesByRank<T>(s: seq<(T, int)>, rank: T -> int) {
    forall i, j :: 0 <= i < j < |s| && s[i].1 == s[j].1 ==> rank(s[i].0) < rank(s[j].0)
  }

  /** A property of the inserted pair and of every pair of `s` holds for every
      pair of the result. */
  lemma {:induction false} InsertAll<T>(x: (T, int), s: seq<(T, int)>, p: ((T, int)) -> bool)
    requires p(x) && forall k :: 0 <= k < |s| ==> p(s[k])
    ensures forall j :: 0 <= j < |Insert(x, s)| ==> p(Insert(x, s)[j])
  {
    if s != [] && s[0].1 > x.1 {
      assert forall k :: 0 <= k < |s| - 1 ==> s[1..][k] == s[k + 1];
      InsertAll(x, s[1..], p);
    }
  }

  /** Inserting a pair that ranks before every pair of `s` puts it in front of
      the pairs that share its key. */
  lemma {:induction false} InsertTies<T>(x: (T, int), s: seq<(T, int)>, rank: T -> int)
    requires TiesByRank(s, rank)
    requires forall k :: 0 <= k < |s| ==> rank(x.0) < rank(s[k].0)
    ensures TiesByRank(Insert(x, s), rank)
  {
    if s == [] || s[0].1 <= x.1 {
      var r := [x] + s;
      assert forall j :: 0 < j < |r| ==> r[j] == s[j - 1];
    } else {
      var t := s[1..];
      assert forall i :: 0 <= i < |t| ==> t[i] == s[i + 1];
      InsertTies(x, t, rank);
      var u := Insert(x, t);
      var top := s[0];
      InsertAll(x, t, (y: (T, int)) => y.1 == top.1 ==> rank(top.0) < rank(y.0));
      var r := [top] + u;
      assert forall j :: 0 < j < |r| ==> r[j] == u[j - 1];
    }
  }

  /** A property of every pair of `s` holds for every pair of its sort. */
  lemma {:induction false} SortDescAll<T>(s: seq<(T, int)>, p: ((T, int)) -> bool)
    requires forall k :: 0 <= k < |s| ==> p(s[k])
    ensures forall j :: 0 <= j < |SortDesc(s)| ==> p(SortDesc(s)[j])
  {
    if s != [] {
      assert forall k :: 0 <= k < |s| - 1 ==> s[1..][k] == s[k + 1];
      SortDescAll(s[1..], p);
      InsertAll(s[0], SortDesc(s[1..]), p);
    }
  }

  /** Stability in the form of a ranking: when the input is in rank order, the
      pairs of equal key leave the sort in rank order. */
  lemma {:induction false} SortDescTies<T>(s: seq<(T, int)>, rank: T -> int)
    requires ByRank(s, rank)
    ensures TiesByRank(SortDesc(s), rank)
  {
    if s != [] {
      var t := s[1..];
      assert forall i :: 0 <= i < |t| ==> t[i] == s[i + 1];
      SortDescTies(t, rank);
      SortDescAll(t, (y: (T, int)) => rank(s[0].0) < rank(y.0));
      InsertTies(s[0], SortDesc(t), rank);
    }
  }
}
