/** Lexicographic order on keys, and the stable sort by a key that `sorted` and `list.sort` perform. */
module Ordering {
  import opened Sequences

  /** A tuple of integers and strings; a string is the sequence of its code points. */
  type Key = seq<seq<int>>

  function Codes(s: string): (codes: seq<int>)
    ensures |codes| == |s| && forall i :: 0 <= i < |s| ==> codes[i] == s[i] as int
  {
    seq(|s|, i requires 0 <= i < |s| => s[i] as int)
  }

  lemma CodesInjective(a: string, b: string)
    requires Codes(a) == Codes(b)
    ensures a == b
  {
    forall i | 0 <= i < |a| ensures i < |b| && a[i] == b[i] {
      assert Codes(a)[i] == Codes(b)[i];
    }
  }

  /** `a[i..]` comes no later than `b[i..]`, element by element. */
  predicate WordLeq(a: seq<int>, b: seq<int>, i: nat)
    requires i <= |a| && i <= |b|
    decreases |a| - i
  {
    i == |a| || (i < |b| && (a[i] < b[i] || (a[i] == b[i] && WordLeq(a, b, i + 1))))
  }

  predicate KeyLeqFrom(a: Key, b: Key, i: nat)
    requires i <= |a| && i <= |b|
    decreases |a| - i
  {
    i == |a| || (i < |b| && if a[i] == b[i] then KeyLeqFrom(a, b, i + 1) else WordLeq(a[i], b[i], 0))
  }

  predicate KeyLeq(a: Key, b: Key) {
    KeyLeqFrom(a, b, 0)
  }

  lemma {:induction false} WordTotal(a: seq<int>, b: seq<int>, i: nat)
    requires i <= |a| && i <= |b|
    ensures WordLeq(a, b, i) || WordLeq(b, a, i)
    decreases |a| - i
  {
    if i < |a| && i < |b| && a[i] == b[i] {
      WordTotal(a, b, i + 1);
    }
  }

  lemma {:induction false} WordAntisymmetric(a: seq<int>, b: seq<int>, i: nat)
    requires i <= |a| && i <= |b| && WordLeq(a, b, i) && WordLeq(b, a, i)
    ensures |a| == |b| && forall j :: i <= j < |a| ==> a[j] == b[j]
    decreases |a| - i
  {
    if i < |a| {
      WordAntisymmetric(a, b, i + 1);
    }
  }

  lemma {:induction false} WordTransitive(a: seq<int>, b: seq<int>, c: seq<int>, i: nat)
    requires i <= |a| && i <= |b| && i <= |c| && WordLeq(a, b, i) && WordLeq(b, c, i)
    ensures WordLeq(a, c, i)
    decreases |a| - i
  {
    if i < |a| && i < |b| && i < |c| && a[i] == b[i] == c[i] {
      WordTransitive(a, b, c, i + 1);
    }
  }

  lemma {:induction false} KeyTotalFrom(a: Key, b: Key, i: nat)
    requires i <= |a| && i <= |b|
    ensures KeyLeqFrom(a, b, i) || KeyLeqFrom(b, a, i)
    decreases |a| - i
  {
    if i < |a| && i < |b| {
      if a[i] == b[i] {
        KeyTotalFrom(a, b, i + 1);
      } else {
        WordTotal(a[i], b[i], 0);
      }
    }
  }

  lemma {:induction false} KeyAntisymmetricFrom(a: Key, b: Key, i: nat)
    requires i <= |a| && i <= |b| && KeyLeqFrom(a, b, i) && KeyLeqFrom(b, a, i)
    ensures |a| == |b| && forall j :: i <= j < |a| ==> a[j] == b[j]
    decreases |a| - i
  {
    if i < |a| {
      if a[i] == b[i] {
        KeyAntisymmetricFrom(a, b, i + 1);
      } else {
        WordAntisymmetric(a[i], b[i], 0);
      }
    }
  }

  lemma {:induction false} KeyTransitiveFrom(a: Key, b: Key, c: Key, i: nat)
    requires i <= |a| && i <= |b| && i <= |c| && KeyLeqFrom(a, b, i) && KeyLeqFrom(b, c, i)
    ensures KeyLeqFrom(a, c, i)
    decreases |a| - i
  {
    if i < |a| {
      if a[i] == b[i] == c[i] {
        KeyTransitiveFrom(a, b, c, i + 1);
      } else if a[i] != b[i] && b[i] != c[i] {
        WordTransitive(a[i], b[i], c[i], 0);
        if a[i] == c[i] {
          WordAntisymmetric(a[i], b[i], 0);
        }
      }
    }
  }

  // ---------------------------------------------------------------- what the orders mean

  /** Up to `i` the two agree, and there `a` ends or has the smaller element. */
  ghost predicate WordDiffersAt(a: seq<int>, b: seq<int>, i: nat) {
    && i <= |a| && i <= |b| && (forall k :: 0 <= k < i ==> a[k] == b[k])
    && (i == |a| || (i < |b| && a[i] < b[i]))
  }

  /** Lexicographic order: the first difference decides, and a prefix comes first. */
  ghost predicate WordAtMost(a: seq<int>, b: seq<int>) {
    exists i: nat :: WordDiffersAt(a, b, i)
  }

  lemma {:induction false} WordLeqMeans(a: seq<int>, b: seq<int>, i: nat)
    requires i <= |a| && i <= |b| && forall k :: 0 <= k < i ==> a[k] == b[k]
    ensures WordLeq(a, b, i) <==> exists j: nat :: i <= j && WordDiffersAt(a, b, j)
    decreases |a| - i
  {
    if i < |a| && i < |b| && a[i] == b[i] {
      WordLeqMeans(a, b, i + 1);
    } else if WordLeq(a, b, i) {
      assert WordDiffersAt(a, b, i);
    }
  }

  ghost predicate KeyDiffersAt(a: Key, b: Key, i: nat) {
    && i <= |a| && i <= |b| && (forall k :: 0 <= k < i ==> a[k] == b[k])
    && (i == |a| || (i < |b| && a[i] != b[i] && WordAtMost(a[i], b[i])))
  }

  lemma {:induction false} KeyLeqMeansFrom(a: Key, b: Key, i: nat)
    requires i <= |a| && i <= |b| && forall k :: 0 <= k < i ==> a[k] == b[k]
    ensures KeyLeqFrom(a, b, i) <==> exists j: nat :: i <= j && KeyDiffersAt(a, b, j)
    decreases |a| - i
  {
    if i < |a| && i < |b| {
      WordLeqMeans(a[i], b[i], 0);
      assert WordLeq(a[i], b[i], 0) <==> WordAtMost(a[i], b[i]);
      if a[i] == b[i] {
        KeyLeqMeansFrom(a, b, i + 1);
      }
    }
    if KeyLeqFrom(a, b, i) && !(i < |a| && a[i] == b[i]) {
      assert KeyDiffersAt(a, b, i);
    }
  }

  /** Keys compare by their first difference, and there as integers or strings do. */
  lemma KeyLeqMeans(a: Key, b: Key)
    ensures KeyLeq(a, b) <==> exists i: nat :: KeyDiffersAt(a, b, i)
  {
    KeyLeqMeansFrom(a, b, 0);
  }

  /** The order of two strings, by code points. */
  ghost predicate TextAtMost(a: string, b: string) {
    exists i: nat :: TextDiffersAt(a, b, i)
  }

  ghost predicate TextDiffersAt(a: string, b: string, i: nat) {
    && i <= |a| && i <= |b| && (forall k :: 0 <= k < i ==> a[k] == b[k])
    && (i == |a| || (i < |b| && a[i] < b[i]))
  }

  lemma CodesOrder(a: string, b: string)
    ensures WordAtMost(Codes(a), Codes(b)) <==> TextAtMost(a, b)
  {
    var x, y := Codes(a), Codes(b);
    if i: nat :| WordDiffersAt(x, y, i) {
      forall k | 0 <= k < i ensures a[k] == b[k] {
        assert x[k] == y[k];
      }
      assert TextDiffersAt(a, b, i);
    }
    if i: nat :| TextDiffersAt(a, b, i) {
      assert WordDiffersAt(x, y, i);
    }
  }

  /** Keys of one string are ordered as their strings. */
  lemma TextKeyOrder(a: string, b: string)
    ensures KeyLeq([Codes(a)], [Codes(b)]) <==> TextAtMost(a, b)
  {
    CodesOrder(a, b);
    WordLeqMeans(Codes(a), Codes(b), 0);
    assert WordLeq(Codes(a), Codes(b), 0) <==> WordAtMost(Codes(a), Codes(b));
    if a == b {
      assert TextDiffersAt(a, b, |a|);
      assert KeyLeqFrom([Codes(a)], [Codes(b)], 1);
    } else if Codes(a) == Codes(b) {
      CodesInjective(a, b);
    }
  }

  lemma KeyTotal(a: Key, b: Key)
    ensures KeyLeq(a, b) || KeyLeq(b, a)
  {
    KeyTotalFrom(a, b, 0);
  }

  lemma KeyAntisymmetric(a: Key, b: Key)
    requires KeyLeq(a, b) && KeyLeq(b, a)
    ensures a == b
  {
    KeyAntisymmetricFrom(a, b, 0);
  }

  lemma KeyTransitive(a: Key, b: Key, c: Key)
    requires KeyLeq(a, b) && KeyLeq(b, c)
    ensures KeyLeq(a, c)
  {
    KeyTransitiveFrom(a, b, c, 0);
  }

  // ---------------------------------------------------------------- sorting

  function Insert<T>(key: T -> Key, s: seq<T>, x: T): seq<T> {
    if s == [] || KeyLeq(key(s[|s| - 1]), key(x)) then s + [x]
    else Insert(key, s[..|s| - 1], x) + [s[|s| - 1]]
  }

  /** `sorted(s, key=key)`. */
  function SortBy<T>(key: T -> Key, s: seq<T>): seq<T> {
    if s == [] then [] else Insert(key, SortBy(key, s[..|s| - 1]), s[|s| - 1])
  }

  ghost predicate Sorted<T>(key: T -> Key, s: seq<T>) {
    forall i, j :: 0 <= i < j < |s| ==> KeyLeq(key(s[i]), key(s[j]))
  }

  lemma {:induction false} InsertKeeps<T>(key: T -> Key, s: seq<T>, x: T)
    ensures multiset(Insert(key, s, x)) == multiset(s) + multiset{x}
    ensures |Insert(key, s, x)| == |s| + 1
  {
    if s != [] && !KeyLeq(key(s[|s| - 1]), key(x)) {
      InsertKeeps(key, s[..|s| - 1], x);
      FrontAndLast(s);
    }
  }

  lemma InMultiset<T>(s: seq<T>, x: T)
    ensures x in s <==> x in multiset(s)
  {
  }

  lemma {:induction false} InsertSorts<T>(key: T -> Key, s: seq<T>, x: T)
    requires Sorted(key, s)
    ensures Sorted(key, Insert(key, s, x))
  {
    if s == [] {
    } else if KeyLeq(key(s[|s| - 1]), key(x)) {
      forall i | 0 <= i < |s| ensures KeyLeq(key(s[i]), key(x)) {
        if i < |s| - 1 {
          KeyTransitive(key(s[i]), key(s[|s| - 1]), key(x));
        }
      }
    } else {
      var front, last := s[..|s| - 1], s[|s| - 1];
      var r := Insert(key, front, x);
      InsertSorts(key, front, x);
      InsertKeeps(key, front, x);
      KeyTotal(key(last), key(x));
      forall i | 0 <= i < |r| ensures KeyLeq(key(r[i]), key(last)) {
        assert r[i] in multiset(r);
        if r[i] != x {
          assert r[i] in multiset(front);
          InMultiset(front, r[i]);
        }
      }
    }
  }

  /** The sort permutes and sorts. */
  lemma {:induction false} SortBySorts<T>(key: T -> Key, s: seq<T>)
    ensures multiset(SortBy(key, s)) == multiset(s) && |SortBy(key, s)| == |s|
    ensures Sorted(key, SortBy(key, s))
  {
    if s != [] {
      var front, last := s[..|s| - 1], s[|s| - 1];
      SortBySorts(key, front);
      InsertSorts(key, SortBy(key, front), last);
      InsertKeeps(key, SortBy(key, front), last);
      FrontAndLast(s);
    }
  }

  lemma SortByMembers<T>(key: T -> Key, s: seq<T>)
    ensures forall x :: x in SortBy(key, s) <==> x in s
  {
    SortBySorts(key, s);
    forall x ensures x in SortBy(key, s) <==> x in s {
      InMultiset(s, x);
      InMultiset(SortBy(key, s), x);
    }
  }

  ghost predicate TellsApart<T>(key: T -> Key, s: seq<T>) {
    forall x, y :: x in s && y in s && key(x) == key(y) ==> x == y
  }

  lemma FrontMultiset<T>(s: seq<T>)
    requires s != []
    ensures multiset(s[..|s| - 1]) == multiset(s) - multiset{s[|s| - 1]}
  {
    FrontAndLast(s);
  }

  /** Where keys tell elements apart there is one sorted order. */
  lemma {:induction false} SortedUnique<T>(key: T -> Key, a: seq<T>, b: seq<T>)
    requires Sorted(key, a) && Sorted(key, b) && multiset(a) == multiset(b)
    requires TellsApart(key, a)
    ensures a == b
  {
    if a == [] {
      assert |multiset(b)| == |b|;
    } else {
      SameLast(key, a, b);
      FrontMultiset(a);
      FrontMultiset(b);
      assert TellsApart(key, a[..|a| - 1]);
      SortedUnique(key, a[..|a| - 1], b[..|b| - 1]);
      FrontAndLast(a);
      FrontAndLast(b);
    }
  }

  lemma SameLast<T>(key: T -> Key, a: seq<T>, b: seq<T>)
    requires Sorted(key, a) && Sorted(key, b) && multiset(a) == multiset(b) && a != []
    requires TellsApart(key, a)
    ensures b != [] && a[|a| - 1] == b[|b| - 1]
  {
    var x := a[|a| - 1];
    assert x in multiset(b);
    var i :| 0 <= i < |b| && b[i] == x;
    var y := b[|b| - 1];
    assert y in multiset(a);
    var j :| 0 <= j < |a| && a[j] == y;
    if x != y {
      assert KeyLeq(key(x), key(y)) && KeyLeq(key(y), key(x));
      KeyAntisymmetric(key(x), key(y));
    }
  }

  /** Sorting forgets the order it is given. */
  lemma SortForgetsOrder<T>(key: T -> Key, a: seq<T>, b: seq<T>)
    requires multiset(a) == multiset(b)
    requires TellsApart(key, a)
    ensures SortBy(key, a) == SortBy(key, b)
  {
    hide SortBy;
    hide Sorted;
    SortBySorts(key, a);
    SortBySorts(key, b);
    SortByMembers(key, a);
    assert TellsApart(key, SortBy(key, a));
    SortedUnique(key, SortBy(key, a), SortBy(key, b));
  }

  lemma SortedFirst<T>(key: T -> Key, s: seq<T>, x: T)
    requires Sorted(key, s) && x in s
    ensures KeyLeq(key(s[0]), key(x))
  {
    var i :| 0 <= i < |s| && s[i] == x;
    KeyTotal(key(x), key(x));
  }

  lemma PermutationNoDup<T>(a: seq<T>, b: seq<T>)
    requires multiset(a) == multiset(b) && NoDup(a)
    ensures NoDup(b)
  {
    NoDupCounts(a);
    forall i, j | 0 <= i < j < |b| ensures b[i] != b[j] {
      if b[i] == b[j] {
        TwiceCounts(b, i, j);
      }
    }
  }

  lemma {:induction false} NoDupCounts<T>(s: seq<T>)
    requires NoDup(s)
    ensures forall x :: multiset(s)[x] <= 1
  {
    if s != [] {
      FrontAndLast(s);
      NoDupCounts(s[..|s| - 1]);
      assert s[|s| - 1] !in multiset(s[..|s| - 1]);
    }
  }

  lemma TwiceCounts<T>(s: seq<T>, i: nat, j: nat)
    requires i < j < |s| && s[i] == s[j]
    ensures multiset(s)[s[i]] >= 2
  {
    assert s == s[..j] + s[j..];
    assert s[i] in multiset(s[..j]) && s[j] in multiset(s[j..]);
  }

  /** What is kept of a sorted sequence is sorted. */
  lemma {:induction false} FilterSorted<T(!new)>(p: T -> bool, key: T -> Key, s: seq<T>)
    requires Sorted(key, s)
    ensures Sorted(key, Filter(p, s))
  {
    if s != [] {
      var front, last := s[..|s| - 1], s[|s| - 1];
      FilterSorted(p, key, front);
      forall x | x in Filter(p, front) ensures KeyLeq(key(x), key(last)) {
        var i :| 0 <= i < |front| && front[i] == x;
        assert s[i] == x;
      }
    }
  }
}
