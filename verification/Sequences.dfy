/** Facts about duplicate-free sequences that several modules share. */
module Sequences {

  ghost predicate NoDup<T>(s: seq<T>) {
    forall i, j :: 0 <= i < j < |s| ==> s[i] != s[j]
  }

  ghost function ToSet<T>(s: seq<T>): set<T> {
    set x | x in s
  }

  lemma {:induction false} SizeOfToSet<T>(s: seq<T>)
    ensures |ToSet(s)| <= |s|
    ensures NoDup(s) ==> |ToSet(s)| == |s|
  {
    if s == [] {
      assert ToSet(s) == {};
    } else {
      var front, last := s[..|s| - 1], s[|s| - 1];
      SizeOfToSet(front);
      assert s == front + [last];
      assert ToSet(s) == ToSet(front) + {last};
    }
  }

  /** As many different elements as there are elements: none is there twice. */
  lemma {:induction false} FullSizeNoDup<T>(s: seq<T>)
    requires |ToSet(s)| == |s|
    ensures NoDup(s)
  {
    if s != [] {
      var front, last := s[..|s| - 1], s[|s| - 1];
      SizeOfToSet(front);
      assert s == front + [last];
      assert ToSet(s) == ToSet(front) + {last};
      FullSizeNoDup(front);
    }
  }

  lemma {:induction false} SubsetSize<T>(a: set<T>, b: set<T>)
    requires a <= b
    ensures |a| <= |b|
  {
    assert b == a + (b - a);
  }

  /** A duplicate-free sequence drawn from a finite set is no longer than the set is large. */
  lemma NoDupFits<T>(s: seq<T>, bound: set<T>)
    requires NoDup(s) && forall x :: x in s ==> x in bound
    ensures |s| <= |bound|
  {
    SizeOfToSet(s);
    SubsetSize(ToSet(s), bound);
  }

  lemma NoDupConcat<T>(a: seq<T>, b: seq<T>)
    requires NoDup(a) && NoDup(b)
    requires forall x :: x in a ==> x !in b
    ensures NoDup(a + b)
  {
    var c := a + b;
    forall i, j | 0 <= i < j < |c| ensures c[i] != c[j] {
      if i < |a| <= j {
        assert c[i] in a && c[j] in b;
      }
    }
  }

  lemma NoDupPrefix<T>(s: seq<T>, n: nat)
    requires NoDup(s) && n <= |s|
    ensures NoDup(s[..n])
  {
  }

  // ---------------------------------------------------------------- flat maps

  function FlatMap<A, B>(f: A -> seq<B>, s: seq<A>): seq<B> {
    if s == [] then [] else FlatMap(f, s[..|s| - 1]) + f(s[|s| - 1])
  }

  lemma {:induction false} FlatMapAppend<A, B>(f: A -> seq<B>, a: seq<A>, b: seq<A>)
    ensures FlatMap(f, a + b) == FlatMap(f, a) + FlatMap(f, b)
  {
    if b == [] {
      assert a + b == a;
    } else {
      var front := b[..|b| - 1];
      assert (a + b)[..|a + b| - 1] == a + front;
      FlatMapAppend(f, a, front);
    }
  }

  lemma FlatMapOne<A, B>(f: A -> seq<B>, x: A)
    ensures FlatMap(f, [x]) == f(x)
  {
    assert [x][..0] == [];
  }

  lemma FlatMapSnoc<A, B>(f: A -> seq<B>, s: seq<A>, x: A)
    ensures FlatMap(f, s + [x]) == FlatMap(f, s) + f(x)
  {
    assert (s + [x])[..|s|] == s;
  }

  lemma AppendAssociative<T>(a: seq<T>, b: seq<T>, c: seq<T>)
    ensures a + (b + c) == (a + b) + c
  {
  }

  lemma FrontAndLast<T>(s: seq<T>)
    requires s != []
    ensures s == s[..|s| - 1] + [s[|s| - 1]]
  {
  }

  /** Which element of `s` put `y` into the flat map. */
  lemma {:induction false} FlatMapSource<A, B>(f: A -> seq<B>, s: seq<A>, y: B) returns (i: nat)
    requires y in FlatMap(f, s)
    ensures i < |s| && y in f(s[i])
  {
    var front, last := s[..|s| - 1], s[|s| - 1];
    if y in f(last) {
      i := |s| - 1;
    } else {
      i := FlatMapSource(f, front, y);
    }
  }

  lemma {:induction false} FlatMapTarget<A, B>(f: A -> seq<B>, s: seq<A>, i: nat, y: B)
    requires i < |s| && y in f(s[i])
    ensures y in FlatMap(f, s)
  {
    if i < |s| - 1 {
      FlatMapTarget(f, s[..|s| - 1], i, y);
    }
  }

  /** The flat map of a sequence, split around its element `i`. */
  lemma FlatMapSplit<A, B>(f: A -> seq<B>, s: seq<A>, i: nat) returns (after: seq<B>)
    requires i < |s|
    ensures FlatMap(f, s[..i + 1]) == FlatMap(f, s[..i]) + f(s[i])
    ensures FlatMap(f, s) == FlatMap(f, s[..i]) + f(s[i]) + after
  {
    assert s[..i + 1][..i] == s[..i];
    FlatMapAppend(f, s[..i + 1], s[i + 1..]);
    assert s == s[..i + 1] + s[i + 1..];
    after := FlatMap(f, s[i + 1..]);
  }

  /** A flat map keeps sequences duplicate-free when no two arguments share a result. */
  lemma {:induction false} FlatMapNoDup<A, B>(f: A -> seq<B>, s: seq<A>)
    requires NoDup(s)
    requires forall x :: x in s ==> NoDup(f(x))
    requires forall x, x', y :: x in s && x' in s && y in f(x) && y in f(x') ==> x == x'
    ensures NoDup(FlatMap(f, s))
  {
    if s != [] {
      var front, last := s[..|s| - 1], s[|s| - 1];
      assert s == front + [last];
      FlatMapNoDup(f, front);
      forall y | y in FlatMap(f, front) ensures y !in f(last) {
        var i := FlatMapSource(f, front, y);
        assert s[i] != s[|s| - 1];
      }
      NoDupConcat(FlatMap(f, front), f(last));
    }
  }

  lemma {:induction false} FlatMapAgrees<A, B>(f: A -> seq<B>, g: A -> seq<B>, s: seq<A>)
    requires forall x :: x in s ==> f(x) == g(x)
    ensures FlatMap(f, s) == FlatMap(g, s)
  {
    if s != [] {
      FlatMapAgrees(f, g, s[..|s| - 1]);
    }
  }

  lemma {:induction false} FlatMapCompose<A, B, C>(f: A -> seq<B>, g: B -> seq<C>, h: A -> seq<C>, s: seq<A>)
    requires forall x :: x in s ==> h(x) == FlatMap(g, f(x))
    ensures FlatMap(g, FlatMap(f, s)) == FlatMap(h, s)
  {
    if s != [] {
      var front, last := s[..|s| - 1], s[|s| - 1];
      FlatMapCompose(f, g, h, front);
      FlatMapAppend(g, FlatMap(f, front), f(last));
    }
  }

  // ---------------------------------------------------------------- maps and filters

  function Map<A, B>(f: A -> B, s: seq<A>): (r: seq<B>)
    ensures |r| == |s| && forall i :: 0 <= i < |s| ==> r[i] == f(s[i])
  {
    seq(|s|, i requires 0 <= i < |s| => f(s[i]))
  }

  function Filter<T(!new)>(p: T -> bool, s: seq<T>): (r: seq<T>)
    ensures forall x :: x in r <==> x in s && p(x)
    ensures |r| <= |s|
  {
    if s == [] then []
    else
      var front, last := s[..|s| - 1], s[|s| - 1];
      Filter(p, front) + if p(last) then [last] else []
  }

  lemma {:induction false} FilterNoDup<T(!new)>(p: T -> bool, s: seq<T>)
    requires NoDup(s)
    ensures NoDup(Filter(p, s))
  {
    if s != [] {
      var front, last := s[..|s| - 1], s[|s| - 1];
      FilterNoDup(p, front);
      assert last !in front;
    }
  }

  lemma FilterNext<T(!new)>(p: T -> bool, s: seq<T>, n: nat)
    requires n < |s|
    ensures Filter(p, s[..n + 1]) == Filter(p, s[..n]) + if p(s[n]) then [s[n]] else []
  {
    assert s[..n + 1][..n] == s[..n];
  }

  lemma MapNoDup<A, B>(f: A -> B, s: seq<A>)
    requires NoDup(s) && forall x, y :: x in s && y in s && f(x) == f(y) ==> x == y
    ensures NoDup(Map(f, s))
  {
  }

  lemma {:induction false} FilterAppend<T(!new)>(p: T -> bool, a: seq<T>, b: seq<T>)
    ensures Filter(p, a + b) == Filter(p, a) + Filter(p, b)
  {
    if b == [] {
      assert a + b == a;
    } else {
      assert (a + b)[..|a + b| - 1] == a + b[..|b| - 1];
      FilterAppend(p, a, b[..|b| - 1]);
    }
  }

  lemma FilterOne<T(!new)>(p: T -> bool, x: T)
    ensures Filter(p, [x]) == if p(x) then [x] else []
  {
    assert [x][..0] == [];
  }

  lemma {:induction false} FilterAll<T(!new)>(p: T -> bool, s: seq<T>)
    requires forall x :: x in s ==> p(x)
    ensures Filter(p, s) == s
  {
    if s != [] {
      FrontAndLast(s);
      FilterAll(p, s[..|s| - 1]);
    }
  }

  lemma {:induction false} FilterAgrees<T(!new)>(p: T -> bool, q: T -> bool, s: seq<T>)
    requires forall x :: x in s ==> p(x) == q(x)
    ensures Filter(p, s) == Filter(q, s)
  {
    if s != [] {
      FilterAgrees(p, q, s[..|s| - 1]);
    }
  }

  lemma {:induction false} FilterNone<T(!new)>(p: T -> bool, s: seq<T>)
    requires forall x :: x in s ==> !p(x)
    ensures Filter(p, s) == []
  {
    if s != [] {
      FilterNone(p, s[..|s| - 1]);
    }
  }

  /** Filtering a flat map filters each piece. */
  lemma {:induction false} FilterFlatMap<A, B(!new)>(p: B -> bool, f: A -> seq<B>, h: A -> seq<B>, s: seq<A>)
    requires forall x :: x in s ==> Filter(p, f(x)) == h(x)
    ensures Filter(p, FlatMap(f, s)) == FlatMap(h, s)
  {
    if s != [] {
      FilterFlatMap(p, f, h, s[..|s| - 1]);
      FilterAppend(p, FlatMap(f, s[..|s| - 1]), f(s[|s| - 1]));
    }
  }

  lemma {:induction false} FlatMapOfOnes<A, B>(f: A -> seq<B>, g: A -> B, s: seq<A>)
    requires forall x :: x in s ==> f(x) == [g(x)]
    ensures FlatMap(f, s) == Map(g, s)
  {
    if s != [] {
      FrontAndLast(s);
      FlatMapOfOnes(f, g, s[..|s| - 1]);
    }
  }

  lemma {:induction false} FlatMapOfNothing<A, B>(f: A -> seq<B>, s: seq<A>)
    requires forall x :: x in s ==> f(x) == []
    ensures FlatMap(f, s) == []
  {
    if s != [] {
      FlatMapOfNothing(f, s[..|s| - 1]);
    }
  }
}
