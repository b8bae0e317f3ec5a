/** The preorder in which a depth-first search with an explicit stack takes nodes off that stack. */
module DepthFirst {
  import opened Sequences

  /** `rank` bounds the height of the subtree below a node. */
  datatype Tree<!N> = Tree(children: N -> seq<N>, rank: N -> nat)

  ghost predicate Ranked<N(!new)>(t: Tree<N>) {
    forall n, c :: c in t.children(n) ==> t.rank(c) < t.rank(n)
  }

  ghost function MaxRank<N>(t: Tree<N>, stack: seq<N>): (k: nat)
    ensures forall n :: n in stack ==> t.rank(n) <= k
    ensures stack != [] ==> exists n :: n in stack && t.rank(n) == k
  {
    if stack == [] then 0
    else
      var rest, top := MaxRank(t, stack[..|stack| - 1]), t.rank(stack[|stack| - 1]);
      assert stack[|stack| - 1] in stack;
      if rest >= top && |stack| > 1 then rest else top
  }

  /** The nodes popped while the subtree of `n` is searched. */
  ghost function Visits<N(!new)>(t: Tree<N>, n: N): seq<N>
    requires Ranked(t)
    decreases t.rank(n), 0
  {
    if t.children(n) == [] then [n] else [n] + VisitStack(t, t.children(n))
  }

  /** The nodes popped until a whole stack is drained, its top (the last element) first. */
  ghost function VisitStack<N(!new)>(t: Tree<N>, stack: seq<N>): seq<N>
    requires Ranked(t)
    decreases MaxRank(t, stack), |stack| + 1
  {
    if stack == [] then []
    else
      var rest, top := stack[..|stack| - 1], stack[|stack| - 1];
      assert forall n :: n in rest ==> n in stack;
      Visits(t, top) + VisitStack(t, rest)
  }

  lemma {:induction false} VisitStackAppend<N(!new)>(t: Tree<N>, a: seq<N>, b: seq<N>)
    requires Ranked(t)
    ensures VisitStack(t, a + b) == VisitStack(t, b) + VisitStack(t, a)
    decreases |b|
  {
    if b == [] {
      assert a + b == a;
    } else {
      var front, top := b[..|b| - 1], b[|b| - 1];
      assert (a + b)[..|a + b| - 1] == a + front;
      VisitStackAppend(t, a, front);
    }
  }

  /** Popping the top of a stack and pushing its children leaves the rest of the order as it was. */
  lemma PopVisits<N(!new)>(t: Tree<N>, rest: seq<N>, top: N)
    requires Ranked(t)
    ensures VisitStack(t, rest + [top]) == [top] + VisitStack(t, rest + t.children(top))
  {
    assert (rest + [top])[..|rest|] == rest;
    VisitStackAppend(t, rest, t.children(top));
    if t.children(top) == [] {
      assert rest + t.children(top) == rest;
    }
  }

  /** Below which stack entry a visited node lies. */
  lemma {:induction false} StackSource<N(!new)>(t: Tree<N>, stack: seq<N>, n: N) returns (top: N)
    requires Ranked(t) && n in VisitStack(t, stack)
    ensures top in stack && n in Visits(t, top)
    decreases |stack|
  {
    top := stack[|stack| - 1];
    if n !in Visits(t, top) {
      top := StackSource(t, stack[..|stack| - 1], n);
    }
  }

  lemma {:induction false} StackTarget<N(!new)>(t: Tree<N>, stack: seq<N>, top: N, n: N)
    requires Ranked(t) && top in stack && n in Visits(t, top)
    ensures n in VisitStack(t, stack)
    decreases |stack|
  {
    if top != stack[|stack| - 1] {
      StackTarget(t, stack[..|stack| - 1], top, n);
    }
  }

  /** Subtrees that share no node, none visiting one twice, make a stack that visits none twice. */
  lemma {:induction false} StackNoDup<N(!new)>(t: Tree<N>, stack: seq<N>)
    requires Ranked(t)
    requires forall i :: 0 <= i < |stack| ==> NoDup(Visits(t, stack[i]))
    requires forall i, j, n :: 0 <= i < j < |stack| && n in Visits(t, stack[i]) ==> n !in Visits(t, stack[j])
    ensures NoDup(VisitStack(t, stack))
    decreases |stack|
  {
    if stack != [] {
      var rest, top := stack[..|stack| - 1], stack[|stack| - 1];
      StackNoDup(t, rest);
      forall n | n in Visits(t, top) ensures n !in VisitStack(t, rest) {
        if n in VisitStack(t, rest) {
          var other := StackSource(t, rest, n);
        }
      }
      NoDupConcat(Visits(t, top), VisitStack(t, rest));
    }
  }

  /** Trees with the same children are searched in the same order. */
  lemma {:induction false} SameVisits<N(!new)>(t: Tree<N>, u: Tree<N>, n: N)
    requires Ranked(t) && Ranked(u) && forall x :: t.children(x) == u.children(x)
    ensures Visits(t, n) == Visits(u, n)
    decreases t.rank(n), 0
  {
    if t.children(n) != [] {
      SameStack(t, u, t.children(n));
    }
  }

  lemma {:induction false} SameStack<N(!new)>(t: Tree<N>, u: Tree<N>, stack: seq<N>)
    requires Ranked(t) && Ranked(u) && forall x :: t.children(x) == u.children(x)
    ensures VisitStack(t, stack) == VisitStack(u, stack)
    decreases MaxRank(t, stack), |stack| + 1
  {
    if stack != [] {
      var rest, top := stack[..|stack| - 1], stack[|stack| - 1];
      assert forall n :: n in rest ==> n in stack;
      assert top in stack;
      SameVisits(t, u, top);
      SameStack(t, u, rest);
    }
  }
}
