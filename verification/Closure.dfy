/**
 What `explore_maximal_reversible` returns, said without its stack: the closure of lawful
 walks, the irreversible frontier, and when truncation is reported.
 */
module Closure {
  import opened Sequences
  import opened DepthFirst
  import opened Possibility
  import opened Exploration

  // ---------------------------------------------------------------- lawful walks

  /** The path that follows `edges` from `start`. */
  ghost function PathOf(start: string, edges: seq<Morphism>): Path {
    if edges == [] then Root(start)
    else Extend(PathOf(start, edges[..|edges| - 1]), edges[|edges| - 1])
  }

  ghost function EndOf(start: string, edges: seq<Morphism>): string {
    if edges == [] then start else edges[|edges| - 1].targetId
  }

  /** The object the walk has reached after `i` edges. */
  ghost function ObjectAt(start: string, edges: seq<Morphism>, i: nat): string
    requires i <= |edges|
  {
    if i == 0 then start else edges[i - 1].targetId
  }

  ghost predicate Connected(start: string, edges: seq<Morphism>) {
    forall i :: 0 <= i < |edges| ==> edges[i].sourceId == ObjectAt(start, edges, i)
  }

  /** The sum over the edges, one after the other, of what each contributes. */
  ghost function Total(of: Morphism -> real, edges: seq<Morphism>): real {
    if edges == [] then 0.0 else Total(of, edges[..|edges| - 1]) + of(edges[|edges| - 1])
  }

  ghost function MonetaryCost(edges: seq<Morphism>): real {
    Total((e: Morphism) => e.objectives.monetaryCost, edges)
  }

  ghost function WallTime(edges: seq<Morphism>): real {
    Total((e: Morphism) => e.objectives.wallTime, edges)
  }

  ghost function ComputeUnits(edges: seq<Morphism>): real {
    Total((e: Morphism) => e.objectives.computeUnits, edges)
  }

  ghost function HumanInterventions(edges: seq<Morphism>): real {
    Total((e: Morphism) => e.objectives.humanInterventions, edges)
  }

  ghost function RiskScore(edges: seq<Morphism>): real {
    Total((e: Morphism) => e.objectives.riskScore, edges)
  }

  ghost function ExpectedValue(edges: seq<Morphism>): real {
    Total((e: Morphism) => e.objectives.expectedValue, edges)
  }

  /** The least of 4 and the confidences of the edges. */
  ghost predicate LeastConfidence(least: nat, edges: seq<Morphism>) {
    && least <= 4 && (forall e :: e in edges ==> least <= e.objectives.verificationConfidence)
    && (least == 4 || exists e :: e in edges && e.objectives.verificationConfidence == least)
  }

  /** No total exceeds the limit set for it. */
  ghost predicate TotalsWithin(edges: seq<Morphism>, bounds: ExplorationBounds) {
    && (bounds.maxMonetaryCost.Some? ==> MonetaryCost(edges) <= bounds.maxMonetaryCost.value)
    && (bounds.maxWallTime.Some? ==> WallTime(edges) <= bounds.maxWallTime.value)
    && (bounds.maxComputeUnits.Some? ==> ComputeUnits(edges) <= bounds.maxComputeUnits.value)
    && (bounds.maxHumanInterventions.Some? ==> HumanInterventions(edges) <= bounds.maxHumanInterventions.value)
    && (bounds.maxRiskScore.Some? ==> RiskScore(edges) <= bounds.maxRiskScore.value)
  }

  /**
   A walk of the reversible closure: its edges are in the graph and join up, none is a DO edge,
   admission accepts each, and its totals are within bounds.
   */
  ghost predicate ClosureWalk(s: Search, start: string, edges: seq<Morphism>) {
    && Connected(start, edges)
    && (forall e :: e in edges ==> e in s.graph.morphisms && !e.phase.Do? && s.verdict(e).admitted)
    && TotalsWithin(edges, s.bounds)
  }

  /** The start and the targets of the edges, and the ids of the edges, in order. */
  ghost predicate RecordsSteps(q: Path, start: string, edges: seq<Morphism>) {
    && |q.objectIds| == |edges| + 1 && q.objectIds[0] == start && |q.morphismIds| == |edges|
    && (forall i :: 1 <= i <= |edges| ==> q.objectIds[i] == edges[i - 1].targetId)
    && (forall i :: 0 <= i < |edges| ==> q.morphismIds[i] == edges[i].morphismId)
  }

  ghost predicate RecordsTotals(value: ObjectiveVector, edges: seq<Morphism>) {
    && value.monetaryCost == MonetaryCost(edges)
    && value.wallTime == WallTime(edges)
    && value.computeUnits == ComputeUnits(edges)
    && value.humanInterventions == HumanInterventions(edges)
    && value.riskScore == RiskScore(edges)
    && value.expectedValue == ExpectedValue(edges)
    && LeastConfidence(value.verificationConfidence, edges)
  }

  /** A path that says where a walk led and what it costs in all. */
  ghost predicate Records(q: Path, start: string, edges: seq<Morphism>) {
    RecordsSteps(q, start, edges) && RecordsTotals(q.objectives, edges)
  }

  lemma LeastConfidenceNext(least: nat, edges: seq<Morphism>, last: Morphism, next: nat)
    requires LeastConfidence(least, edges)
    requires next == if least <= last.objectives.verificationConfidence then least else last.objectives.verificationConfidence
    ensures LeastConfidence(next, edges + [last])
  {
    if next != 4 {
      if next < least {
        assert last in edges + [last];
      } else {
        var e :| e in edges && e.objectives.verificationConfidence == least;
        assert e in edges + [last];
      }
    }
  }

  lemma TotalsNext(front: seq<Morphism>, last: Morphism)
    ensures var edges := front + [last];
            && MonetaryCost(edges) == MonetaryCost(front) + last.objectives.monetaryCost
            && WallTime(edges) == WallTime(front) + last.objectives.wallTime
            && ComputeUnits(edges) == ComputeUnits(front) + last.objectives.computeUnits
            && HumanInterventions(edges) == HumanInterventions(front) + last.objectives.humanInterventions
            && RiskScore(edges) == RiskScore(front) + last.objectives.riskScore
            && ExpectedValue(edges) == ExpectedValue(front) + last.objectives.expectedValue
  {
    assert (front + [last])[..|front|] == front;
  }

  lemma {:induction false} PathRecordsSteps(start: string, edges: seq<Morphism>)
    ensures RecordsSteps(PathOf(start, edges), start, edges)
  {
    if edges != [] {
      PathRecordsSteps(start, edges[..|edges| - 1]);
    }
  }

  lemma {:induction false} PathRecordsTotals(start: string, edges: seq<Morphism>)
    ensures RecordsTotals(PathOf(start, edges).objectives, edges)
  {
    if edges != [] {
      var front, last := edges[..|edges| - 1], edges[|edges| - 1];
      PathRecordsTotals(start, front);
      FrontAndLast(edges);
      TotalsNext(front, last);
      LeastConfidenceNext(PathOf(start, front).objectives.verificationConfidence, front, last,
                          PathOf(start, edges).objectives.verificationConfidence);
      hide Total;
      hide LeastConfidence;
    }
  }

  /** The path that follows a walk, and no other, records it. */
  lemma PathRecords(q: Path, start: string, edges: seq<Morphism>)
    ensures Records(q, start, edges) <==> q == PathOf(start, edges)
  {
    PathRecordsSteps(start, edges);
    PathRecordsTotals(start, edges);
    var p := PathOf(start, edges);
    hide PathOf;
    hide Total;
    if Records(q, start, edges) {
      assert q.objectIds == p.objectIds && q.morphismIds == p.morphismIds;
      OneLeastConfidence(q.objectives.verificationConfidence, p.objectives.verificationConfidence, edges);
    }
  }

  lemma OneLeastConfidence(a: nat, b: nat, edges: seq<Morphism>)
    requires LeastConfidence(a, edges) && LeastConfidence(b, edges)
    ensures a == b
  {
  }

  lemma TotalsAreBounded(start: string, edges: seq<Morphism>, bounds: ExplorationBounds)
    ensures TotalsWithin(edges, bounds) <==> WithinBounds(PathOf(start, edges).objectives, bounds)
  {
    PathRecordsTotals(start, edges);
    hide PathOf;
    hide Total;
    hide LeastConfidence;
  }

  /** Costs are not negative, so no total shrinks along a walk. */
  lemma TotalsGrow(edges: seq<Morphism>, bounds: ExplorationBounds)
    requires edges != [] && TotalsWithin(edges, bounds)
    ensures TotalsWithin(edges[..|edges| - 1], bounds)
  {
    FrontAndLast(edges);
    TotalsNext(edges[..|edges| - 1], edges[|edges| - 1]);
    hide Total;
  }

  /** The same, as the search meets it: every step is admissible and within bounds. */
  ghost predicate LawfulWalk(s: Search, start: string, edges: seq<Morphism>) {
    edges == [] ||
    var front, last := edges[..|edges| - 1], edges[|edges| - 1];
    && LawfulWalk(s, start, front)
    && last in s.graph.Outgoing(EndOf(start, front))
    && Traversable(s, last)
    && WithinBounds(PathOf(start, edges).objectives, s.bounds)
  }

  lemma ConnectedStep(start: string, front: seq<Morphism>, last: Morphism)
    ensures Connected(start, front + [last]) <==> Connected(start, front) && last.sourceId == EndOf(start, front)
  {
    var edges := front + [last];
    if Connected(start, edges) {
      assert edges[|front|].sourceId == EndOf(start, front);
      forall i | 0 <= i < |front| ensures front[i].sourceId == ObjectAt(start, front, i) {
        assert edges[i].sourceId == ObjectAt(start, edges, i);
      }
    }
  }

  /** Costs only grow along a walk, so pruning on the running cost loses no walk within bounds. */
  lemma {:induction false} PruningLosesNothing(s: Search, start: string, edges: seq<Morphism>)
    ensures ClosureWalk(s, start, edges) <==> LawfulWalk(s, start, edges)
  {
    TotalsAreBounded(start, edges, s.bounds);
    if edges != [] {
      var front, last := edges[..|edges| - 1], edges[|edges| - 1];
      PruningLosesNothing(s, start, front);
      if TotalsWithin(edges, s.bounds) {
        TotalsGrow(edges, s.bounds);
      }
      hide TotalsWithin;
      hide WithinBounds;
      hide PathOf;
      assert edges == front + [last];
      ConnectedStep(start, front, last);
    }
  }

  lemma {:induction false} PathOfShape(start: string, edges: seq<Morphism>)
    ensures var p := PathOf(start, edges);
            && |p.objectIds| == |edges| + 1 && p.objectIds[0] == start && Last(p) == EndOf(start, edges)
            && |p.morphismIds| == |edges|
            && forall i :: 0 <= i < |edges| ==> p.morphismIds[i] == edges[i].morphismId
  {
    if edges != [] {
      PathOfShape(start, edges[..|edges| - 1]);
    }
  }

  lemma WalkStep(s: Search, start: string, edges: seq<Morphism>, e: Morphism)
    ensures PathOf(start, edges + [e]) == Extend(PathOf(start, edges), e)
    ensures EndOf(start, edges + [e]) == e.targetId
    ensures LawfulWalk(s, start, edges + [e]) <==>
            && LawfulWalk(s, start, edges)
            && e in s.graph.Outgoing(EndOf(start, edges)) && Traversable(s, e)
            && WithinBounds(Extend(PathOf(start, edges), e).objectives, s.bounds)
  {
    assert (edges + [e])[..|edges|] == edges;
  }

  lemma {:induction false} LawfulPrefix(s: Search, start: string, edges: seq<Morphism>, n: nat)
    requires LawfulWalk(s, start, edges) && n <= |edges|
    ensures LawfulWalk(s, start, edges[..n])
  {
    if n == |edges| {
      assert edges[..n] == edges;
    } else {
      LawfulPrefix(s, start, edges[..|edges| - 1], n);
      assert edges[..|edges| - 1][..n] == edges[..n];
    }
  }

  lemma {:induction false} LawfulEdges(s: Search, start: string, edges: seq<Morphism>)
    requires LawfulWalk(s, start, edges)
    ensures forall e :: e in edges ==> e in s.graph.morphisms && Traversable(s, e)
  {
    PruningLosesNothing(s, start, edges);
  }

  /** Where morphism ids are unique, a path determines its walk. */
  lemma PathDeterminesWalk(s: Search, a: string, edges: seq<Morphism>, b: string, edges': seq<Morphism>)
    requires s.graph.UniqueMorphismIds()
    requires LawfulWalk(s, a, edges) && LawfulWalk(s, b, edges')
    requires PathOf(a, edges).objectIds == PathOf(b, edges').objectIds
    requires PathOf(a, edges).morphismIds == PathOf(b, edges').morphismIds
    ensures a == b && edges == edges'
  {
    PathOfShape(a, edges);
    PathOfShape(b, edges');
    LawfulEdges(s, a, edges);
    LawfulEdges(s, b, edges');
    forall i | 0 <= i < |edges| ensures edges[i] == edges'[i] {
      assert edges[i].morphismId == edges'[i].morphismId;
      SameId(s.graph.morphisms, edges[i], edges'[i]);
    }
  }

  lemma SameId(morphisms: seq<Morphism>, e: Morphism, f: Morphism)
    requires IdsDistinct(morphisms) && e in morphisms && f in morphisms && e.morphismId == f.morphismId
    ensures e == f
  {
    var i :| 0 <= i < |morphisms| && morphisms[i] == e;
    var j :| 0 <= j < |morphisms| && morphisms[j] == f;
  }

  // ---------------------------------------------------------------- the visited paths

  /** A start or closure walk no longer than the depth bound. */
  ghost predicate BoundedWalk(s: Search, starts: seq<string>, start: string, edges: seq<Morphism>) {
    start in starts && LawfulWalk(s, start, edges) && |edges| <= s.bounds.maxDepth
  }

  lemma {:induction false} VisitsSound(s: Search, start: string, edges: seq<Morphism>, q: Path)
    returns (whole: seq<Morphism>)
    requires LawfulWalk(s, start, edges) && |edges| <= s.bounds.maxDepth
    requires q in Visits(SearchTree(s), PathOf(start, edges))
    ensures LawfulWalk(s, start, whole) && |whole| <= s.bounds.maxDepth && q == PathOf(start, whole)
    decreases s.bounds.maxDepth - |edges|
  {
    whole := edges;
    if q != PathOf(start, edges) {
      var c := StackSource(SearchTree(s), Children(s, PathOf(start, edges)), q);
      var e := ChildWalk(s, start, edges, c);
      whole := VisitsSound(s, start, edges + [e], q);
    }
  }

  lemma ChildWalk(s: Search, start: string, edges: seq<Morphism>, c: Path) returns (e: Morphism)
    requires LawfulWalk(s, start, edges) && c in Children(s, PathOf(start, edges))
    ensures LawfulWalk(s, start, edges + [e]) && c == PathOf(start, edges + [e]) && |edges| < s.bounds.maxDepth
  {
    var p := PathOf(start, edges);
    PathOfShape(start, edges);
    ChildrenExact(s, p);
    e :| e in s.graph.Outgoing(Last(p)) && Traversable(s, e) && c == Extend(p, e)
         && WithinBounds(c.objectives, s.bounds);
    WalkStep(s, start, edges, e);
  }

  lemma WalkChild(s: Search, start: string, edges: seq<Morphism>, e: Morphism)
    requires LawfulWalk(s, start, edges + [e]) && |edges| < s.bounds.maxDepth
    ensures PathOf(start, edges + [e]) in Children(s, PathOf(start, edges))
  {
    WalkStep(s, start, edges, e);
    PathOfShape(start, edges);
    ChildrenExact(s, PathOf(start, edges));
  }

  lemma {:induction false} VisitsComplete(s: Search, start: string, edges: seq<Morphism>, more: seq<Morphism>)
    requires LawfulWalk(s, start, edges + more) && |edges + more| <= s.bounds.maxDepth
    ensures PathOf(start, edges + more) in Visits(SearchTree(s), PathOf(start, edges))
    decreases |more|
  {
    if more == [] {
      assert edges + more == edges;
    } else {
      var t, p, longer := SearchTree(s), PathOf(start, edges), edges + [more[0]];
      assert edges + more == longer + more[1..];
      VisitsComplete(s, start, longer, more[1..]);
      LawfulPrefix(s, start, edges + more, |longer|);
      assert (edges + more)[..|longer|] == longer;
      WalkChild(s, start, edges, more[0]);
      StackTarget(t, t.children(p), PathOf(start, longer), PathOf(start, edges + more));
    }
  }

  lemma RootWalk(s: Search, start: string)
    ensures LawfulWalk(s, start, []) && PathOf(start, []) == Root(start)
  {
  }

  /** The search pops the starts and the closure walks within the depth bound, nothing else. */
  lemma VisitedSound(s: Search, starts: seq<string>, q: Path) returns (start: string, edges: seq<Morphism>)
    requires q in Visited(s, starts)
    ensures BoundedWalk(s, starts, start, edges) && q == PathOf(start, edges)
  {
    var root := StackSource(SearchTree(s), Roots(starts), q);
    var i :| 0 <= i < |starts| && Roots(starts)[i] == root;
    start := starts[|starts| - 1 - i];
    RootWalk(s, start);
    edges := VisitsSound(s, start, [], q);
  }

  lemma VisitedComplete(s: Search, starts: seq<string>, start: string, edges: seq<Morphism>)
    requires BoundedWalk(s, starts, start, edges)
    ensures PathOf(start, edges) in Visited(s, starts)
  {
    assert [] + edges == edges;
    VisitsComplete(s, start, [], edges);
    var i :| 0 <= i < |starts| && starts[i] == start;
    assert Roots(starts)[|starts| - 1 - i] == Root(start);
    StackTarget(SearchTree(s), Roots(starts), Root(start), PathOf(start, edges));
  }

  // ---------------------------------------------------------------- each path once

  /** `q` begins with the objects and the morphisms of `p`. */
  ghost predicate Continues(q: Path, p: Path) {
    p.objectIds <= q.objectIds && p.morphismIds <= q.morphismIds
  }

  lemma {:induction false} VisitsContinue(s: Search, p: Path, q: Path)
    requires q in Visits(SearchTree(s), p)
    ensures Continues(q, p)
    decreases Remaining(s, p)
  {
    var t := SearchTree(s);
    if q != p {
      var c := StackSource(t, Children(s, p), q);
      ChildrenExact(s, p);
      assert Depth(c) == Depth(p) + 1;
      VisitsContinue(s, c, q);
    }
  }

  lemma ExtendInjective(g: PossibilityGraph, p: Path, e: Morphism, f: Morphism)
    requires g.UniqueMorphismIds() && e in g.morphisms && f in g.morphisms
    requires Extend(p, e).morphismIds == Extend(p, f).morphismIds
    ensures e == f
  {
    assert Extend(p, e).morphismIds[|p.morphismIds|] == e.morphismId;
    assert Extend(p, f).morphismIds[|p.morphismIds|] == f.morphismId;
    SameId(g.morphisms, e, f);
  }

  /** Siblings differ already in their morphisms. */
  lemma SiblingsDiffer(s: Search, p: Path, c: Path, d: Path)
    requires s.graph.UniqueMorphismIds()
    requires c in Children(s, p) && d in Children(s, p) && c.morphismIds == d.morphismIds
    ensures c == d
  {
    ChildrenExact(s, p);
    var e :| e in s.graph.Outgoing(Last(p)) && c == Extend(p, e);
    var f :| f in s.graph.Outgoing(Last(p)) && d == Extend(p, f);
    ExtendInjective(s.graph, p, e, f);
  }

  lemma NoDupOfIds(edges: seq<Morphism>)
    requires IdsDistinct(edges)
    ensures NoDup(edges)
  {
  }

  function EmittedAlong(s: Search, p: Path): Morphism -> seq<Path> {
    (e: Morphism) => Emissions(EdgeEvents(s, p, e))
  }

  lemma EmittedAlongOne(s: Search, p: Path, e: Morphism)
    ensures NoDup(EmittedAlong(s, p)(e)) && forall c :: c in EmittedAlong(s, p)(e) ==> c == Extend(p, e)
  {
    EdgeProjections(s, p, e);
  }

  lemma ChildrenNoDup(s: Search, p: Path)
    requires s.graph.UniqueMorphismIds()
    ensures NoDup(Children(s, p))
  {
    if Depth(p) < s.bounds.maxDepth {
      var outgoing := s.graph.Outgoing(Last(p));
      OutgoingIdsDistinct(s.graph.morphisms, Last(p));
      NoDupOfIds(outgoing);
      FlatMapCompose(Along(s, p), EmittedPath, EmittedAlong(s, p), outgoing);
      EmittedNoDup(s, p, outgoing);
    } else {
      AtDepth(s, p);
    }
  }

  lemma EmittedNoDup(s: Search, p: Path, edges: seq<Morphism>)
    requires s.graph.UniqueMorphismIds() && NoDup(edges) && forall e :: e in edges ==> e in s.graph.morphisms
    ensures NoDup(FlatMap(EmittedAlong(s, p), edges))
  {
    var h := EmittedAlong(s, p);
    forall e | e in edges ensures NoDup(h(e)) {
      EmittedAlongOne(s, p, e);
    }
    forall e, f, c | e in edges && f in edges && c in h(e) && c in h(f) ensures e == f {
      EmittedAlongOne(s, p, e);
      EmittedAlongOne(s, p, f);
      ExtendInjective(s.graph, p, e, f);
    }
    FlatMapNoDup(h, edges);
  }

  lemma ChildrenDeeper(s: Search, p: Path, c: Path)
    requires c in Children(s, p)
    ensures Depth(c) == Depth(p) + 1 && Remaining(s, c) < Remaining(s, p)
  {
    ChildrenExact(s, p);
  }

  /** No path lies below two siblings. */
  lemma SubtreesDisjoint(s: Search, p: Path, c: Path, d: Path, q: Path)
    requires s.graph.UniqueMorphismIds() && c in Children(s, p) && d in Children(s, p)
    requires q in Visits(SearchTree(s), c) && q in Visits(SearchTree(s), d)
    ensures c == d
  {
    VisitsContinue(s, c, q);
    VisitsContinue(s, d, q);
    ChildrenDeeper(s, p, c);
    ChildrenDeeper(s, p, d);
    assert c.morphismIds == q.morphismIds[..Depth(p) + 1];
    assert d.morphismIds == q.morphismIds[..Depth(p) + 1];
    SiblingsDiffer(s, p, c, d);
  }

  lemma {:induction false} VisitsNoDup(s: Search, p: Path)
    requires s.graph.UniqueMorphismIds()
    ensures NoDup(Visits(SearchTree(s), p))
    decreases Remaining(s, p)
  {
    var t, children := SearchTree(s), Children(s, p);
    ChildrenNoDup(s, p);
    forall i | 0 <= i < |children| ensures NoDup(Visits(t, children[i])) {
      ChildrenDeeper(s, p, children[i]);
      VisitsNoDup(s, children[i]);
    }
    forall i, j, q | 0 <= i < j < |children| && q in Visits(t, children[i]) ensures q !in Visits(t, children[j]) {
      if q in Visits(t, children[j]) {
        SubtreesDisjoint(s, p, children[i], children[j], q);
      }
    }
    StackNoDup(t, children);
    if p in VisitStack(t, children) {
      var c := StackSource(t, children, p);
      ChildrenDeeper(s, p, c);
      VisitsContinue(s, c, p);
    }
    NoDupConcat([p], VisitStack(t, children));
  }

  lemma VisitedNoDup(s: Search, starts: seq<string>)
    requires s.graph.UniqueMorphismIds() && NoDup(starts)
    ensures NoDup(Visited(s, starts))
  {
    var t, roots := SearchTree(s), Roots(starts);
    forall i | 0 <= i < |roots| ensures NoDup(Visits(t, roots[i])) {
      VisitsNoDup(s, roots[i]);
    }
    forall i, j, q | 0 <= i < j < |roots| && q in Visits(t, roots[i]) ensures q !in Visits(t, roots[j]) {
      VisitsContinue(s, roots[i], q);
      if q in Visits(t, roots[j]) {
        VisitsContinue(s, roots[j], q);
      }
    }
    StackNoDup(t, roots);
  }

  // ---------------------------------------------------------------- the events of the full run

  /** The paths of the closure: non-empty lawful walks from a start, of any length. */
  ghost predicate InClosure(s: Search, starts: seq<string>, q: Path) {
    exists start, edges :: start in starts && edges != [] && ClosureWalk(s, start, edges) && Records(q, start, edges)
  }

  /** The closure restricted to walks no longer than the depth bound. */
  ghost predicate InBoundedClosure(s: Search, starts: seq<string>, q: Path) {
    InClosure(s, starts, q) && Depth(q) <= s.bounds.maxDepth
  }

  lemma InClosureWitness(s: Search, starts: seq<string>, q: Path) returns (start: string, edges: seq<Morphism>)
    requires InClosure(s, starts, q)
    ensures start in starts && edges != [] && LawfulWalk(s, start, edges)
    ensures q == PathOf(start, edges) && Depth(q) == |edges|
  {
    start, edges :| start in starts && edges != [] && ClosureWalk(s, start, edges) && Records(q, start, edges);
    PathRecords(q, start, edges);
    hide Records;
    PruningLosesNothing(s, start, edges);
    PathOfShape(start, edges);
  }

  lemma WalkInClosure(s: Search, starts: seq<string>, start: string, edges: seq<Morphism>)
    requires start in starts && edges != [] && LawfulWalk(s, start, edges)
    ensures InClosure(s, starts, PathOf(start, edges)) && Depth(PathOf(start, edges)) == |edges|
  {
    PruningLosesNothing(s, start, edges);
    PathOfShape(start, edges);
    PathRecords(PathOf(start, edges), start, edges);
    hide Records;
  }

  /** The popped path an event of the full run belongs to. */
  lemma EventSource(s: Search, starts: seq<string>, x: Event) returns (start: string, edges: seq<Morphism>)
    requires x in FullRun(s, starts)
    ensures BoundedWalk(s, starts, start, edges) && x in PathEvents(s, PathOf(start, edges))
  {
    var visited := Visited(s, starts);
    var i := FlatMapSource(Popping(s), visited, x);
    start, edges := VisitedSound(s, starts, visited[i]);
  }

  lemma EventTarget(s: Search, starts: seq<string>, start: string, edges: seq<Morphism>, x: Event)
    requires BoundedWalk(s, starts, start, edges) && x in PathEvents(s, PathOf(start, edges))
    ensures x in FullRun(s, starts)
  {
    var visited, p := Visited(s, starts), PathOf(start, edges);
    VisitedComplete(s, starts, start, edges);
    var i :| 0 <= i < |visited| && visited[i] == p;
    FlatMapTarget(Popping(s), visited, i, x);
  }

  lemma EmissionsSound(s: Search, starts: seq<string>, q: Path)
    requires Emitted(q) in FullRun(s, starts)
    ensures InBoundedClosure(s, starts, q)
  {
    var start, edges := EventSource(s, starts, Emitted(q));
    ProjectionMembers(PathEvents(s, PathOf(start, edges)));
    var e := ChildWalk(s, start, edges, q);
    WalkInClosure(s, starts, start, edges + [e]);
  }

  lemma EmissionsComplete(s: Search, starts: seq<string>, start: string, front: seq<Morphism>, last: Morphism)
    requires start in starts && LawfulWalk(s, start, front + [last]) && |front| < s.bounds.maxDepth
    ensures Emitted(PathOf(start, front + [last])) in FullRun(s, starts)
  {
    WalkChild(s, start, front, last);
    ProjectionMembers(PathEvents(s, PathOf(start, front)));
    WalkStep(s, start, front, last);
    EventTarget(s, starts, start, front, Emitted(PathOf(start, front + [last])));
  }

  /** Without the cap the search emits exactly the bounded closure. */
  lemma EmissionsExact(s: Search, starts: seq<string>, q: Path)
    ensures q in Emissions(FullRun(s, starts)) <==> InBoundedClosure(s, starts, q)
  {
    ProjectionMembers(FullRun(s, starts));
    if Emitted(q) in FullRun(s, starts) {
      EmissionsSound(s, starts, q);
    }
    if InBoundedClosure(s, starts, q) {
      var start, edges := InClosureWitness(s, starts, q);
      FrontAndLast(edges);
      EmissionsComplete(s, starts, start, edges[..|edges| - 1], edges[|edges| - 1]);
    }
  }

  function ChildrenOf(s: Search): Path -> seq<Path> {
    (p: Path) => Children(s, p)
  }

  /** Only one visited path has `c` as its child. */
  lemma ParentUnique(s: Search, starts: seq<string>, p: Path, p': Path, c: Path)
    requires s.graph.UniqueMorphismIds()
    requires p in Visited(s, starts) && p' in Visited(s, starts) && c in Children(s, p) && c in Children(s, p')
    ensures p == p'
  {
    var a, edges := VisitedSound(s, starts, p);
    var b, edges' := VisitedSound(s, starts, p');
    var e := ChildWalk(s, a, edges, c);
    var f := ChildWalk(s, b, edges', c);
    PathDeterminesWalk(s, a, edges + [e], b, edges' + [f]);
    assert (edges + [e])[..|edges + [e]| - 1] == edges;
    assert (edges' + [f])[..|edges' + [f]| - 1] == edges';
  }

  lemma EmissionsNoDup(s: Search, starts: seq<string>)
    requires s.graph.UniqueMorphismIds() && NoDup(starts)
    ensures NoDup(Emissions(FullRun(s, starts)))
  {
    var visited, f := Visited(s, starts), ChildrenOf(s);
    FlatMapCompose(Popping(s), EmittedPath, f, visited);
    VisitedNoDup(s, starts);
    forall p | p in visited ensures NoDup(f(p)) {
      ChildrenNoDup(s, p);
    }
    forall p, p', c | p in visited && p' in visited && c in f(p) && c in f(p') ensures p == p' {
      ParentUnique(s, starts, p, p', c);
    }
    FlatMapNoDup(f, visited);
  }

  /** `f` cuts DO edge `e` off the end of the walk. */
  ghost predicate CutsOff(s: Search, start: string, edges: seq<Morphism>, e: Morphism, f: FrontierEdge) {
    && e in s.graph.Outgoing(EndOf(start, edges)) && e.phase.Do?
    && f == FrontierOf(PathOf(start, edges), e, s.verdict(e))
  }

  lemma PathCuts(s: Search, p: Path, f: FrontierEdge)
    ensures Cut(f) in PathEvents(s, p) <==>
            && Depth(p) < s.bounds.maxDepth
            && exists e :: e in s.graph.Outgoing(Last(p)) && e.phase.Do? && f == FrontierOf(p, e, s.verdict(e))
  {
    var outgoing := s.graph.Outgoing(Last(p));
    if Depth(p) < s.bounds.maxDepth {
      if Cut(f) in PathEvents(s, p) {
        var i := FlatMapSource(Along(s, p), outgoing, Cut(f));
        assert outgoing[i] in outgoing;
      }
      if e :| e in outgoing && e.phase.Do? && f == FrontierOf(p, e, s.verdict(e)) {
        var i :| 0 <= i < |outgoing| && outgoing[i] == e;
        FlatMapTarget(Along(s, p), outgoing, i, Cut(f));
      }
    }
  }

  lemma CutsSound(s: Search, starts: seq<string>, f: FrontierEdge)
    returns (start: string, edges: seq<Morphism>, e: Morphism)
    requires Cut(f) in FullRun(s, starts)
    ensures BoundedWalk(s, starts, start, edges) && |edges| < s.bounds.maxDepth && CutsOff(s, start, edges, e, f)
  {
    start, edges := EventSource(s, starts, Cut(f));
    var p := PathOf(start, edges);
    PathCuts(s, p, f);
    PathOfShape(start, edges);
    e :| e in s.graph.Outgoing(Last(p)) && e.phase.Do? && f == FrontierOf(p, e, s.verdict(e));
  }

  lemma CutsComplete(s: Search, starts: seq<string>, start: string, edges: seq<Morphism>, e: Morphism, f: FrontierEdge)
    requires BoundedWalk(s, starts, start, edges) && |edges| < s.bounds.maxDepth && CutsOff(s, start, edges, e, f)
    ensures Cut(f) in FullRun(s, starts)
  {
    PathOfShape(start, edges);
    PathCuts(s, PathOf(start, edges), f);
    EventTarget(s, starts, start, edges, Cut(f));
  }

  /** The cuts of the full run are the DO edges that leave a walk shorter than the depth bound. */
  lemma CutsExact(s: Search, starts: seq<string>, f: FrontierEdge)
    ensures f in Cuts(FullRun(s, starts)) <==>
            exists start, edges, e :: BoundedWalk(s, starts, start, edges) && |edges| < s.bounds.maxDepth
                                      && CutsOff(s, start, edges, e, f)
  {
    ProjectionMembers(FullRun(s, starts));
    if Cut(f) in FullRun(s, starts) {
      var start, edges, e := CutsSound(s, starts, f);
    }
    if start, edges, e :| BoundedWalk(s, starts, start, edges) && |edges| < s.bounds.maxDepth
                          && CutsOff(s, start, edges, e, f) {
      CutsComplete(s, starts, start, edges, e, f);
    }
  }

  function CutsAlong(s: Search, p: Path): Morphism -> seq<FrontierEdge> {
    (e: Morphism) => Cuts(EdgeEvents(s, p, e))
  }

  function CutsOf(s: Search): Path -> seq<FrontierEdge> {
    (p: Path) => Cuts(PathEvents(s, p))
  }

  lemma CutsAlongOne(s: Search, p: Path, e: Morphism)
    ensures NoDup(CutsAlong(s, p)(e)) && forall f :: f in CutsAlong(s, p)(e) ==> f.morphismId == e.morphismId
  {
    EdgeProjections(s, p, e);
  }

  lemma CutsAlongNoDup(s: Search, p: Path, edges: seq<Morphism>)
    requires IdsDistinct(edges)
    ensures NoDup(FlatMap(CutsAlong(s, p), edges))
  {
    var h := CutsAlong(s, p);
    NoDupOfIds(edges);
    forall e | e in edges ensures NoDup(h(e)) {
      CutsAlongOne(s, p, e);
    }
    forall e, e', f | e in edges && e' in edges && f in h(e) && f in h(e') ensures e == e' {
      CutsAlongOne(s, p, e);
      CutsAlongOne(s, p, e');
      SameId(edges, e, e');
    }
    FlatMapNoDup(h, edges);
  }

  lemma PathCutsNoDup(s: Search, p: Path)
    requires s.graph.UniqueMorphismIds()
    ensures NoDup(Cuts(PathEvents(s, p)))
  {
    if Depth(p) < s.bounds.maxDepth {
      var outgoing := s.graph.Outgoing(Last(p));
      OutgoingIdsDistinct(s.graph.morphisms, Last(p));
      FlatMapCompose(Along(s, p), CutEdge, CutsAlong(s, p), outgoing);
      CutsAlongNoDup(s, p, outgoing);
    } else {
      AtDepth(s, p);
    }
  }

  lemma CutsNoDup(s: Search, starts: seq<string>)
    requires s.graph.UniqueMorphismIds() && NoDup(starts)
    ensures NoDup(Cuts(FullRun(s, starts)))
  {
    var visited, h := Visited(s, starts), CutsOf(s);
    FlatMapCompose(Popping(s), CutEdge, h, visited);
    VisitedNoDup(s, starts);
    forall p | p in visited ensures NoDup(h(p)) {
      PathCutsNoDup(s, p);
    }
    forall p, p', f | p in visited && p' in visited && f in h(p) && f in h(p') ensures p == p' {
      ProjectionMembers(PathEvents(s, p));
      ProjectionMembers(PathEvents(s, p'));
      PathCuts(s, p, f);
      PathCuts(s, p', f);
    }
    FlatMapNoDup(h, visited);
  }

  /** A start or closure walk of exactly the bounded length that still has an outgoing edge. */
  ghost predicate GoesOn(s: Search, starts: seq<string>, start: string, edges: seq<Morphism>) {
    && start in starts && ClosureWalk(s, start, edges) && |edges| == s.bounds.maxDepth
    && exists e :: e in s.graph.morphisms && e.sourceId == EndOf(start, edges)
  }

  lemma DepthReachedExact(s: Search, starts: seq<string>)
    ensures DepthReached in FullRun(s, starts) <==> exists start, edges :: GoesOn(s, starts, start, edges)
  {
    if DepthReached in FullRun(s, starts) {
      var start, edges := EventSource(s, starts, DepthReached);
      PathOfShape(start, edges);
      var p := PathOf(start, edges);
      if Depth(p) < s.bounds.maxDepth {
        var i := FlatMapSource(Along(s, p), s.graph.Outgoing(Last(p)), DepthReached);
        EdgeProjections(s, p, s.graph.Outgoing(Last(p))[i]);
      }
      PruningLosesNothing(s, start, edges);
      assert s.graph.Outgoing(Last(p))[0] in s.graph.Outgoing(Last(p));
      assert GoesOn(s, starts, start, edges);
    }
    if start, edges :| GoesOn(s, starts, start, edges) {
      PruningLosesNothing(s, start, edges);
      PathOfShape(start, edges);
      EventTarget(s, starts, start, edges, DepthReached);
    }
  }

  // ---------------------------------------------------------------- main results

  lemma {:induction false} PrefixGoesOn(s: Search, start: string, edges: seq<Morphism>, n: nat)
    requires LawfulWalk(s, start, edges) && n < |edges|
    ensures LawfulWalk(s, start, edges[..n]) && s.graph.Outgoing(EndOf(start, edges[..n])) != []
  {
    if n < |edges| - 1 {
      PrefixGoesOn(s, start, edges[..|edges| - 1], n);
      assert edges[..|edges| - 1][..n] == edges[..n];
    }
  }

  /** Where nothing goes on past the depth bound, no lawful walk is longer than it. */
  lemma NoLongerWalk(s: Search, starts: seq<string>, start: string, edges: seq<Morphism>)
    requires DepthReached !in FullRun(s, starts) && start in starts && LawfulWalk(s, start, edges)
    ensures |edges| <= s.bounds.maxDepth
  {
    if |edges| > s.bounds.maxDepth {
      PrefixGoesOn(s, start, edges, s.bounds.maxDepth);
      PruningLosesNothing(s, start, edges[..s.bounds.maxDepth]);
      hide LawfulWalk;
      hide ClosureWalk;
      var outgoing := s.graph.Outgoing(EndOf(start, edges[..s.bounds.maxDepth]));
      assert outgoing[0] in outgoing;
      assert GoesOn(s, starts, start, edges[..s.bounds.maxDepth]);
      DepthReachedExact(s, starts);
    }
  }

  lemma Untruncated(s: Search, starts: seq<string>)
    requires !Explored(s, starts).truncated
    ensures CappedRun(s, starts) == FullRun(s, starts) && DepthReached !in FullRun(s, starts)
  {
    CapNotReached(FullRun(s, starts), s.bounds.maxPaths);
  }

  /**
   Closure exactness: an untruncated exploration emits exactly the closure, walks of every
   length included, and each path once when the starts are distinct.
   */
  lemma ClosureExactness(s: Search, starts: seq<string>)
    requires s.graph.UniqueMorphismIds() && !Explored(s, starts).truncated
    ensures forall q :: q in Explored(s, starts).paths <==> InClosure(s, starts, q)
    ensures NoDup(starts) ==> NoDup(Explored(s, starts).paths)
  {
    Untruncated(s, starts);
    forall q ensures q in Explored(s, starts).paths <==> InClosure(s, starts, q) {
      EmissionsExact(s, starts, q);
      if InClosure(s, starts, q) {
        var start, edges := InClosureWitness(s, starts, q);
        NoLongerWalk(s, starts, start, edges);
      }
    }
    if NoDup(starts) {
      EmissionsNoDup(s, starts);
    }
  }

  /** Whatever is cut short, every emitted path is in the bounded closure, and none is emitted twice. */
  lemma EmittedPathsSound(s: Search, starts: seq<string>)
    requires s.graph.UniqueMorphismIds()
    ensures forall q :: q in Explored(s, starts).paths ==> InBoundedClosure(s, starts, q)
    ensures NoDup(starts) ==> NoDup(Explored(s, starts).paths)
  {
    var full, run := FullRun(s, starts), CappedRun(s, starts);
    UpToIsPrefix(full, s.bounds.maxPaths);
    assert full == run + full[|run|..];
    ProjectionsAppend(run, full[|run|..]);
    forall q | q in Emissions(run) ensures InBoundedClosure(s, starts, q) {
      assert q in Emissions(full);
      EmissionsExact(s, starts, q);
    }
    if NoDup(starts) {
      EmissionsNoDup(s, starts);
      NoDupPrefix(Emissions(full), |Emissions(run)|);
      assert Emissions(full)[..|Emissions(run)|] == Emissions(run);
    }
  }

  /** No emitted path, of a truncated exploration or not, contains a DO edge. */
  lemma DoEdgesNeverTraversed(s: Search, starts: seq<string>, q: Path, m: Morphism)
    requires s.graph.UniqueMorphismIds()
    requires q in Explored(s, starts).paths && m in s.graph.morphisms && m.phase.Do?
    ensures m.morphismId !in q.morphismIds
  {
    EmittedPathsSound(s, starts);
    var start, edges := InClosureWitness(s, starts, q);
    PathOfShape(start, edges);
    LawfulEdges(s, start, edges);
    forall i | 0 <= i < |edges| ensures q.morphismIds[i] != m.morphismId {
      assert edges[i] in edges;
      if edges[i].morphismId == m.morphismId {
        SameId(s.graph.morphisms, edges[i], m);
      }
    }
  }

  /** MAX_PATHS is reported exactly when the bounded closure has more than `maxPaths` walks. */
  lemma HonestMaxPaths(s: Search, starts: seq<string>)
    requires s.graph.UniqueMorphismIds() && NoDup(starts)
    ensures MaxPaths in Explored(s, starts).truncationReasons <==>
            exists walks: set<Path> :: |walks| > s.bounds.maxPaths
                                       && forall q :: q in walks ==> InBoundedClosure(s, starts, q)
  {
    var all := Emissions(FullRun(s, starts));
    EmissionsNoDup(s, starts);
    SizeOfToSet(all);
    forall q ensures q in all <==> InBoundedClosure(s, starts, q) {
      EmissionsExact(s, starts, q);
    }
    if |all| > s.bounds.maxPaths {
      assert |ToSet(all)| > s.bounds.maxPaths;
    }
    if walks: set<Path> :| |walks| > s.bounds.maxPaths && forall q :: q in walks ==> InBoundedClosure(s, starts, q) {
      SubsetSize(walks, ToSet(all));
    }
  }

  /**
   Absent MAX_PATHS, MAX_DEPTH is reported exactly when some start or closure walk as long as the
   depth bound ends at an object with an outgoing edge.
   */
  lemma HonestMaxDepth(s: Search, starts: seq<string>)
    requires MaxPaths !in Explored(s, starts).truncationReasons
    ensures MaxDepth in Explored(s, starts).truncationReasons <==> exists start, edges :: GoesOn(s, starts, start, edges)
  {
    CapNotReached(FullRun(s, starts), s.bounds.maxPaths);
    DepthReachedExact(s, starts);
  }

  /** `p` is a start, taken as a path, or an emitted path. */
  ghost predicate StartOrEmitted(s: Search, starts: seq<string>, p: Path) {
    p in Roots(starts) || p in Explored(s, starts).paths
  }

  /**
   Frontier exactness: an untruncated exploration reports exactly the DO edges leaving the last
   object of a start or an emitted path, with the edge's own verdict, and each pair once.
   */
  lemma FrontierExactness(s: Search, starts: seq<string>)
    requires s.graph.UniqueMorphismIds() && !Explored(s, starts).truncated
    ensures forall f :: f in Explored(s, starts).irreversibleFrontier <==>
              exists p, e :: StartOrEmitted(s, starts, p) && e in s.graph.Outgoing(Last(p)) && e.phase.Do?
                             && f == FrontierEdge(p, e.morphismId, e.targetId, s.verdict(e).standing,
                                                  s.verdict(e).admitted, s.verdict(e).reason)
    ensures NoDup(starts) ==> NoDup(Explored(s, starts).irreversibleFrontier)
  {
    Untruncated(s, starts);
    if NoDup(starts) {
      CutsNoDup(s, starts);
    }
    forall f ensures f in Explored(s, starts).irreversibleFrontier <==>
              exists p, e :: StartOrEmitted(s, starts, p) && e in s.graph.Outgoing(Last(p)) && e.phase.Do?
                             && f == FrontierOf(p, e, s.verdict(e))
    {
      CutsExact(s, starts, f);
      if start, edges, e :| BoundedWalk(s, starts, start, edges) && |edges| < s.bounds.maxDepth
                            && CutsOff(s, start, edges, e, f) {
        PathOfShape(start, edges);
        WalkIsStartOrEmitted(s, starts, start, edges);
      }
      if p, e :| StartOrEmitted(s, starts, p) && e in s.graph.Outgoing(Last(p)) && e.phase.Do?
                 && f == FrontierOf(p, e, s.verdict(e)) {
        var start, edges := StartOrEmittedWalk(s, starts, p);
        PathOfShape(start, edges);
        DepthReachedExact(s, starts);
        PruningLosesNothing(s, start, edges);
        assert !GoesOn(s, starts, start, edges);
        assert CutsOff(s, start, edges, e, f);
      }
    }
  }

  lemma WalkIsStartOrEmitted(s: Search, starts: seq<string>, start: string, edges: seq<Morphism>)
    requires !Explored(s, starts).truncated && BoundedWalk(s, starts, start, edges)
    ensures StartOrEmitted(s, starts, PathOf(start, edges))
  {
    Untruncated(s, starts);
    if edges == [] {
      var i :| 0 <= i < |starts| && starts[i] == start;
      assert Roots(starts)[|starts| - 1 - i] == Root(start);
    } else {
      WalkInClosure(s, starts, start, edges);
      EmissionsExact(s, starts, PathOf(start, edges));
    }
  }

  lemma StartOrEmittedWalk(s: Search, starts: seq<string>, p: Path) returns (start: string, edges: seq<Morphism>)
    requires !Explored(s, starts).truncated && StartOrEmitted(s, starts, p)
    ensures BoundedWalk(s, starts, start, edges) && p == PathOf(start, edges)
  {
    Untruncated(s, starts);
    if p in Roots(starts) {
      var i :| 0 <= i < |starts| && Roots(starts)[i] == p;
      start, edges := starts[|starts| - 1 - i], [];
    } else {
      EmissionsExact(s, starts, p);
      start, edges := InClosureWitness(s, starts, p);
    }
  }

  /** A verdict on an edge, or the finding that going along it would exceed a bound. */
  ghost predicate Found(s: Search, edges: seq<Morphism>, e: Morphism, v: Evaluation) {
    || v == s.verdict(e)
    || (!e.phase.Do? && s.verdict(e).admitted && !TotalsWithin(edges + [e], s.bounds)
        && v == Evaluation(e.morphismId, Blocked, false, ExplorationBoundExceeded))
  }

  ghost predicate FoundBehind(s: Search, starts: seq<string>, start: string, edges: seq<Morphism>, e: Morphism, v: Evaluation) {
    && start in starts && ClosureWalk(s, start, edges)
    && e in s.graph.morphisms && e.sourceId == EndOf(start, edges) && Found(s, edges, e, v)
  }

  lemma EdgeFindings(s: Search, start: string, edges: seq<Morphism>, e: Morphism, v: Evaluation)
    ensures Evaluated(v) in EdgeEvents(s, PathOf(start, edges), e) <==> Found(s, edges, e, v)
  {
    TotalsAreBounded(start, edges + [e], s.bounds);
    WalkStep(s, start, edges, e);
    hide TotalsWithin;
    hide WithinBounds;
  }

  lemma FindingsSound(s: Search, starts: seq<string>, v: Evaluation) returns (start: string, edges: seq<Morphism>, e: Morphism)
    requires Evaluated(v) in FullRun(s, starts)
    ensures FoundBehind(s, starts, start, edges, e, v)
  {
    start, edges := EventSource(s, starts, Evaluated(v));
    PathOfShape(start, edges);
    PruningLosesNothing(s, start, edges);
    var p := PathOf(start, edges);
    var outgoing := s.graph.Outgoing(Last(p));
    var i := FlatMapSource(Along(s, p), outgoing, Evaluated(v));
    e := outgoing[i];
    assert e in outgoing;
    EdgeFindings(s, start, edges, e, v);
  }

  lemma FindingsComplete(s: Search, starts: seq<string>, start: string, edges: seq<Morphism>, e: Morphism, v: Evaluation)
    requires FoundBehind(s, starts, start, edges, e, v) && |edges| < s.bounds.maxDepth
    ensures Evaluated(v) in FullRun(s, starts)
  {
    PathOfShape(start, edges);
    PruningLosesNothing(s, start, edges);
    EdgeFindings(s, start, edges, e, v);
    var p := PathOf(start, edges);
    var outgoing := s.graph.Outgoing(Last(p));
    var i :| 0 <= i < |outgoing| && outgoing[i] == e;
    FlatMapTarget(Along(s, p), outgoing, i, Evaluated(v));
    EventTarget(s, starts, start, edges, Evaluated(v));
  }

  /**
   What is reported besides paths and frontier: an untruncated exploration reports, of every edge that
   leaves a start or a closure walk, its verdict, and where it is admitted and would exceed a bound, that;
   and it reports nothing else.
   */
  lemma EvaluationsExactness(s: Search, starts: seq<string>, v: Evaluation)
    requires !Explored(s, starts).truncated
    ensures v in Explored(s, starts).evaluations <==>
            exists start, edges, e :: FoundBehind(s, starts, start, edges, e, v)
  {
    Untruncated(s, starts);
    var full := FullRun(s, starts);
    if v in Evaluations(full) {
      var i := FlatMapSource(EvaluationOf, full, v);
      assert full[i] == Evaluated(v) && full[i] in full;
      var start, edges, e := FindingsSound(s, starts, v);
    }
    if start, edges, e :| FoundBehind(s, starts, start, edges, e, v) {
      PruningLosesNothing(s, start, edges);
      NoLongerWalk(s, starts, start, edges);
      DepthReachedExact(s, starts);
      assert !GoesOn(s, starts, start, edges);
      FindingsComplete(s, starts, start, edges, e, v);
      var i :| 0 <= i < |full| && full[i] == Evaluated(v);
      FlatMapTarget(EvaluationOf, full, i, v);
    }
  }

  /** A result names the graph and the starts it was asked for; it is truncated exactly when it gives reasons, in order. */
  lemma ResultHeader(s: Search, starts: seq<string>)
    ensures var r := Explored(s, starts);
            && r.graphDigest == s.graph && r.startIds == starts && r.paretoPathIds == ParetoPaths(r.paths)
            && (r.truncated <==> r.truncationReasons != [])
            && (r.truncationReasons == [] || r.truncationReasons == [MaxDepth] || r.truncationReasons == [MaxPaths]
                || r.truncationReasons == [MaxDepth, MaxPaths])
  {
    hide CappedRun;
    hide FullRun;
    hide ParetoPaths;
    assert [MaxDepth] + [] == [MaxDepth] && [] + [MaxPaths] == [MaxPaths] && [MaxDepth] + [MaxPaths] == [MaxDepth, MaxPaths];
  }
}
