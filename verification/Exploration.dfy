/**
 `explore_maximal_reversible` (`src/gymact/combinatorial.py`): the explicit-stack search of
 the reversible closure, proved against a description of the search as one stream of events.

 The paths popped from the stack form a preorder of the tree of admissible extensions; each
 popped path contributes its events; and a run is the longest part of that stream that holds
 at most `maxPaths` emissions. The theorems about closure, frontier and truncation are then
 lemmas about the stream.
 */
module Exploration {
  import opened Outcomes
  import opened Sequences
  import opened DepthFirst
  import opened Possibility

  /**
   What an exploration is given: a graph, the verdict on each edge, and the bounds. The search
   asks nothing more of a verdict than that it is a function of the edge.
   */
  datatype Search = Search(graph: PossibilityGraph, verdict: Morphism -> Evaluation, bounds: ExplorationBounds)

  /** The verdicts of `evaluate_morphism` under an admission context. */
  function SearchUnder(graph: PossibilityGraph, context: AdmissionContext, bounds: ExplorationBounds): (s: Search)
    ensures s.graph == graph && s.bounds == bounds
    ensures forall m :: s.verdict(m) == Evaluate(m, context)
  {
    Search(graph, m => Evaluate(m, context), bounds)
  }

  datatype Truncation = MaxDepth | MaxPaths

  datatype ExplorationResult = ExplorationResult(
    graphDigest: PossibilityGraph,
    startIds: seq<string>,
    paths: seq<Path>,
    paretoPathIds: seq<Path>,
    irreversibleFrontier: seq<FrontierEdge>,
    evaluations: seq<Evaluation>,
    truncated: bool,
    truncationReasons: seq<Truncation>)

  datatype ExplorationError = UnknownStart(id: string)

  // ---------------------------------------------------------------- paths

  function Root(id: string): Path {
    Path([id], [], NO_OBJECTIVES)
  }

  function Depth(p: Path): nat {
    |p.morphismIds|
  }

  function Extend(p: Path, e: Morphism): Path {
    Path(p.objectIds + [e.targetId], p.morphismIds + [e.morphismId], p.objectives.Compose(e.objectives))
  }

  /** The object a path ends at; every path the search builds has one. */
  function Last(p: Path): string {
    if p.objectIds == [] then "" else p.objectIds[|p.objectIds| - 1]
  }

  // ---------------------------------------------------------------- events

  datatype Event = Evaluated(evaluation: Evaluation) | Cut(edge: FrontierEdge) | Emitted(path: Path) | DepthReached

  function FrontierOf(p: Path, e: Morphism, v: Evaluation): FrontierEdge {
    FrontierEdge(p, e.morphismId, e.targetId, v.standing, v.admitted, v.reason)
  }

  function BoundExceeded(e: Morphism): Evaluation {
    Evaluation(e.morphismId, Blocked, false, ExplorationBoundExceeded)
  }

  /** A non-DO edge that admission accepts may be traversed. */
  predicate Traversable(s: Search, e: Morphism) {
    !e.phase.Do? && s.verdict(e).admitted
  }

  function EdgeEvents(s: Search, p: Path, e: Morphism): seq<Event> {
    var v := s.verdict(e);
    if e.phase.Do? then [Evaluated(v), Cut(FrontierOf(p, e, v))]
    else if !v.admitted then [Evaluated(v)]
    else if !WithinBounds(Extend(p, e).objectives, s.bounds) then [Evaluated(v), Evaluated(BoundExceeded(e))]
    else [Evaluated(v), Emitted(Extend(p, e))]
  }

  function Along(s: Search, p: Path): Morphism -> seq<Event> {
    (e: Morphism) => EdgeEvents(s, p, e)
  }

  /** What the search does when `p` is popped, up to the cap on the number of paths. */
  function PathEvents(s: Search, p: Path): seq<Event> {
    var outgoing := s.graph.Outgoing(Last(p));
    if Depth(p) >= s.bounds.maxDepth then (if outgoing != [] then [DepthReached] else [])
    else FlatMap(Along(s, p), outgoing)
  }

  function Popping(s: Search): Path -> seq<Event> {
    (p: Path) => PathEvents(s, p)
  }

  function EmittedPath(x: Event): seq<Path> {
    if x.Emitted? then [x.path] else []
  }

  function CutEdge(x: Event): seq<FrontierEdge> {
    if x.Cut? then [x.edge] else []
  }

  function EvaluationOf(x: Event): seq<Evaluation> {
    if x.Evaluated? then [x.evaluation] else []
  }

  function Emissions(events: seq<Event>): seq<Path> {
    FlatMap(EmittedPath, events)
  }

  function Cuts(events: seq<Event>): seq<FrontierEdge> {
    FlatMap(CutEdge, events)
  }

  function Evaluations(events: seq<Event>): seq<Evaluation> {
    FlatMap(EvaluationOf, events)
  }

  lemma ProjectionsAppend(a: seq<Event>, b: seq<Event>)
    ensures Emissions(a + b) == Emissions(a) + Emissions(b)
    ensures Cuts(a + b) == Cuts(a) + Cuts(b)
    ensures Evaluations(a + b) == Evaluations(a) + Evaluations(b)
  {
    FlatMapAppend(EmittedPath, a, b);
    FlatMapAppend(CutEdge, a, b);
    FlatMapAppend(EvaluationOf, a, b);
  }

  lemma ProjectionMembers(events: seq<Event>)
    ensures forall p :: p in Emissions(events) <==> Emitted(p) in events
    ensures forall f :: f in Cuts(events) <==> Cut(f) in events
  {
    forall p ensures p in Emissions(events) <==> Emitted(p) in events {
      if p in Emissions(events) {
        var i := FlatMapSource(EmittedPath, events, p);
      } else if Emitted(p) in events {
        var i :| 0 <= i < |events| && events[i] == Emitted(p);
        FlatMapTarget(EmittedPath, events, i, p);
      }
    }
    forall f ensures f in Cuts(events) <==> Cut(f) in events {
      if f in Cuts(events) {
        var i := FlatMapSource(CutEdge, events, f);
      } else if Cut(f) in events {
        var i :| 0 <= i < |events| && events[i] == Cut(f);
        FlatMapTarget(CutEdge, events, i, f);
      }
    }
  }

  lemma OneEvent(x: Event)
    ensures Emissions([x]) == EmittedPath(x)
    ensures Cuts([x]) == CutEdge(x)
    ensures Evaluations([x]) == EvaluationOf(x)
  {
    FlatMapOne(EmittedPath, x);
    FlatMapOne(CutEdge, x);
    FlatMapOne(EvaluationOf, x);
  }

  lemma TwoEvents(x: Event, y: Event)
    ensures Emissions([x, y]) == EmittedPath(x) + EmittedPath(y)
    ensures Cuts([x, y]) == CutEdge(x) + CutEdge(y)
    ensures Evaluations([x, y]) == EvaluationOf(x) + EvaluationOf(y)
  {
    OneEvent(x);
    OneEvent(y);
    ProjectionsAppend([x], [y]);
    assert [x, y] == [x] + [y];
  }

  /** What one edge adds to each of the lists the search fills. */
  lemma EdgeProjections(s: Search, p: Path, e: Morphism)
    ensures var events := EdgeEvents(s, p, e); var v := s.verdict(e);
            var inside := WithinBounds(Extend(p, e).objectives, s.bounds);
            && Emissions(events) == (if Traversable(s, e) && inside then [Extend(p, e)] else [])
            && Cuts(events) == (if e.phase.Do? then [FrontierOf(p, e, v)] else [])
            && Evaluations(events) == [v] + (if Traversable(s, e) && !inside then [BoundExceeded(e)] else [])
            && DepthReached !in events
  {
    var events := EdgeEvents(s, p, e);
    if |events| == 2 {
      TwoEvents(events[0], events[1]);
      assert events == [events[0], events[1]];
    } else {
      OneEvent(events[0]);
      assert events == [events[0]];
    }
  }

  // ---------------------------------------------------------------- the search tree

  function Children(s: Search, p: Path): seq<Path> {
    Emissions(PathEvents(s, p))
  }

  function Remaining(s: Search, p: Path): nat {
    if Depth(p) >= s.bounds.maxDepth then 0 else s.bounds.maxDepth - Depth(p)
  }

  /** The children of a path are its extensions by a traversable edge that stay within bounds. */
  lemma ChildrenExact(s: Search, p: Path)
    ensures forall c :: c in Children(s, p) <==>
              && Depth(p) < s.bounds.maxDepth
              && exists e :: && e in s.graph.Outgoing(Last(p)) && Traversable(s, e)
                             && c == Extend(p, e) && WithinBounds(c.objectives, s.bounds)
  {
    var outgoing := s.graph.Outgoing(Last(p));
    ProjectionMembers(PathEvents(s, p));
    forall c ensures c in Children(s, p) <==>
              && Depth(p) < s.bounds.maxDepth
              && exists e :: && e in outgoing && Traversable(s, e)
                             && c == Extend(p, e) && WithinBounds(c.objectives, s.bounds)
    {
      if Depth(p) < s.bounds.maxDepth {
        if c in Children(s, p) {
          var i := FlatMapSource(Along(s, p), outgoing, Emitted(c));
          assert outgoing[i] in outgoing && Traversable(s, outgoing[i]) && c == Extend(p, outgoing[i]);
        }
        if e :| e in outgoing && Traversable(s, e) && c == Extend(p, e) && WithinBounds(c.objectives, s.bounds) {
          var i :| 0 <= i < |outgoing| && outgoing[i] == e;
          FlatMapTarget(Along(s, p), outgoing, i, Emitted(c));
        }
      }
    }
  }

  ghost function SearchTree(s: Search): (t: Tree<Path>)
    ensures Ranked(t)
  {
    var t := Tree((p: Path) => Children(s, p), (p: Path) => Remaining(s, p));
    assert Ranked(t) by {
      forall p, c | c in t.children(p) ensures t.rank(c) < t.rank(p) {
        ChildrenExact(s, p);
        assert c in Children(s, p);
      }
    }
    t
  }

  // ---------------------------------------------------------------- the path cap

  /** The longest prefix of a stream with at most `cap` emissions. */
  ghost function UpTo(events: seq<Event>, cap: nat): seq<Event> {
    if events == [] then []
    else if !events[0].Emitted? then [events[0]] + UpTo(events[1..], cap)
    else if cap == 0 then []
    else [events[0]] + UpTo(events[1..], cap - 1)
  }

  lemma {:induction false} EmissionsCons(events: seq<Event>)
    requires events != []
    ensures Emissions(events) == (if events[0].Emitted? then [events[0].path] else []) + Emissions(events[1..])
  {
    OneEvent(events[0]);
    ProjectionsAppend([events[0]], events[1..]);
    assert events == [events[0]] + events[1..];
  }

  /** `done`, followed by an emission too many, is exactly what the cap lets through. */
  lemma {:induction false} CapReached(done: seq<Event>, rest: seq<Event>, cap: nat)
    requires |Emissions(done)| == cap
    requires rest != [] && rest[0].Emitted?
    ensures UpTo(done + rest, cap) == done
    ensures |Emissions(done + rest)| > cap
  {
    EmissionsCons(rest);
    ProjectionsAppend(done, rest);
    if done == [] {
      assert done + rest == rest;
    } else {
      EmissionsCons(done);
      assert (done + rest)[1..] == done[1..] + rest;
      CapReached(done[1..], rest, if done[0].Emitted? then cap - 1 else cap);
    }
  }

  lemma CapWithin(full: seq<Event>, a: seq<Event>, b: seq<Event>, x: Event, c: seq<Event>, d: seq<Event>, cap: nat)
    requires full == a + (b + [x] + c) + d && x.Emitted?
    requires |Emissions(a)| + |Emissions(b)| == cap
    ensures UpTo(full, cap) == a + b && |Emissions(full)| > cap
  {
    assert full == (a + b) + ([x] + (c + d));
    ProjectionsAppend(a, b);
    CapReached(a + b, [x] + (c + d), cap);
  }

  lemma {:induction false} CapNotReached(events: seq<Event>, cap: nat)
    requires |Emissions(events)| <= cap
    ensures UpTo(events, cap) == events
  {
    if events != [] {
      EmissionsCons(events);
      CapNotReached(events[1..], if events[0].Emitted? then cap - 1 else cap);
    }
  }

  lemma {:induction false} UpToIsPrefix(events: seq<Event>, cap: nat)
    ensures UpTo(events, cap) <= events
    ensures |Emissions(events)| > cap ==> |Emissions(UpTo(events, cap))| == cap
  {
    if events != [] {
      EmissionsCons(events);
      if !events[0].Emitted? || cap > 0 {
        var rest := if events[0].Emitted? then cap - 1 else cap;
        UpToIsPrefix(events[1..], rest);
        var u := UpTo(events, cap);
        EmissionsCons(u);
        assert u[1..] == UpTo(events[1..], rest);
      }
    }
  }

  lemma {:induction false} UpToGrows(events: seq<Event>, a: nat, b: nat)
    requires a <= b
    ensures UpTo(events, a) <= UpTo(events, b)
  {
    if events != [] && (!events[0].Emitted? || a > 0) {
      UpToGrows(events[1..], if events[0].Emitted? then a - 1 else a, if events[0].Emitted? then b - 1 else b);
    }
  }

  // ---------------------------------------------------------------- the specification of a run

  function Roots(ids: seq<string>): (roots: seq<Path>)
    ensures |roots| == |ids| && forall i :: 0 <= i < |ids| ==> roots[i] == Root(ids[|ids| - 1 - i])
  {
    seq(|ids|, i requires 0 <= i < |ids| => Root(ids[|ids| - 1 - i]))
  }

  ghost function Visited(s: Search, starts: seq<string>): seq<Path> {
    VisitStack(SearchTree(s), Roots(starts))
  }

  /** Everything the search would do without a cap on the number of paths. */
  ghost function FullRun(s: Search, starts: seq<string>): seq<Event> {
    FlatMap(Popping(s), Visited(s, starts))
  }

  /** What the search does do. */
  ghost function CappedRun(s: Search, starts: seq<string>): seq<Event> {
    UpTo(FullRun(s, starts), s.bounds.maxPaths)
  }

  predicate Dominates(left: Path, right: Path) {
    var l, r := left.objectives, right.objectives;
    && l.monetaryCost <= r.monetaryCost
    && l.wallTime <= r.wallTime
    && l.computeUnits <= r.computeUnits
    && l.humanInterventions <= r.humanInterventions
    && l.riskScore <= r.riskScore
    && l.verificationConfidence >= r.verificationConfidence
    && l.expectedValue >= r.expectedValue
    && (|| l.monetaryCost < r.monetaryCost
        || l.wallTime < r.wallTime
        || l.computeUnits < r.computeUnits
        || l.humanInterventions < r.humanInterventions
        || l.riskScore < r.riskScore
        || l.verificationConfidence > r.verificationConfidence
        || l.expectedValue > r.expectedValue)
  }

  /** The members of `some` that no member of `all`, at another position, dominates. */
  function Undominated(some: seq<Path>, all: seq<Path>): seq<Path> {
    if some == [] then []
    else Undominated(some[..|some| - 1], all) +
         (if exists q :: q in all && Dominates(q, some[|some| - 1]) then [] else [some[|some| - 1]])
  }

  function ParetoPaths(paths: seq<Path>): seq<Path> {
    Undominated(paths, paths)
  }

  function Reasons(depth: bool, paths: bool): seq<Truncation> {
    (if depth then [MaxDepth] else []) + (if paths then [MaxPaths] else [])
  }

  ghost function Explored(s: Search, starts: seq<string>): ExplorationResult {
    var run := CappedRun(s, starts);
    var capped := |Emissions(FullRun(s, starts))| > s.bounds.maxPaths;
    ExplorationResult(s.graph, starts, Emissions(run), ParetoPaths(Emissions(run)), Cuts(run),
                      Evaluations(run), DepthReached in run || capped, Reasons(DepthReached in run, capped))
  }

  function WithMaxPaths(s: Search, maxPaths: nat): Search {
    s.(bounds := s.bounds.(maxPaths := maxPaths))
  }

  lemma EventsIgnoreTheCap(s: Search, n: nat, p: Path)
    ensures PathEvents(WithMaxPaths(s, n), p) == PathEvents(s, p)
  {
    var outgoing := s.graph.Outgoing(Last(p));
    forall e | e in outgoing ensures Along(WithMaxPaths(s, n), p)(e) == Along(s, p)(e) {
    }
    FlatMapAgrees(Along(WithMaxPaths(s, n), p), Along(s, p), outgoing);
  }

  lemma FullRunIgnoresTheCap(s: Search, starts: seq<string>, n: nat)
    ensures FullRun(WithMaxPaths(s, n), starts) == FullRun(s, starts)
  {
    var t := WithMaxPaths(s, n);
    forall p ensures Popping(t)(p) == Popping(s)(p) && SearchTree(t).children(p) == SearchTree(s).children(p) {
      EventsIgnoreTheCap(s, n, p);
    }
    SameStack(SearchTree(t), SearchTree(s), Roots(starts));
    FlatMapAgrees(Popping(t), Popping(s), Visited(s, starts));
  }

  /**
   Raising `maxPaths` only extends what a search returns: paths, frontier and evaluations are prefixes
   of those under the higher cap; and once a cap is not reported as reached, a higher one changes nothing.
   */
  lemma RaisingMaxPathsAppends(s: Search, starts: seq<string>, n: nat)
    requires s.bounds.maxPaths <= n
    ensures var low, high := Explored(s, starts), Explored(WithMaxPaths(s, n), starts);
            && low.paths <= high.paths && low.irreversibleFrontier <= high.irreversibleFrontier
            && low.evaluations <= high.evaluations
            && (MaxPaths !in low.truncationReasons ==> high == low)
  {
    var full, m := FullRun(s, starts), s.bounds.maxPaths;
    FullRunIgnoresTheCap(s, starts, n);
    hide FullRun;
    UpToGrows(full, m, n);
    var low, high := UpTo(full, m), UpTo(full, n);
    assert high == low + high[|low|..];
    ProjectionsAppend(low, high[|low|..]);
    if |Emissions(full)| <= m {
      CapNotReached(full, m);
      CapNotReached(full, n);
    }
  }

  predicate StartsKnown(g: PossibilityGraph, starts: seq<string>) {
    forall id :: id in starts ==> g.HasObject(id)
  }

  // ---------------------------------------------------------------- the search itself

  /** `popped` has been searched, giving the events `done`; `stack` holds what is left to search. */
  ghost predicate Progress(s: Search, starts: seq<string>, popped: seq<Path>, stack: seq<Path>, done: seq<Event>) {
    && done == FlatMap(Popping(s), popped)
    && popped + VisitStack(SearchTree(s), stack) == Visited(s, starts)
  }

  /** The lists the search fills hold what `done` says. */
  ghost predicate Tally(done: seq<Event>, emitted: seq<Path>, frontier: seq<FrontierEdge>,
                        evaluations: seq<Evaluation>) {
    emitted == Emissions(done) && frontier == Cuts(done) && evaluations == Evaluations(done)
  }

  lemma TallyAppend(done: seq<Event>, events: seq<Event>, emitted: seq<Path>, frontier: seq<FrontierEdge>,
                    evaluations: seq<Evaluation>)
    requires Tally(done, emitted, frontier, evaluations)
    ensures Tally(done + events, emitted + Emissions(events), frontier + Cuts(events),
                  evaluations + Evaluations(events))
  {
    ProjectionsAppend(done, events);
  }

  /** Popping the top of the stack and pushing its children is progress. */
  lemma ProgressStep(s: Search, starts: seq<string>, popped: seq<Path>, rest: seq<Path>, path: Path, done: seq<Event>)
    requires Progress(s, starts, popped, rest + [path], done)
    ensures Progress(s, starts, popped + [path], rest + Children(s, path), done + PathEvents(s, path))
  {
    var t, f := SearchTree(s), Popping(s);
    PopVisits(t, rest, path);
    AppendAssociative(popped, [path], VisitStack(t, rest + t.children(path)));
    FlatMapSnoc(f, popped, path);
  }

  /** Edge `i` of `path` is one that emits a path. */
  ghost predicate EmitsAt(s: Search, path: Path, i: nat) {
    var outgoing := s.graph.Outgoing(Last(path));
    && Depth(path) < s.bounds.maxDepth
    && i < |outgoing|
    && Traversable(s, outgoing[i])
    && WithinBounds(Extend(path, outgoing[i]).objectives, s.bounds)
  }

  /** The events of `path` before edge `i` emits, when it does. */
  ghost function EventsBefore(s: Search, path: Path, i: nat): seq<Event>
    requires EmitsAt(s, path, i)
  {
    var outgoing := s.graph.Outgoing(Last(path));
    FlatMap(Along(s, path), outgoing[..i]) + [Evaluated(s.verdict(outgoing[i]))]
  }

  /** Where the cap cuts the full run when edge `i` of `path` would emit one path too many. */
  lemma CappedHere(s: Search, starts: seq<string>, popped: seq<Path>, rest: seq<Path>, path: Path,
                   done: seq<Event>, i: nat)
    requires Progress(s, starts, popped, rest + [path], done) && EmitsAt(s, path, i)
    requires |Emissions(done)| + |Emissions(EventsBefore(s, path, i))| == s.bounds.maxPaths
    ensures CappedRun(s, starts) == done + EventsBefore(s, path, i)
    ensures |Emissions(FullRun(s, starts))| > s.bounds.maxPaths
  {
    var more := EmissionSplits(s, path, i);
    var after := FullRunSplits(s, starts, popped, rest, path, done);
    CapWithin(FullRun(s, starts), done, EventsBefore(s, path, i),
              Emitted(Extend(path, s.graph.Outgoing(Last(path))[i])), more, after, s.bounds.maxPaths);
  }

  lemma FullRunSplits(s: Search, starts: seq<string>, popped: seq<Path>, rest: seq<Path>, path: Path, done: seq<Event>)
    returns (after: seq<Event>)
    requires Progress(s, starts, popped, rest + [path], done)
    ensures FullRun(s, starts) == done + PathEvents(s, path) + after
  {
    ProgressStep(s, starts, popped, rest, path, done);
    var remaining := VisitStack(SearchTree(s), rest + Children(s, path));
    FlatMapAppend(Popping(s), popped + [path], remaining);
    after := FlatMap(Popping(s), remaining);
  }

  lemma EmissionSplits(s: Search, path: Path, i: nat) returns (more: seq<Event>)
    requires EmitsAt(s, path, i)
    ensures PathEvents(s, path) ==
            EventsBefore(s, path, i) + [Emitted(Extend(path, s.graph.Outgoing(Last(path))[i]))] + more
  {
    var outgoing := s.graph.Outgoing(Last(path));
    more := FlatMapSplit(Along(s, path), outgoing, i);
    var e := outgoing[i];
    assert Along(s, path)(e) == [Evaluated(s.verdict(e))] + [Emitted(Extend(path, e))];
  }

  /** One edge's events, appended to those before it. */
  lemma EdgeStep(s: Search, path: Path, e: Morphism, events: seq<Event>, next: seq<Event>)
    requires next == events + EdgeEvents(s, path, e)
    ensures var inside := WithinBounds(Extend(path, e).objectives, s.bounds);
            && Emissions(next) == Emissions(events) + (if Traversable(s, e) && inside then [Extend(path, e)] else [])
            && Cuts(next) == Cuts(events) + (if e.phase.Do? then [FrontierOf(path, e, s.verdict(e))] else [])
            && Evaluations(next) == Evaluations(events) + ([s.verdict(e)]
                                    + (if Traversable(s, e) && !inside then [BoundExceeded(e)] else []))
    ensures DepthReached in next ==> DepthReached in events
  {
    EdgeProjections(s, path, e);
    ProjectionsAppend(events, EdgeEvents(s, path, e));
  }

  lemma StopStep(events: seq<Event>, v: Evaluation, before: seq<Event>)
    requires before == events + [Evaluated(v)]
    ensures Emissions(before) == Emissions(events) && Cuts(before) == Cuts(events)
    ensures Evaluations(before) == Evaluations(events) + [v]
    ensures DepthReached in before ==> DepthReached in events
  {
    OneEvent(Evaluated(v));
    ProjectionsAppend(events, [Evaluated(v)]);
  }

  /**
   The inner loop over the edges leaving one popped path, when `count` paths have been emitted
   before. It returns what it appends to the search's lists; the paths it emits are also pushed.
   When the cap is met, `stop` is the edge that would have emitted one path too many.
   */
  method Expand(s: Search, path: Path, count: nat)
    returns (emitted: seq<Path>, frontier: seq<FrontierEdge>, evaluations: seq<Evaluation>, capped: bool,
             ghost events: seq<Event>, ghost stop: nat)
    requires Depth(path) < s.bounds.maxDepth && count <= s.bounds.maxPaths
    ensures !capped ==> events == PathEvents(s, path)
    ensures capped ==> EmitsAt(s, path, stop) && events == EventsBefore(s, path, stop)
    ensures capped ==> count + |emitted| == s.bounds.maxPaths
    ensures emitted == Emissions(events) && frontier == Cuts(events) && evaluations == Evaluations(events)
    ensures count + |emitted| <= s.bounds.maxPaths
    ensures DepthReached !in events
  {
    var outgoing := s.graph.Outgoing(Last(path));
    emitted, frontier, evaluations, capped := [], [], [], false;
    events, stop := [], 0;
    var i := 0;
    while i < |outgoing|
      invariant 0 <= i <= |outgoing| && !capped
      invariant events == FlatMap(Along(s, path), outgoing[..i])
      invariant emitted == Emissions(events) && frontier == Cuts(events) && evaluations == Evaluations(events)
      invariant count + |emitted| <= s.bounds.maxPaths
      invariant DepthReached !in events
    {
      var edge := outgoing[i];
      var evaluation := s.verdict(edge);
      ghost var next := FlatMap(Along(s, path), outgoing[..i + 1]);
      ghost var _ := FlatMapSplit(Along(s, path), outgoing, i);
      EdgeStep(s, path, edge, events, next);
      ghost var prior := evaluations;
      evaluations := evaluations + [evaluation];
      if edge.phase.Do? {
        frontier := frontier + [FrontierOf(path, edge, evaluation)];
      } else if evaluation.admitted {
        var longer := Extend(path, edge);
        if !WithinBounds(longer.objectives, s.bounds) {
          evaluations := evaluations + [BoundExceeded(edge)];
          assert evaluations == prior + ([evaluation] + [BoundExceeded(edge)]);
        } else if count + |emitted| >= s.bounds.maxPaths {
          StopStep(events, evaluation, EventsBefore(s, path, i));
          events, capped, stop := EventsBefore(s, path, i), true, i;
          return;
        } else {
          emitted := emitted + [longer];
        }
      }
      events := next;
      i := i + 1;
    }
    assert outgoing[..i] == outgoing;
  }

  method CheckStarts(g: PossibilityGraph, starts: seq<string>) returns (unknown: Option<string>)
    ensures unknown.None? <==> StartsKnown(g, starts)
    ensures unknown.Some? ==> unknown.value in starts && !g.HasObject(unknown.value)
  {
    for i := 0 to |starts|
      invariant forall k :: 0 <= k < i ==> g.HasObject(starts[k])
    {
      if !g.HasObject(starts[i]) {
        return Some(starts[i]);
      }
    }
    return None;
  }

  /**
   The bounded reversible closure of `starts`. `pops` counts the paths taken off the stack:
   the search ends after finitely many of them even on a cyclic graph.
   */
  method Explore(s: Search, starts: seq<string>)
    returns (r: Result<ExplorationResult, ExplorationError>, ghost pops: nat)
    ensures r.Success? <==> StartsKnown(s.graph, starts)
    ensures r.Success? ==> r.value == Explored(s, starts)
    ensures r.Failure? ==> r.error.id in starts && !s.graph.HasObject(r.error.id)
    ensures pops <= |starts| + s.bounds.maxPaths
  {
    pops := 0;
    var unknown := CheckStarts(s.graph, starts);
    if unknown.Some? {
      return Failure(UnknownStart(unknown.value)), pops;
    }
    var stack := Roots(starts);
    var emitted: seq<Path>, frontier: seq<FrontierEdge>, evaluations: seq<Evaluation> := [], [], [];
    var depthReason, pathsReason := false, false;
    ghost var popped: seq<Path>, done: seq<Event> := [], [];
    while stack != []
      invariant Tally(done, emitted, frontier, evaluations)
      invariant depthReason <==> DepthReached in done
      invariant |emitted| <= s.bounds.maxPaths
      invariant !pathsReason ==> Progress(s, starts, popped, stack, done)
      invariant !pathsReason ==> pops + |stack| == |starts| + |emitted|
      invariant pathsReason ==> stack == [] && done == CappedRun(s, starts)
      invariant pathsReason ==> |Emissions(FullRun(s, starts))| > s.bounds.maxPaths
      invariant pops <= |starts| + s.bounds.maxPaths
      decreases |starts| + s.bounds.maxPaths - pops
    {
      var path := stack[|stack| - 1];
      FrontAndLast(stack);
      stack := stack[..|stack| - 1];
      ghost var rest, before := stack, done;
      ProgressStep(s, starts, popped, rest, path, done);
      TallyAppend(done, PathEvents(s, path), emitted, frontier, evaluations);
      pops := pops + 1;
      if Depth(path) >= s.bounds.maxDepth {
        if s.graph.Outgoing(Last(path)) != [] {
          depthReason := true;
          OneEvent(DepthReached);
        }
        AtDepth(s, path);
        assert rest + [] == rest;
        popped, done := popped + [path], done + PathEvents(s, path);
      } else {
        var found, cuts, verdicts;
        ghost var events, stop;
        found, cuts, verdicts, pathsReason, events, stop := Expand(s, path, |emitted|);
        TallyAppend(done, events, emitted, frontier, evaluations);
        if pathsReason {
          CappedHere(s, starts, popped, rest, path, before, stop);
        }
        stack := if pathsReason then [] else stack + found;
        emitted, frontier, evaluations := emitted + found, frontier + cuts, evaluations + verdicts;
        popped, done := popped + [path], before + events;
      }
    }
    if !pathsReason {
      assert popped + [] == popped;
      CapNotReached(FullRun(s, starts), s.bounds.maxPaths);
    }
    r := Success(ExplorationResult(s.graph, starts, emitted, ParetoPaths(emitted), frontier, evaluations,
                                   depthReason || pathsReason, Reasons(depthReason, pathsReason)));
  }

  lemma AtDepth(s: Search, p: Path)
    requires Depth(p) >= s.bounds.maxDepth
    ensures var events := PathEvents(s, p);
            && Emissions(events) == [] && Cuts(events) == [] && Evaluations(events) == []
            && (DepthReached in events <==> s.graph.Outgoing(Last(p)) != [])
  {
    OneEvent(DepthReached);
  }
}
