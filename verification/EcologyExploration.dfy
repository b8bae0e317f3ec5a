/** Exploring a manufactured ecology finds exactly what manufacturing it announced. */
module EcologyExploration {
  import opened Sequences
  import opened Possibility
  import opened Exploration
  import opened Closure
  import opened Ecology
  import opened EcologyWalks
  import opened EcologyLaws
  import CartesianProduct

  // ---------------------------------------------------------------- the closure of an ecology

  /** The number of walks with at least one edge: one layer deep, two layers deep, and so on. */
  function ClosureSize(dims: seq<Dimension>): nat {
    if dims == [] then 0 else ClosureSize(dims[..|dims| - 1]) + PathCardinality(dims)
  }

  ghost predicate NoCostBounds(b: ExplorationBounds) {
    && b.maxMonetaryCost.None? && b.maxWallTime.None? && b.maxComputeUnits.None?
    && b.maxHumanInterventions.None? && b.maxRiskScore.None?
  }

  /** A search of the ecology that admits the edges of its layers and puts no bound on costs. */
  ghost predicate Unhindered(s: Search, start: PossibilityObject, dims: seq<Dimension>, options: seq<IrreversibleOption>) {
    && WellFormed(dims, options) && DistinctIds(start, dims) && EcologyOf(start, dims, options).Success?
    && s.graph == EcologyOf(start, dims, options).value.graph
    && (forall m :: m in s.graph.morphisms && !m.phase.Do? ==> s.verdict(m).admitted)
    && NoCostBounds(s.bounds)
  }

  lemma LawfulMeansReversible(s: Search, start: PossibilityObject, dims: seq<Dimension>, options: seq<IrreversibleOption>,
                              edges: seq<Morphism>)
    requires Unhindered(s, start, dims, options)
    ensures LawfulWalk(s, start.objectId, edges) <==> ReversibleWalk(s.graph, start, edges)
  {
    hide EcologyOf;
    hide LawfulWalk;
    PruningLosesNothing(s, start.objectId, edges);
  }

  /** The walks that take a choice through some dimensions, each once. */
  lemma ChosenWalks(start: PossibilityObject, dims: seq<Dimension>, options: seq<IrreversibleOption>)
    returns (walks: seq<seq<Morphism>>)
    requires WellFormed(dims, options)
    ensures NoDup(walks) && |walks| == PathCardinality(dims)
    ensures forall edges :: edges in walks <==> exists choice :: Choice(dims, choice) && edges == WalkOf(start, dims, choice)
  {
    hide CartesianProduct.Product;
    hide WalkOf;
    hide Choice;
    var choices := CartesianProduct.Product(AlternativeIds(dims));
    forall c ensures Choice(dims, c) <==> c in choices {
      ChoicesAreCombinations(dims, c);
    }
    walks := WalkList(start, dims, choices);
    PathCardinalityIsProduct(dims);
    AlternativeIdsNoDup(dims, options);
    hide AlternativeIds;
    CartesianProduct.ProductNoDup(AlternativeIds(dims));
    forall i, j | 0 <= i < j < |walks| ensures walks[i] != walks[j] {
      if walks[i] == walks[j] {
        WalkOfInjective(start, dims, choices[i], choices[j]);
      }
    }
    forall edges | exists choice :: Choice(dims, choice) && edges == WalkOf(start, dims, choice) ensures edges in walks {
      var choice :| Choice(dims, choice) && edges == WalkOf(start, dims, choice);
      var i :| 0 <= i < |choices| && choices[i] == choice;
      assert walks[i] == edges;
    }
    forall edges | edges in walks ensures exists choice :: Choice(dims, choice) && edges == WalkOf(start, dims, choice) {
      var i :| 0 <= i < |walks| && walks[i] == edges;
    }
  }

  /** The reversible walks of exactly `n` edges, each once. */
  lemma WalksOfLength(start: PossibilityObject, dims: seq<Dimension>, options: seq<IrreversibleOption>, n: nat)
    returns (walks: seq<seq<Morphism>>)
    requires WellFormed(dims, options) && DistinctIds(start, dims) && EcologyOf(start, dims, options).Success?
    requires n <= |dims|
    ensures NoDup(walks) && |walks| == PathCardinality(dims[..n])
    ensures var g := EcologyOf(start, dims, options).value.graph;
            forall edges :: edges in walks <==> ReversibleWalk(g, start, edges) && |edges| == n
  {
    hide EcologyGraph;
    hide WalkOf;
    hide ReversibleWalk;
    hide DistinctIds;
    hide Choice;
    var g, first := EcologyOf(start, dims, options).value.graph, dims[..n];
    assert WellFormed(first, options) by {
      assert forall d :: d in first ==> d in dims;
    }
    hide WellFormed;
    walks := ChosenWalks(start, first, options);
    forall edges | edges in walks ensures ReversibleWalk(g, start, edges) && |edges| == n {
      var choice :| Choice(first, choice) && edges == WalkOf(start, first, choice);
      ChoiceIsWalk(start, dims, options, first, choice);
      WalkOfShape(start, first, choice);
    }
    forall edges | ReversibleWalk(g, start, edges) && |edges| == n ensures edges in walks {
      var choice := WalkIsChoice(start, dims, options, edges);
    }
  }

  /** The reversible walks of one to `n` edges, each once. */
  lemma {:induction false} WalksUpTo(start: PossibilityObject, dims: seq<Dimension>, options: seq<IrreversibleOption>, n: nat)
    returns (walks: seq<seq<Morphism>>)
    requires WellFormed(dims, options) && DistinctIds(start, dims) && EcologyOf(start, dims, options).Success?
    requires n <= |dims|
    ensures NoDup(walks) && |walks| == ClosureSize(dims[..n])
    ensures var g := EcologyOf(start, dims, options).value.graph;
            forall edges :: edges in walks <==> ReversibleWalk(g, start, edges) && 1 <= |edges| <= n
  {
    hide EcologyGraph;
    hide ReversibleWalk;
    hide WellFormed;
    hide DistinctIds;
    if n == 0 {
      walks := [];
    } else {
      assert dims[..n][..n - 1] == dims[..n - 1];
      var shorter := WalksUpTo(start, dims, options, n - 1);
      var longest := WalksOfLength(start, dims, options, n);
      NoDupConcat(shorter, longest);
      walks := shorter + longest;
    }
  }

  function PathFrom(start: string): seq<Morphism> -> Path {
    (edges: seq<Morphism>) => PathAlong(start, edges)
  }

  function PathAlong(start: string, edges: seq<Morphism>): (p: Path)
    ensures p == PathOf(start, edges)
  {
    if edges == [] then Root(start)
    else Extend(PathAlong(start, edges[..|edges| - 1]), edges[|edges| - 1])
  }

  /** A duplicate-free sequence with the members of another is as long. */
  lemma SameMembersSameLength<T>(a: seq<T>, b: seq<T>)
    requires NoDup(a) && NoDup(b) && forall x :: x in a <==> x in b
    ensures |a| == |b|
  {
    SizeOfToSet(a);
    SizeOfToSet(b);
    assert ToSet(a) == ToSet(b);
  }

  lemma PathsOfWalks(s: Search, start: PossibilityObject, walks: seq<seq<Morphism>>)
    requires s.graph.UniqueMorphismIds() && NoDup(walks)
    requires forall edges :: edges in walks ==> LawfulWalk(s, start.objectId, edges)
    ensures NoDup(Map(PathFrom(start.objectId), walks))
  {
    hide LawfulWalk;
    var f := PathFrom(start.objectId);
    forall a, b | a in walks && b in walks && f(a) == f(b) ensures a == b {
      PathDeterminesWalk(s, start.objectId, a, start.objectId, b);
    }
    MapNoDup(f, walks);
  }

  /** The closure of an unhindered search, each path once. */
  lemma ClosurePaths(s: Search, start: PossibilityObject, dims: seq<Dimension>, options: seq<IrreversibleOption>)
    returns (paths: seq<Path>)
    requires Unhindered(s, start, dims, options) && s.graph.UniqueMorphismIds()
    ensures NoDup(paths) && |paths| == ClosureSize(dims)
    ensures forall q :: q in paths <==> InClosure(s, [start.objectId], q)
    ensures forall q :: q in paths ==> Depth(q) <= |dims|
  {
    hide EcologyOf;
    hide LawfulWalk;
    hide ReversibleWalk;
    hide PathFrom;
    var walks := WalksUpTo(start, dims, options, |dims|);
    assert dims[..|dims|] == dims;
    forall edges ensures LawfulWalk(s, start.objectId, edges) <==> ReversibleWalk(s.graph, start, edges) {
      LawfulMeansReversible(s, start, dims, options, edges);
    }
    PathsOfWalks(s, start, walks);
    paths := Map(PathFrom(start.objectId), walks);
    forall q ensures q in paths <==> InClosure(s, [start.objectId], q)
             ensures q in paths ==> Depth(q) <= |dims|
    {
      ClosurePath(s, start, dims, options, walks, q);
    }
  }

  lemma ClosurePath(s: Search, start: PossibilityObject, dims: seq<Dimension>, options: seq<IrreversibleOption>,
                    walks: seq<seq<Morphism>>, q: Path)
    requires Unhindered(s, start, dims, options)
    requires forall edges :: edges in walks <==> LawfulWalk(s, start.objectId, edges) && 1 <= |edges| <= |dims|
    ensures q in Map(PathFrom(start.objectId), walks) <==> InClosure(s, [start.objectId], q)
    ensures q in Map(PathFrom(start.objectId), walks) ==> Depth(q) <= |dims|
  {
    hide LawfulWalk;
    hide PathAlong;
    hide InClosure;
    var paths := Map(PathFrom(start.objectId), walks);
    if InClosure(s, [start.objectId], q) {
      var from, edges := InClosureWitness(s, [start.objectId], q);
      ClosureWalkLength(s, start, dims, options, edges);
      hide Unhindered;
      assert edges in walks;
      var i :| 0 <= i < |walks| && walks[i] == edges;
      assert paths[i] == q;
    }
    hide Unhindered;
    if q in paths {
      var i :| 0 <= i < |paths| && paths[i] == q;
      assert walks[i] in walks;
      WalkInClosure(s, [start.objectId], start.objectId, walks[i]);
    }
  }

  lemma ClosureWalkLength(s: Search, start: PossibilityObject, dims: seq<Dimension>, options: seq<IrreversibleOption>,
                          edges: seq<Morphism>)
    requires Unhindered(s, start, dims, options) && LawfulWalk(s, start.objectId, edges)
    ensures |edges| <= |dims|
  {
    hide LawfulWalk;
    hide EcologyOf;
    LawfulMeansReversible(s, start, dims, options, edges);
    hide ReversibleWalk;
    var choice := EcologyChoice(start, dims, options, edges);
  }

  lemma EcologyChoice(start: PossibilityObject, dims: seq<Dimension>, options: seq<IrreversibleOption>, edges: seq<Morphism>)
    returns (choice: seq<string>)
    requires WellFormed(dims, options) && DistinctIds(start, dims) && EcologyOf(start, dims, options).Success?
    requires ReversibleWalk(EcologyOf(start, dims, options).value.graph, start, edges)
    ensures |edges| <= |dims| && Choice(dims[..|edges|], choice) && edges == WalkOf(start, dims[..|edges|], choice)
  {
    choice := WalkIsChoice(start, dims, options, edges);
  }

  // ---------------------------------------------------------------- the exploration

  /** Deep and wide enough: deeper than the layers, and no fewer paths than the closure has. */
  ghost predicate Roomy(b: ExplorationBounds, dims: seq<Dimension>) {
    b.maxDepth > |dims| && b.maxPaths >= ClosureSize(dims)
  }

  lemma ExplorationIsComplete(s: Search, start: PossibilityObject, dims: seq<Dimension>, options: seq<IrreversibleOption>)
    requires Unhindered(s, start, dims, options) && s.graph.UniqueMorphismIds() && Roomy(s.bounds, dims)
    ensures !Explored(s, [start.objectId]).truncated
  {
    hide EcologyOf;
    hide LawfulWalk;
    hide ClosureWalk;
    hide InClosure;
    ReasonsAre(s, [start.objectId]);
    hide Explored;
    var starts := [start.objectId];
    var all := ClosurePaths(s, start, dims, options);
    HonestMaxPaths(s, starts);
    if walks: set<Path> :| |walks| > s.bounds.maxPaths && forall q :: q in walks ==> InBoundedClosure(s, starts, q) {
      SizeOfToSet(all);
      SubsetSize(walks, ToSet(all));
    }
    if MaxPaths !in Explored(s, starts).truncationReasons {
      HonestMaxDepth(s, starts);
      if from, edges :| GoesOn(s, starts, from, edges) {
        PruningLosesNothing(s, from, edges);
        ClosureWalkLength(s, start, dims, options, edges);
      }
    }
  }

  lemma ReasonsAre(s: Search, starts: seq<string>)
    ensures var r := Explored(s, starts);
            r.truncated <==> MaxPaths in r.truncationReasons || MaxDepth in r.truncationReasons
  {
  }

  /** Of the emitted paths, those through all layers. */
  lemma FullLengthPaths(s: Search, start: PossibilityObject, dims: seq<Dimension>, options: seq<IrreversibleOption>)
    returns (full: set<Path>)
    requires Unhindered(s, start, dims, options) && s.graph.UniqueMorphismIds() && Roomy(s.bounds, dims) && dims != []
    ensures |full| == PathCardinality(dims)
    ensures forall q :: q in full <==> q in Explored(s, [start.objectId]).paths && Depth(q) == |dims|
  {
    hide EcologyOf;
    hide LawfulWalk;
    hide ReversibleWalk;
    hide Explored;
    var starts, f := [start.objectId], PathFrom(start.objectId);
    ExplorationIsComplete(s, start, dims, options);
    ClosureExactness(s, starts);
    var walks := WalksOfLength(start, dims, options, |dims|);
    assert dims[..|dims|] == dims;
    forall edges ensures LawfulWalk(s, start.objectId, edges) <==> ReversibleWalk(s.graph, start, edges) {
      LawfulMeansReversible(s, start, dims, options, edges);
    }
    PathsOfWalks(s, start, walks);
    var paths := Map(f, walks);
    SizeOfToSet(paths);
    full := ToSet(paths);
    forall q ensures q in full <==> InClosure(s, starts, q) && Depth(q) == |dims| {
      if q in paths {
        var i :| 0 <= i < |paths| && paths[i] == q;
        assert walks[i] in walks;
        WalkInClosure(s, starts, start.objectId, walks[i]);
      }
      if InClosure(s, starts, q) && Depth(q) == |dims| {
        var from, edges := InClosureWitness(s, starts, q);
        var i :| 0 <= i < |walks| && walks[i] == edges;
        assert paths[i] == q;
      }
    }
  }

  // ---------------------------------------------------------------- the frontier

  function EntryOf(s: Search, start: string): ((seq<Morphism>, Morphism)) -> FrontierEdge {
    (pair: (seq<Morphism>, Morphism)) => FrontierOf(PathAlong(start, pair.0), pair.1, s.verdict(pair.1))
  }

  lemma EntriesDiffer(s: Search, start: PossibilityObject, dims: seq<Dimension>, options: seq<IrreversibleOption>,
                      pairs: seq<(seq<Morphism>, Morphism)>)
    requires Unhindered(s, start, dims, options) && s.graph.UniqueMorphismIds() && NoDup(pairs)
    requires forall pair :: pair in pairs ==> IrreversibleChoice(s.graph, start, dims, pair.0, pair.1)
    ensures NoDup(Map(EntryOf(s, start.objectId), pairs))
  {
    hide PathAlong;
    hide EcologyOf;
    hide LawfulWalk;
    var f := EntryOf(s, start.objectId);
    forall a, b | a in pairs && b in pairs && f(a) == f(b) ensures a == b {
      LawfulMeansReversible(s, start, dims, options, a.0);
      LawfulMeansReversible(s, start, dims, options, b.0);
      PathDeterminesWalk(s, start.objectId, a.0, start.objectId, b.0);
      SameId(s.graph.morphisms, a.1, b.1);
    }
    MapNoDup(f, pairs);
  }

  /** A pair of a full walk and a DO edge at its end is an entry of the frontier. */
  lemma PairIsEntry(s: Search, start: PossibilityObject, dims: seq<Dimension>, options: seq<IrreversibleOption>,
                    edges: seq<Morphism>, e: Morphism)
    requires Unhindered(s, start, dims, options) && s.graph.UniqueMorphismIds()
    requires !Explored(s, [start.objectId]).truncated && IrreversibleChoice(s.graph, start, dims, edges, e)
    ensures FrontierOf(PathOf(start.objectId, edges), e, s.verdict(e)) in Explored(s, [start.objectId]).irreversibleFrontier
  {
    hide EcologyOf;
    hide LawfulWalk;
    var starts, p := [start.objectId], PathOf(start.objectId, edges);
    LawfulMeansReversible(s, start, dims, options, edges);
    PathOfShape(start.objectId, edges);
    assert StartOrEmitted(s, starts, p) by {
      if edges == [] {
        assert Roots(starts)[0] == Root(start.objectId);
      } else {
        WalkInClosure(s, starts, start.objectId, edges);
        ClosureExactness(s, starts);
      }
    }
    hide Explored;
    FrontierExactness(s, starts);
    assert e in s.graph.Outgoing(Last(p));
  }

  /** And every entry of the frontier is such a pair. */
  lemma EntryIsPair(s: Search, start: PossibilityObject, dims: seq<Dimension>, options: seq<IrreversibleOption>, f: FrontierEdge)
    returns (edges: seq<Morphism>, e: Morphism)
    requires Unhindered(s, start, dims, options) && s.graph.UniqueMorphismIds()
    requires !Explored(s, [start.objectId]).truncated && f in Explored(s, [start.objectId]).irreversibleFrontier
    ensures IrreversibleChoice(s.graph, start, dims, edges, e)
    ensures f == FrontierOf(PathOf(start.objectId, edges), e, s.verdict(e))
  {
    hide EcologyOf;
    hide LawfulWalk;
    hide Explored;
    hide StartOrEmitted;
    var starts := [start.objectId];
    FrontierExactness(s, starts);
    var p;
    p, e :| StartOrEmitted(s, starts, p) && e in s.graph.Outgoing(Last(p)) && e.phase.Do? && f == FrontierOf(p, e, s.verdict(e));
    var from;
    from, edges := StartOrEmittedWalk(s, starts, p);
    LawfulMeansReversible(s, start, dims, options, edges);
    PathOfShape(start.objectId, edges);
    DoEdgeSource(start, dims, options, e);
  }

  lemma DoEdgeSource(start: PossibilityObject, dims: seq<Dimension>, options: seq<IrreversibleOption>, e: Morphism)
    requires WellFormed(dims, options) && EcologyOf(start, dims, options).Success?
    requires e in EcologyOf(start, dims, options).value.graph.morphisms && e.phase.Do?
    ensures e.sourceId in LayerAt(start, dims, |dims|)
  {
    hide EcologyGraph;
    EcologyEdges(start, dims, options, e);
    forall k: nat ensures !IsLayerEdge(start, dims, k, e) {
      if k < |dims| {
        assert dims[k] in dims;
      }
    }
  }

  lemma FrontierSize(s: Search, start: PossibilityObject, dims: seq<Dimension>, options: seq<IrreversibleOption>)
    requires Unhindered(s, start, dims, options) && s.graph.UniqueMorphismIds()
    requires !Explored(s, [start.objectId]).truncated
    ensures |Explored(s, [start.objectId]).irreversibleFrontier| == PathCardinality(dims) * |FirstOptions(options)|
  {
    hide EcologyGraph;
    hide Explored;
    hide IrreversibleChoice;
    hide PathAlong;
    var starts := [start.objectId];
    var pairs := IrreversiblePairs(start, dims, options);
    hide EcologyOf;
    var entries := Map(EntryOf(s, start.objectId), pairs);
    EntriesDiffer(s, start, dims, options, pairs);
    FrontierExactness(s, starts);
    forall f ensures f in entries <==> f in Explored(s, starts).irreversibleFrontier {
      if f in entries {
        var i :| 0 <= i < |entries| && entries[i] == f;
        assert pairs[i] in pairs;
        PairIsEntry(s, start, dims, options, pairs[i].0, pairs[i].1);
      }
      if f in Explored(s, starts).irreversibleFrontier {
        var edges, e := EntryIsPair(s, start, dims, options, f);
        assert (edges, e) in pairs;
        var i :| 0 <= i < |pairs| && pairs[i] == (edges, e);
        assert entries[i] == f;
      }
    }
    SameMembersSameLength(entries, Explored(s, starts).irreversibleFrontier);
  }

  /**
   Exploring an ecology: with distinct ids, the layers' edges admitted, no cost bounds and room enough, the
   search is complete; it emits each walk through the first layers once, those through all layers as
   many as manufacture announced; and its frontier is as large as announced exactly when no option
   repeats another.
   */
  lemma ExploringAnEcology(s: Search, start: PossibilityObject, dims: seq<Dimension>, options: seq<IrreversibleOption>)
    requires Unhindered(s, start, dims, options) && Roomy(s.bounds, dims)
    ensures var e, r := EcologyOf(start, dims, options).value, Explored(s, [start.objectId]);
            && !r.truncated && |r.paths| == ClosureSize(dims) && NoDup(r.paths) && NoDup(r.irreversibleFrontier)
            && (dims != [] ==> exists full: set<Path> :: |full| == e.reversiblePathCardinality &&
                                 forall q :: q in full <==> q in r.paths && Depth(q) == |dims|)
            && (|r.irreversibleFrontier| == e.irreversibleChoiceCardinality <==> DistinctOptions(options))
  {
    hide EcologyGraph;
    hide LawfulWalk;
    EcologyIsValid(start, dims, options);
    ExplorationIsComplete(s, start, dims, options);
    hide Explored;
    hide InClosure;
    var r := Explored(s, [start.objectId]);
    var all := ClosurePaths(s, start, dims, options);
    ClosureExactness(s, [start.objectId]);
    FrontierExactness(s, [start.objectId]);
    SameMembersSameLength(all, r.paths);
    if dims != [] {
      var full := FullLengthPaths(s, start, dims, options);
    }
    FrontierSize(s, start, dims, options);
    FirstOptionsExact(options);
    PathCardinalityPositive(dims, options);
    LessTimes(PathCardinality(dims), |FirstOptions(options)|, |options|);
  }
}
