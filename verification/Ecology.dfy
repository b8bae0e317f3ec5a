/**
 `manufacture_ecology` (`src/gymact/ecology.py`): a layered graph, as large as the sum of the
 alternatives, whose walks are the product of the alternatives.
 */
module Ecology {
  import opened Outcomes
  import opened Sequences
  import opened Possibility
  import opened GraphUnion
  import Combinations

  datatype Alternative = Alternative(
    alternativeId: string, semanticRef: string, ontologyRefs: seq<string>, standing: Standing,
    evidenceRefs: seq<string>, requirements: Requirements, objectives: ObjectiveVector,
    attributes: Attributes)

  datatype Dimension = Dimension(
    dimensionId: string, objectKind: ObjectKind, morphismKind: MorphismKind, phase: DecisionPhase,
    reversal: ReversalClass, alternatives: seq<Alternative>)
  {
    /** What the dimension validator accepts. */
    ghost predicate Valid() {
      && !phase.Do?
      && reversal.Reversible?
      && alternatives != []
      && forall i, j :: 0 <= i < j < |alternatives| ==> alternatives[i].alternativeId != alternatives[j].alternativeId
    }
  }

  datatype IrreversibleOption = IrreversibleOption(
    optionId: string, target: PossibilityObject, morphismKind: MorphismKind, reversal: ReversalClass,
    standing: Standing, evidenceRefs: seq<string>, requirements: Requirements,
    objectives: ObjectiveVector, binding: Option<ConsequenceBinding>)
  {
    predicate Valid() {
      requirements.executionGrantRequired && !reversal.Reversible?
    }
  }

  datatype ManufacturedEcology = ManufacturedEcology(
    graph: PossibilityGraph, factors: seq<Combinations.Factor>, reversiblePathCardinality: nat,
    irreversibleChoiceCardinality: nat)

  datatype EcologyError = DuplicateDimensionId | GraphRefused(error: GraphError)

  // ---------------------------------------------------------------- the parts of an ecology

  function NodeId(d: Dimension, alternativeId: string): string {
    d.dimensionId + ":" + alternativeId
  }

  function LayerObject(d: Dimension, a: Alternative): PossibilityObject {
    PossibilityObject(NodeId(d, a.alternativeId), d.objectKind, a.semanticRef, None, a.ontologyRefs, a.standing,
                      a.evidenceRefs, a.attributes)
  }

  function LayerEdge(d: Dimension, a: Alternative, source: string): Morphism {
    var target := NodeId(d, a.alternativeId);
    Morphism(LayerDigest(d.dimensionId, source, target), source, target, d.morphismKind, d.phase, d.reversal,
             a.requirements, a.objectives, a.standing, a.evidenceRefs, NO_ATTRIBUTES)
  }

  function OptionEdge(o: IrreversibleOption, source: string): Morphism {
    Morphism(OptionDigest(o.optionId, source, o.target.objectId), source, o.target.objectId, o.morphismKind, Do,
             o.reversal, o.requirements, o.objectives, o.standing, o.evidenceRefs, Attributes(o.binding, map[]))
  }

  /** The ids of one layer, in order. */
  function LayerIds(d: Dimension): seq<string> {
    seq(|d.alternatives|, i requires 0 <= i < |d.alternatives| => NodeId(d, d.alternatives[i].alternativeId))
  }

  /** The ids the next layer is joined to: the last layer so far, or the start. */
  function Previous(start: PossibilityObject, dims: seq<Dimension>): seq<string> {
    if dims == [] then [start.objectId] else LayerIds(dims[|dims| - 1])
  }

  function EdgesFrom(d: Dimension, a: Alternative, sources: seq<string>): seq<Addition> {
    seq(|sources|, i requires 0 <= i < |sources| => Edge(LayerEdge(d, a, sources[i])))
  }

  function AlternativeParts(d: Dimension, sources: seq<string>): Alternative -> seq<Addition> {
    (a: Alternative) => [Node(LayerObject(d, a))] + EdgesFrom(d, a, sources)
  }

  function LayerParts(d: Dimension, sources: seq<string>): seq<Addition> {
    FlatMap(AlternativeParts(d, sources), d.alternatives)
  }

  function LayersParts(start: PossibilityObject, dims: seq<Dimension>): seq<Addition> {
    if dims == [] then []
    else
      var front := dims[..|dims| - 1];
      LayersParts(start, front) + LayerParts(dims[|dims| - 1], Previous(start, front))
  }

  function OptionEdges(o: IrreversibleOption, sources: seq<string>): seq<Addition> {
    seq(|sources|, i requires 0 <= i < |sources| => Edge(OptionEdge(o, sources[i])))
  }

  function OptionParts(sources: seq<string>): IrreversibleOption -> seq<Addition> {
    (o: IrreversibleOption) => [Node(o.target)] + OptionEdges(o, sources)
  }

  function FactorOf(d: Dimension): Combinations.Factor {
    Combinations.Factor(d.dimensionId, seq(|d.alternatives|, i requires 0 <= i < |d.alternatives| => d.alternatives[i].alternativeId))
  }

  function Factors(dims: seq<Dimension>): seq<Combinations.Factor> {
    seq(|dims|, i requires 0 <= i < |dims| => FactorOf(dims[i]))
  }

  /** The product of the numbers of alternatives. */
  function PathCardinality(dims: seq<Dimension>): nat {
    if dims == [] then 1 else PathCardinality(dims[..|dims| - 1]) * |dims[|dims| - 1].alternatives|
  }

  function DimensionIds(dims: seq<Dimension>): seq<string> {
    seq(|dims|, i requires 0 <= i < |dims| => dims[i].dimensionId)
  }

  function StartGraph(start: PossibilityObject): PossibilityGraph {
    PossibilityGraph([start], [])
  }

  /** The layers first, then the irreversible options on the last of them. */
  function EcologyGraph(start: PossibilityObject, dims: seq<Dimension>, options: seq<IrreversibleOption>)
    : Result<PossibilityGraph, GraphError>
  {
    var layers :- AddAll(StartGraph(start), LayersParts(start, dims));
    AddAll(layers, FlatMap(OptionParts(Previous(start, dims)), options))
  }

  /** The ecology as its graph, and the counts it announces. */
  function EcologyOf(start: PossibilityObject, dims: seq<Dimension>, options: seq<IrreversibleOption>)
    : Result<ManufacturedEcology, EcologyError>
  {
    if Combinations.Repeats(DimensionIds(dims)) then Failure(DuplicateDimensionId)
    else
      match EcologyGraph(start, dims, options)
      case Failure(e) => Failure(GraphRefused(e))
      case Success(g) =>
        Success(ManufacturedEcology(g, Factors(dims), PathCardinality(dims), PathCardinality(dims) * |options|))
  }

  // ---------------------------------------------------------------- the construction

  /** The loops over the alternatives of one dimension and over the layer before it. */
  method AddLayer(g: PossibilityGraph, d: Dimension, sources: seq<string>)
    returns (r: Result<PossibilityGraph, GraphError>, ids: seq<string>)
    ensures r == AddAll(g, LayerParts(d, sources))
    ensures r.Success? ==> ids == LayerIds(d)
  {
    hide AddAll;
    hide LayerEdge;
    AddNone(g);
    var graph := g;
    ids := [];
    for i := 0 to |d.alternatives|
      invariant AddAll(g, FlatMap(AlternativeParts(d, sources), d.alternatives[..i])) == Success(graph)
      invariant ids == LayerIds(d)[..i]
    {
      var alternative := d.alternatives[i];
      ghost var before := FlatMap(AlternativeParts(d, sources), d.alternatives[..i]);
      ghost var after := FlatMapSplit(AlternativeParts(d, sources), d.alternatives, i);
      AddAllAppend(g, before, AlternativeParts(d, sources)(alternative));
      var step := AddAlternative(graph, d, alternative, sources);
      if step.Failure? {
        AddAllAppend(g, FlatMap(AlternativeParts(d, sources), d.alternatives[..i + 1]), after);
        return step, ids;
      }
      graph := step.value;
      ids := ids + [NodeId(d, alternative.alternativeId)];
    }
    assert d.alternatives[..|d.alternatives|] == d.alternatives;
    return Success(graph), ids;
  }

  method AddAlternative(g: PossibilityGraph, d: Dimension, a: Alternative, sources: seq<string>)
    returns (r: Result<PossibilityGraph, GraphError>)
    ensures r == AddAll(g, AlternativeParts(d, sources)(a))
  {
    AddStep(g, [], Node(LayerObject(d, a)));
    assert [] + [Node(LayerObject(d, a))] == [Node(LayerObject(d, a))];
    AddAllAppend(g, [Node(LayerObject(d, a))], EdgesFrom(d, a, sources));
    var withNode := g.WithObject(LayerObject(d, a));
    if withNode.Failure? {
      return withNode;
    }
    var graph := withNode.value;
    for j := 0 to |sources|
      invariant AddAll(withNode.value, EdgesFrom(d, a, sources)[..j]) == Success(graph)
    {
      AddNext(withNode.value, EdgesFrom(d, a, sources), j);
      var edge := ValidateMorphism(LayerEdge(d, a, sources[j]));
      if edge.Failure? {
        FailureStays(withNode.value, EdgesFrom(d, a, sources), j + 1);
        return Failure(edge.error);
      }
      var step := graph.WithMorphism(edge.value);
      if step.Failure? {
        FailureStays(withNode.value, EdgesFrom(d, a, sources), j + 1);
        return step;
      }
      graph := step.value;
    }
    assert EdgesFrom(d, a, sources)[..|sources|] == EdgesFrom(d, a, sources);
    return Success(graph);
  }

  method AddOption(g: PossibilityGraph, o: IrreversibleOption, sources: seq<string>)
    returns (r: Result<PossibilityGraph, GraphError>)
    ensures r == AddAll(g, OptionParts(sources)(o))
  {
    ghost var edges := OptionEdges(o, sources);
    AddStep(g, [], Node(o.target));
    assert [] + [Node(o.target)] == [Node(o.target)];
    AddAllAppend(g, [Node(o.target)], edges);
    var withNode := g.WithObject(o.target);
    if withNode.Failure? {
      return withNode;
    }
    var graph := withNode.value;
    for j := 0 to |sources|
      invariant AddAll(withNode.value, edges[..j]) == Success(graph)
    {
      AddNext(withNode.value, edges, j);
      var edge := ValidateMorphism(OptionEdge(o, sources[j]));
      if edge.Failure? {
        FailureStays(withNode.value, edges, j + 1);
        return Failure(edge.error);
      }
      var step := graph.WithMorphism(edge.value);
      if step.Failure? {
        FailureStays(withNode.value, edges, j + 1);
        return step;
      }
      graph := step.value;
    }
    assert edges[..|sources|] == edges;
    return Success(graph);
  }

  method AddLayers(start: PossibilityObject, dims: seq<Dimension>)
    returns (r: Result<PossibilityGraph, GraphError>, previous: seq<string>, factors: seq<Combinations.Factor>, cardinality: nat)
    ensures r == AddAll(StartGraph(start), LayersParts(start, dims))
    ensures r.Success? ==> previous == Previous(start, dims) && factors == Factors(dims)
    ensures r.Success? ==> cardinality == PathCardinality(dims)
  {
    hide AddAll;
    hide LayerIds;
    hide FactorOf;
    AddNone(StartGraph(start));
    var graph := StartGraph(start);
    previous, factors, cardinality := [start.objectId], [], 1;
    for i := 0 to |dims|
      invariant LayersSoFar(start, dims, i, graph, previous)
      invariant factors == Factors(dims)[..i] && cardinality == PathCardinality(dims[..i])
    {
      LayersNext(start, dims, i, graph, previous);
      factors := factors + [FactorOf(dims[i])];
      cardinality := CardinalityNext(dims, i, cardinality);
      var step, ids := AddLayer(graph, dims[i], previous);
      if step.Failure? {
        LayersFailureStays(start, dims, i + 1);
        return step, previous, factors, cardinality;
      }
      graph, previous := step.value, ids;
    }
    assert dims[..|dims|] == dims;
    return Success(graph), previous, factors, cardinality;
  }

  ghost predicate LayersSoFar(start: PossibilityObject, dims: seq<Dimension>, i: nat, graph: PossibilityGraph,
                              previous: seq<string>)
    requires i <= |dims|
  {
    && AddAll(StartGraph(start), LayersParts(start, dims[..i])) == Success(graph)
    && previous == Previous(start, dims[..i])
  }

  /** What one turn of the loop over the dimensions adds. */
  lemma LayersNext(start: PossibilityObject, dims: seq<Dimension>, i: nat, graph: PossibilityGraph, previous: seq<string>)
    requires i < |dims| && LayersSoFar(start, dims, i, graph, previous)
    ensures AddAll(StartGraph(start), LayersParts(start, dims[..i + 1])) == AddAll(graph, LayerParts(dims[i], previous))
    ensures Previous(start, dims[..i + 1]) == LayerIds(dims[i])
  {
    assert dims[..i + 1][..i] == dims[..i];
    AddAllAppend(StartGraph(start), LayersParts(start, dims[..i]), LayerParts(dims[i], previous));
  }

  function CardinalityNext(dims: seq<Dimension>, i: nat, cardinality: nat): (next: nat)
    requires i < |dims| && cardinality == PathCardinality(dims[..i])
    ensures next == PathCardinality(dims[..i + 1])
  {
    assert dims[..i + 1][..i] == dims[..i];
    cardinality * |dims[i].alternatives|
  }

  lemma {:induction false} LayersFailureStays(start: PossibilityObject, dims: seq<Dimension>, n: nat)
    requires n <= |dims| && AddAll(StartGraph(start), LayersParts(start, dims[..n])).Failure?
    ensures AddAll(StartGraph(start), LayersParts(start, dims)) == AddAll(StartGraph(start), LayersParts(start, dims[..n]))
  {
    if n == |dims| {
      assert dims[..n] == dims;
    } else {
      var front := dims[..|dims| - 1];
      assert front[..n] == dims[..n];
      LayersFailureStays(start, front, n);
      AddAllAppend(StartGraph(start), LayersParts(start, front), LayerParts(dims[|dims| - 1], Previous(start, front)));
    }
  }

  method ManufactureEcology(start: PossibilityObject, dims: seq<Dimension>, options: seq<IrreversibleOption>)
    returns (r: Result<ManufacturedEcology, EcologyError>)
    ensures r == EcologyOf(start, dims, options)
  {
    hide AddAll;
    hide LayersParts;
    hide FlatMap;
    if Combinations.Repeats(DimensionIds(dims)) {
      return Failure(DuplicateDimensionId);
    }
    var layers, previous, factors, cardinality := AddLayers(start, dims);
    if layers.Failure? {
      return Failure(GraphRefused(layers.error));
    }
    var all := AddOptions(layers.value, options, previous);
    if all.Failure? {
      return Failure(GraphRefused(all.error));
    }
    return Success(ManufacturedEcology(all.value, factors, cardinality, cardinality * |options|));
  }

  lemma AddNone(g: PossibilityGraph)
    ensures AddAll(g, []) == Success(g)
  {
  }

  method AddOptions(g: PossibilityGraph, options: seq<IrreversibleOption>, sources: seq<string>)
    returns (r: Result<PossibilityGraph, GraphError>)
    ensures r == AddAll(g, FlatMap(OptionParts(sources), options))
  {
    hide AddAll;
    hide OptionEdges;
    AddNone(g);
    var graph := g;
    for i := 0 to |options|
      invariant AddAll(g, FlatMap(OptionParts(sources), options[..i])) == Success(graph)
    {
      ghost var after := FlatMapSplit(OptionParts(sources), options, i);
      AddAllAppend(g, FlatMap(OptionParts(sources), options[..i]), OptionParts(sources)(options[i]));
      var step := AddOption(graph, options[i], sources);
      if step.Failure? {
        AddAllAppend(g, FlatMap(OptionParts(sources), options[..i + 1]), after);
        return step;
      }
      graph := step.value;
    }
    assert options[..|options|] == options;
    return Success(graph);
  }
}
