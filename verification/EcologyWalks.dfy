/** The walks of a manufactured ecology are the combinations of its factors. */
module EcologyWalks {
  import opened Sequences
  import opened CartesianProduct
  import opened Possibility
  import opened Closure
  import opened GraphUnion
  import opened Ecology
  import Combinations

  /** The ids reached after `k` layers. */
  ghost function LayerAt(start: PossibilityObject, dims: seq<Dimension>, k: nat): seq<string>
    requires k <= |dims|
  {
    if k == 0 then [start.objectId] else LayerIds(dims[k - 1])
  }

  ghost predicate WellFormed(dims: seq<Dimension>, options: seq<IrreversibleOption>) {
    && (forall d :: d in dims ==> d.Valid())
    && (forall o :: o in options ==> o.Valid())
  }

  /** No id is constructed for two layers, and none is the start's. */
  ghost predicate DistinctIds(start: PossibilityObject, dims: seq<Dimension>) {
    forall i: nat, k: nat, id ::
      i <= |dims| && k <= |dims| && id in LayerAt(start, dims, i) && id in LayerAt(start, dims, k) ==> i == k
  }

  ghost function AlternativeIds(dims: seq<Dimension>): seq<seq<string>> {
    Combinations.Alternatives(Factors(dims))
  }

  // ---------------------------------------------------------------- the edges of an ecology

  ghost predicate IsLayerEdge(start: PossibilityObject, dims: seq<Dimension>, k: nat, m: Morphism) {
    k < |dims| && exists a, source :: a in dims[k].alternatives && source in LayerAt(start, dims, k)
                                      && m == LayerEdge(dims[k], a, source)
  }

  ghost predicate IsOptionEdge(start: PossibilityObject, dims: seq<Dimension>, options: seq<IrreversibleOption>, m: Morphism) {
    exists o, source :: o in options && source in LayerAt(start, dims, |dims|) && m == OptionEdge(o, source)
  }

  lemma LayerPartsEdges(d: Dimension, sources: seq<string>, m: Morphism)
    ensures Edge(m) in LayerParts(d, sources) <==>
            exists a, source :: a in d.alternatives && source in sources && m == LayerEdge(d, a, source)
  {
    hide FlatMap;
    var f := AlternativeParts(d, sources);
    if Edge(m) in LayerParts(d, sources) {
      var i := FlatMapSource(f, d.alternatives, Edge(m));
      var a := d.alternatives[i];
      var j :| 0 <= j < |sources| && EdgesFrom(d, a, sources)[j] == Edge(m);
      assert a in d.alternatives && sources[j] in sources;
    }
    if a, source :| a in d.alternatives && source in sources && m == LayerEdge(d, a, source) {
      var i :| 0 <= i < |d.alternatives| && d.alternatives[i] == a;
      var j :| 0 <= j < |sources| && sources[j] == source;
      assert EdgesFrom(d, a, sources)[j] == Edge(m);
      FlatMapTarget(f, d.alternatives, i, Edge(m));
    }
  }

  lemma {:induction false} LayersPartsEdges(start: PossibilityObject, dims: seq<Dimension>, m: Morphism)
    ensures Edge(m) in LayersParts(start, dims) <==> exists k: nat :: IsLayerEdge(start, dims, k, m)
  {
    hide LayerParts;
    if dims != [] {
      var front, last := dims[..|dims| - 1], dims[|dims| - 1];
      LayersPartsEdges(start, front, m);
      LayerPartsEdges(last, Previous(start, front), m);
      forall k: nat ensures IsLayerEdge(start, dims, k, m) <==>
                            || IsLayerEdge(start, front, k, m)
                            || (k == |front| && Edge(m) in LayerParts(last, Previous(start, front)))
      {
        if k < |front| {
          assert dims[k] == front[k] && LayerAt(start, front, k) == LayerAt(start, dims, k);
        } else if k == |front| {
          assert dims[k] == last && Previous(start, front) == LayerAt(start, dims, k);
        }
      }
      if Edge(m) in LayerParts(last, Previous(start, front)) {
        assert IsLayerEdge(start, dims, |front|, m);
      }
    }
  }

  lemma OptionPartsEdges(options: seq<IrreversibleOption>, sources: seq<string>, m: Morphism)
    ensures Edge(m) in FlatMap(OptionParts(sources), options) <==>
            exists o, source :: o in options && source in sources && m == OptionEdge(o, source)
  {
    hide FlatMap;
    var f := OptionParts(sources);
    if Edge(m) in FlatMap(f, options) {
      var i := FlatMapSource(f, options, Edge(m));
      var j :| 0 <= j < |sources| && OptionEdges(options[i], sources)[j] == Edge(m);
      assert options[i] in options && sources[j] in sources;
    }
    if o, source :| o in options && source in sources && m == OptionEdge(o, source) {
      var i :| 0 <= i < |options| && options[i] == o;
      var j :| 0 <= j < |sources| && sources[j] == source;
      assert OptionEdges(o, sources)[j] == Edge(m);
      FlatMapTarget(f, options, i, Edge(m));
    }
  }

  lemma InAddedMorphisms(additions: seq<Addition>, m: Morphism)
    ensures m in AddedMorphisms(additions) <==> Edge(m) in additions
  {
  }

  /** The graph has exactly the edges between neighbouring layers and the options' edges. */
  lemma EcologyEdges(start: PossibilityObject, dims: seq<Dimension>, options: seq<IrreversibleOption>, m: Morphism)
    requires EcologyGraph(start, dims, options).Success?
    ensures m in EcologyGraph(start, dims, options).value.morphisms <==>
            (exists k: nat :: IsLayerEdge(start, dims, k, m)) || IsOptionEdge(start, dims, options, m)
  {
    hide AddAll;
    hide LayersParts;
    hide FlatMap;
    var layers := AddAll(StartGraph(start), LayersParts(start, dims)).value;
    var extra := FlatMap(OptionParts(Previous(start, dims)), options);
    AddAllExact(StartGraph(start), LayersParts(start, dims));
    AddAllExact(layers, extra);
    var g := AddAll(layers, extra).value;
    assert m in g.morphisms <==> m in ToSet(g.morphisms);
    InAddedMorphisms(LayersParts(start, dims), m);
    InAddedMorphisms(extra, m);
    LayersPartsEdges(start, dims, m);
    OptionPartsEdges(options, Previous(start, dims), m);
    assert Previous(start, dims) == LayerAt(start, dims, |dims|);
  }

  lemma ReversibleEdge(start: PossibilityObject, dims: seq<Dimension>, options: seq<IrreversibleOption>, m: Morphism)
    returns (k: nat, a: Alternative)
    requires WellFormed(dims, options) && EcologyGraph(start, dims, options).Success?
    requires m in EcologyGraph(start, dims, options).value.morphisms && !m.phase.Do?
    ensures k < |dims| && a in dims[k].alternatives && m.sourceId in LayerAt(start, dims, k)
    ensures m == LayerEdge(dims[k], a, m.sourceId)
  {
    EcologyEdges(start, dims, options, m);
    k :| IsLayerEdge(start, dims, k, m);
    var source;
    a, source :| a in dims[k].alternatives && source in LayerAt(start, dims, k) && m == LayerEdge(dims[k], a, source);
  }

  // ---------------------------------------------------------------- walks and choices

  /** A walk over non-DO edges from the start to the last layer. */
  ghost predicate FullWalk(g: PossibilityGraph, start: PossibilityObject, dims: seq<Dimension>, edges: seq<Morphism>) {
    ReversibleWalk(g, start, edges) && EndOf(start.objectId, edges) in LayerAt(start, dims, |dims|)
  }

  ghost predicate ReversibleWalk(g: PossibilityGraph, start: PossibilityObject, edges: seq<Morphism>) {
    && Connected(start.objectId, edges)
    && forall e :: e in edges ==> e in g.morphisms && !e.phase.Do?
  }

  ghost function AlternativeNamed(d: Dimension, id: string): Alternative
    requires exists a :: a in d.alternatives && a.alternativeId == id
  {
    var a :| a in d.alternatives && a.alternativeId == id; a
  }

  lemma AlternativeUnique(d: Dimension, a: Alternative)
    requires d.Valid() && a in d.alternatives
    ensures AlternativeNamed(d, a.alternativeId) == a
  {
    var b := AlternativeNamed(d, a.alternativeId);
    var i :| 0 <= i < |d.alternatives| && d.alternatives[i] == a;
    var j :| 0 <= j < |d.alternatives| && d.alternatives[j] == b;
  }

  ghost predicate Choice(dims: seq<Dimension>, choice: seq<string>) {
    |choice| == |dims| && forall i :: 0 <= i < |dims| ==> Offers(dims[i], choice[i])
  }

  ghost predicate Offers(d: Dimension, id: string) {
    exists a :: a in d.alternatives && a.alternativeId == id
  }

  /** The walk through the layers that takes the chosen alternative in each. */
  ghost function WalkOf(start: PossibilityObject, dims: seq<Dimension>, choice: seq<string>): seq<Morphism>
    requires Choice(dims, choice)
  {
    if dims == [] then []
    else
      var walk := WalkOf(start, dims[..|dims| - 1], choice[..|dims| - 1]);
      var d := dims[|dims| - 1];
      assert Offers(d, choice[|dims| - 1]);
      walk + [LayerEdge(d, AlternativeNamed(d, choice[|dims| - 1]), EndOf(start.objectId, walk))]
  }

  /** Choices are the entries of the product of the returned factors. */
  lemma ChoicesAreCombinations(dims: seq<Dimension>, choice: seq<string>)
    ensures Choice(dims, choice) <==> choice in Product(AlternativeIds(dims))
  {
    ProductExact(AlternativeIds(dims), choice);
    forall i | 0 <= i < |dims| && |choice| == |dims|
      ensures Offers(dims[i], choice[i]) <==> choice[i] in AlternativeIds(dims)[i]
    {
      var d, ids := dims[i], AlternativeIds(dims)[i];
      if a :| a in d.alternatives && a.alternativeId == choice[i] {
        var j :| 0 <= j < |d.alternatives| && d.alternatives[j] == a;
        assert ids[j] == choice[i];
      }
      if choice[i] in ids {
        var j :| 0 <= j < |ids| && ids[j] == choice[i];
        assert d.alternatives[j] in d.alternatives;
      }
    }
  }

  lemma InLayer(d: Dimension, a: Alternative)
    requires a in d.alternatives
    ensures NodeId(d, a.alternativeId) in LayerIds(d)
  {
    var i :| 0 <= i < |d.alternatives| && d.alternatives[i] == a;
    assert LayerIds(d)[i] == NodeId(d, a.alternativeId);
  }

  /** A chosen walk has one edge a layer and ends in the last of the layers. */
  lemma {:induction false} WalkOfShape(start: PossibilityObject, dims: seq<Dimension>, choice: seq<string>)
    requires Choice(dims, choice)
    ensures |WalkOf(start, dims, choice)| == |dims|
    ensures EndOf(start.objectId, WalkOf(start, dims, choice)) in LayerAt(start, dims, |dims|)
  {
    if dims != [] {
      var d := dims[|dims| - 1];
      WalkOfShape(start, dims[..|dims| - 1], choice[..|dims| - 1]);
      assert Offers(d, choice[|dims| - 1]);
      InLayer(d, AlternativeNamed(d, choice[|dims| - 1]));
    }
  }

  /** The edge a choice takes out of layer `n`. */
  lemma ChosenEdge(start: PossibilityObject, dims: seq<Dimension>, options: seq<IrreversibleOption>,
                   n: nat, id: string, source: string) returns (e: Morphism)
    requires WellFormed(dims, options) && EcologyGraph(start, dims, options).Success?
    requires n < |dims| && Offers(dims[n], id) && source in LayerAt(start, dims, n)
    ensures e == LayerEdge(dims[n], AlternativeNamed(dims[n], id), source)
    ensures e in EcologyGraph(start, dims, options).value.morphisms && !e.phase.Do? && e.sourceId == source
  {
    hide EcologyGraph;
    e := LayerEdge(dims[n], AlternativeNamed(dims[n], id), source);
    assert IsLayerEdge(start, dims, n, e);
    EcologyEdges(start, dims, options, e);
    assert dims[n] in dims;
  }

  /** Every choice through the first layers is a reversible walk of the graph. */
  lemma {:induction false} ChoiceIsWalk(start: PossibilityObject, dims: seq<Dimension>, options: seq<IrreversibleOption>,
                                        first: seq<Dimension>, choice: seq<string>)
    requires WellFormed(dims, options) && EcologyGraph(start, dims, options).Success?
    requires first <= dims && Choice(first, choice)
    ensures ReversibleWalk(EcologyGraph(start, dims, options).value, start, WalkOf(start, first, choice))
  {
    hide EcologyGraph;
    hide LayerEdge;
    hide Connected;
    if first == [] {
      NoEdges(start.objectId);
    } else {
      var n := |first| - 1;
      var front, id := first[..n], choice[n];
      var walk := WalkOf(start, front, choice[..n]);
      ChoiceIsWalk(start, dims, options, front, choice[..n]);
      WalkOfShape(start, front, choice[..n]);
      assert Offers(first[n], id);
      assert LayerAt(start, front, n) == LayerAt(start, dims, n);
      var e := ChosenEdge(start, dims, options, n, id, EndOf(start.objectId, walk));
      ConnectedStep(start.objectId, walk, e);
    }
  }

  lemma NoEdges(start: string)
    ensures Connected(start, [])
  {
  }

  /** Every reversible walk of the graph takes a choice through the first layers. */
  lemma {:induction false} WalkIsChoice(start: PossibilityObject, dims: seq<Dimension>, options: seq<IrreversibleOption>,
                                        edges: seq<Morphism>)
    returns (choice: seq<string>)
    requires WellFormed(dims, options) && DistinctIds(start, dims) && EcologyGraph(start, dims, options).Success?
    requires ReversibleWalk(EcologyGraph(start, dims, options).value, start, edges)
    ensures |edges| <= |dims| && Choice(dims[..|edges|], choice) && edges == WalkOf(start, dims[..|edges|], choice)
  {
    hide EcologyGraph;
    choice := [];
    if edges != [] {
      var front, last := edges[..|edges| - 1], edges[|edges| - 1];
      FrontAndLast(edges);
      ConnectedStep(start.objectId, front, last);
      var before := WalkIsChoice(start, dims, options, front);
      var n := |front|;
      WalkOfShape(start, dims[..n], before);
      assert LayerAt(start, dims[..n], n) == LayerAt(start, dims, n);
      var k, a := ReversibleEdge(start, dims, options, last);
      assert k == n;
      choice := before + [a.alternativeId];
      WalkOfSnoc(start, dims, n, before, a);
    }
  }

  lemma WalkOfSnoc(start: PossibilityObject, dims: seq<Dimension>, n: nat, choice: seq<string>, a: Alternative)
    requires n < |dims| && Choice(dims[..n], choice) && dims[n].Valid() && a in dims[n].alternatives
    ensures Choice(dims[..n + 1], choice + [a.alternativeId])
    ensures var walk := WalkOf(start, dims[..n], choice);
            WalkOf(start, dims[..n + 1], choice + [a.alternativeId]) ==
            walk + [LayerEdge(dims[n], a, EndOf(start.objectId, walk))]
  {
    var longer := choice + [a.alternativeId];
    assert dims[..n + 1][..n] == dims[..n] && longer[..n] == choice;
    forall i | 0 <= i < n + 1 ensures Offers(dims[..n + 1][i], longer[i]) {
      if i < n {
        assert Offers(dims[..n][i], choice[i]);
      }
    }
    AlternativeUnique(dims[n], a);
  }

  lemma {:induction false} WalkOfInjective(start: PossibilityObject, dims: seq<Dimension>, a: seq<string>, b: seq<string>)
    requires Choice(dims, a) && Choice(dims, b) && WalkOf(start, dims, a) == WalkOf(start, dims, b)
    ensures a == b
  {
    if dims != [] {
      var n := |dims| - 1;
      var d, front := dims[n], dims[..n];
      var v, w := WalkOf(start, front, a[..n]), WalkOf(start, front, b[..n]);
      WalkOfShape(start, front, a[..n]);
      WalkOfShape(start, front, b[..n]);
      assert WalkOf(start, dims, a)[..n] == v && WalkOf(start, dims, b)[..n] == w;
      WalkOfInjective(start, front, a[..n], b[..n]);
      assert Offers(d, a[n]) && Offers(d, b[n]);
      assert WalkOf(start, dims, a)[n].targetId == NodeId(d, a[n]);
      assert WalkOf(start, dims, b)[n].targetId == NodeId(d, b[n]);
      NodeIdInjective(d, a[n], b[n]);
      FrontAndLast(a);
      FrontAndLast(b);
    }
  }

  lemma NodeIdInjective(d: Dimension, a: string, b: string)
    requires NodeId(d, a) == NodeId(d, b)
    ensures a == b
  {
    var prefix := d.dimensionId + ":";
    assert NodeId(d, a) == prefix + a && NodeId(d, b) == prefix + b;
    assert a == (prefix + a)[|prefix|..] && b == (prefix + b)[|prefix|..];
  }

  /** The announced number of paths is the size of the product. */
  lemma {:induction false} PathCardinalityIsProduct(dims: seq<Dimension>)
    ensures PathCardinality(dims) == |Product(AlternativeIds(dims))|
  {
    hide Product;
    ProductLength(AlternativeIds(dims));
    if dims != [] {
      var front := dims[..|dims| - 1];
      PathCardinalityIsProduct(front);
      ProductLength(AlternativeIds(front));
      assert AlternativeIds(dims)[..|dims| - 1] == AlternativeIds(front);
      assert |AlternativeIds(dims)[|dims| - 1]| == |dims[|dims| - 1].alternatives|;
    }
  }

  // ---------------------------------------------------------------- main results

  /**
   The full walks are the choices, one for one: every combination of the factors is the full walk
   that takes it, every full walk takes a combination, and different combinations walk differently.
   */
  lemma FullWalksAreChoices(start: PossibilityObject, dims: seq<Dimension>, options: seq<IrreversibleOption>)
    requires WellFormed(dims, options) && DistinctIds(start, dims) && EcologyOf(start, dims, options).Success?
    ensures var g := EcologyOf(start, dims, options).value.graph;
            && (forall choice :: Choice(dims, choice) ==> FullWalk(g, start, dims, WalkOf(start, dims, choice)))
            && (forall edges :: FullWalk(g, start, dims, edges) ==>
                  exists choice :: Choice(dims, choice) && edges == WalkOf(start, dims, choice))
            && (forall a, b :: Choice(dims, a) && Choice(dims, b) && WalkOf(start, dims, a) == WalkOf(start, dims, b) ==> a == b)
  {
    var g := EcologyOf(start, dims, options).value.graph;
    forall choice | Choice(dims, choice) ensures FullWalk(g, start, dims, WalkOf(start, dims, choice)) {
      ChoiceIsWalk(start, dims, options, dims, choice);
      WalkOfShape(start, dims, choice);
    }
    forall edges | FullWalk(g, start, dims, edges)
      ensures exists choice :: Choice(dims, choice) && edges == WalkOf(start, dims, choice)
    {
      var choice := FullWalkChoice(start, dims, options, edges);
    }
    forall a, b | Choice(dims, a) && Choice(dims, b) && WalkOf(start, dims, a) == WalkOf(start, dims, b) ensures a == b {
      WalkOfInjective(start, dims, a, b);
    }
  }

  lemma FullWalkChoice(start: PossibilityObject, dims: seq<Dimension>, options: seq<IrreversibleOption>, edges: seq<Morphism>)
    returns (choice: seq<string>)
    requires WellFormed(dims, options) && DistinctIds(start, dims) && EcologyGraph(start, dims, options).Success?
    requires FullWalk(EcologyGraph(start, dims, options).value, start, dims, edges)
    ensures Choice(dims, choice) && edges == WalkOf(start, dims, choice)
  {
    hide EcologyGraph;
    choice := WalkIsChoice(start, dims, options, edges);
    var n := |edges|;
    WalkOfShape(start, dims[..n], choice);
    assert LayerAt(start, dims[..n], n) == LayerAt(start, dims, n);
    assert n == |dims|;
    assert dims[..n] == dims;
  }

  /** The full walks, listed in the order of the product. */
  ghost function WalkList(start: PossibilityObject, dims: seq<Dimension>, choices: seq<seq<string>>): (walks: seq<seq<Morphism>>)
    requires forall c :: c in choices ==> Choice(dims, c)
    ensures |walks| == |choices|
    ensures forall i :: 0 <= i < |choices| ==> Choice(dims, choices[i]) && walks[i] == WalkOf(start, dims, choices[i])
  {
    seq(|choices|, i requires 0 <= i < |choices| => assert choices[i] in choices; WalkOf(start, dims, choices[i]))
  }

  lemma FullWalkList(start: PossibilityObject, dims: seq<Dimension>, options: seq<IrreversibleOption>)
    returns (walks: seq<seq<Morphism>>)
    requires WellFormed(dims, options) && DistinctIds(start, dims) && EcologyOf(start, dims, options).Success?
    ensures NoDup(walks) && |walks| == PathCardinality(dims)
    ensures forall edges :: edges in walks <==> FullWalk(EcologyOf(start, dims, options).value.graph, start, dims, edges)
  {
    hide EcologyOf;
    hide Product;
    hide WalkOf;
    var choices := Product(AlternativeIds(dims));
    forall c ensures Choice(dims, c) <==> c in choices {
      ChoicesAreCombinations(dims, c);
    }
    walks := WalkList(start, dims, choices);
    PathCardinalityIsProduct(dims);
    AlternativeIdsNoDup(dims, options);
    ProductNoDup(AlternativeIds(dims));
    FullWalksAreChoices(start, dims, options);
    forall edges | FullWalk(EcologyOf(start, dims, options).value.graph, start, dims, edges) ensures edges in walks {
      var choice :| Choice(dims, choice) && edges == WalkOf(start, dims, choice);
      var i :| 0 <= i < |choices| && choices[i] == choice;
      assert walks[i] == edges;
    }
  }

  lemma AlternativeIdsNoDup(dims: seq<Dimension>, options: seq<IrreversibleOption>)
    requires WellFormed(dims, options)
    ensures forall f :: f in AlternativeIds(dims) ==> NoDup(f)
  {
    forall f | f in AlternativeIds(dims) ensures NoDup(f) {
      var i :| 0 <= i < |dims| && AlternativeIds(dims)[i] == f;
      assert dims[i] in dims;
    }
  }

  /** The ecology counts the product: there are exactly `reversiblePathCardinality` full walks. */
  lemma EcologyCountsTheProduct(start: PossibilityObject, dims: seq<Dimension>, options: seq<IrreversibleOption>)
    requires WellFormed(dims, options) && DistinctIds(start, dims) && EcologyOf(start, dims, options).Success?
    ensures var e := EcologyOf(start, dims, options).value;
            && e.reversiblePathCardinality == |Product(Combinations.Alternatives(e.factors))|
            && exists walks :: |walks| == e.reversiblePathCardinality && AreTheFullWalks(walks, e.graph, start, dims)
  {
    var list := FullWalkList(start, dims, options);
    SizeOfToSet(list);
    PathCardinalityIsProduct(dims);
    assert AreTheFullWalks(ToSet(list), EcologyOf(start, dims, options).value.graph, start, dims);
  }

  // ---------------------------------------------------------------- where ids collide

  lemma {:induction false} WalkOfObjects(start: PossibilityObject, dims: seq<Dimension>, choice: seq<string>, j: nat)
    requires Choice(dims, choice) && j <= |dims|
    ensures |WalkOf(start, dims, choice)| == |dims|
    ensures ObjectAt(start.objectId, WalkOf(start, dims, choice), j) ==
            if j == 0 then start.objectId else NodeId(dims[j - 1], choice[j - 1])
  {
    WalkOfShape(start, dims, choice);
    if dims != [] {
      assert Offers(dims[|dims| - 1], choice[|dims| - 1]);
      WalkOfShape(start, dims[..|dims| - 1], choice[..|dims| - 1]);
      if 0 < j < |dims| {
        WalkOfObjects(start, dims[..|dims| - 1], choice[..|dims| - 1], j);
      }
    }
  }

  /** A choice that reaches `id` after `k` layers. */
  lemma AlternativeAt(start: PossibilityObject, dims: seq<Dimension>, k: nat, id: string) returns (alternativeId: string)
    requires 0 < k <= |dims| && id in LayerAt(start, dims, k)
    ensures Offers(dims[k - 1], alternativeId) && NodeId(dims[k - 1], alternativeId) == id
  {
    var d := dims[k - 1];
    var j :| 0 <= j < |d.alternatives| && LayerIds(d)[j] == id;
    alternativeId := d.alternatives[j].alternativeId;
    assert d.alternatives[j] in d.alternatives;
  }

  /** Ids that collide put a cycle on a full walk. */
  lemma CollisionWalk(start: PossibilityObject, dims: seq<Dimension>, options: seq<IrreversibleOption>,
                      i: nat, k: nat, id: string) returns (walk: seq<Morphism>)
    requires WellFormed(dims, options) && EcologyGraph(start, dims, options).Success?
    requires i < k <= |dims| && id in LayerAt(start, dims, i) && id in LayerAt(start, dims, k)
    ensures FullWalk(EcologyGraph(start, dims, options).value, start, dims, walk) && |walk| == |dims|
    ensures ObjectAt(start.objectId, walk, i) == ObjectAt(start.objectId, walk, k)
  {
    hide EcologyGraph;
    var choice := seq(|dims|, j requires 0 <= j < |dims| =>
      assert dims[j] in dims && dims[j].Valid(); dims[j].alternatives[0].alternativeId);
    forall j | 0 <= j < |dims| ensures Offers(dims[j], choice[j]) {
      assert dims[j] in dims && dims[j].alternatives[0] in dims[j].alternatives;
    }
    var atK := AlternativeAt(start, dims, k, id);
    choice := choice[k - 1 := atK];
    if i > 0 {
      var atI := AlternativeAt(start, dims, i, id);
      choice := choice[i - 1 := atI];
    }
    walk := WalkOf(start, dims, choice);
    ChoiceIsWalk(start, dims, options, dims, choice);
    WalkOfShape(start, dims, choice);
    WalkOfObjects(start, dims, choice, i);
    WalkOfObjects(start, dims, choice, k);
  }

  lemma {:induction false} ConnectedAppend(start: string, a: seq<Morphism>, b: seq<Morphism>)
    ensures Connected(start, a + b) <==> Connected(start, a) && Connected(EndOf(start, a), b)
    ensures EndOf(start, a + b) == EndOf(EndOf(start, a), b)
  {
    if b == [] {
      assert a + b == a;
    } else {
      var front, last := b[..|b| - 1], b[|b| - 1];
      FrontAndLast(b);
      ConnectedAppend(start, a, front);
      assert a + b == (a + front) + [last];
      ConnectedStep(start, a + front, last);
      ConnectedStep(EndOf(start, a), front, last);
    }
  }

  /** Going round a cycle once more: `a` leads to it, `c` is the cycle and `b` leads on. */
  lemma RoundAgain(g: PossibilityGraph, start: PossibilityObject, a: seq<Morphism>, c: seq<Morphism>, b: seq<Morphism>)
    requires ReversibleWalk(g, start, a + c + b) && c != []
    requires EndOf(start.objectId, a) == EndOf(start.objectId, a + c)
    ensures ReversibleWalk(g, start, (a + c) + c + b)
    ensures EndOf(start.objectId, (a + c) + c + b) == EndOf(start.objectId, a + c + b)
    ensures EndOf(start.objectId, a + c) == EndOf(start.objectId, (a + c) + c)
  {
    ConnectedAppend(start.objectId, a + c, b);
    ConnectedAppend(start.objectId, a, c);
    ConnectedAppend(start.objectId, a + c, c);
    ConnectedAppend(start.objectId, (a + c) + c, b);
  }

  lemma {:induction false} Pump(g: PossibilityGraph, start: PossibilityObject, a: seq<Morphism>, c: seq<Morphism>,
                                b: seq<Morphism>, n: nat) returns (longer: seq<Morphism>)
    requires ReversibleWalk(g, start, a + c + b) && c != []
    requires EndOf(start.objectId, a) == EndOf(start.objectId, a + c)
    ensures ReversibleWalk(g, start, longer) && |longer| >= n
    ensures EndOf(start.objectId, longer) == EndOf(start.objectId, a + c + b)
    decreases n - |a|
  {
    longer := a + c + b;
    if |a| < n {
      RoundAgain(g, start, a, c, b);
      longer := Pump(g, start, a + c, c, b, n);
    }
  }

  lemma CutAtCycle(start: string, walk: seq<Morphism>, i: nat, k: nat)
    returns (a: seq<Morphism>, c: seq<Morphism>, b: seq<Morphism>)
    requires i < k <= |walk| && ObjectAt(start, walk, i) == ObjectAt(start, walk, k)
    ensures walk == a + c + b && c != [] && EndOf(start, a) == EndOf(start, a + c)
  {
    a, c, b := walk[..i], walk[i..k], walk[k..];
    assert a + c == walk[..k];
  }

  /** A full walk longer than any given one. */
  lemma LongFullWalk(start: PossibilityObject, dims: seq<Dimension>, options: seq<IrreversibleOption>,
                     i: nat, k: nat, id: string, n: nat) returns (longer: seq<Morphism>)
    requires WellFormed(dims, options) && EcologyGraph(start, dims, options).Success?
    requires i < k <= |dims| && id in LayerAt(start, dims, i) && id in LayerAt(start, dims, k)
    ensures FullWalk(EcologyGraph(start, dims, options).value, start, dims, longer) && |longer| >= n
  {
    hide EcologyGraph;
    hide Connected;
    var walk := CollisionWalk(start, dims, options, i, k, id);
    var a, c, b := CutAtCycle(start.objectId, walk, i, k);
    longer := Pump(EcologyGraph(start, dims, options).value, start, a, c, b, n);
  }

  ghost function Longest(walks: set<seq<Morphism>>): (n: nat)
    ensures forall w :: w in walks ==> |w| <= n
  {
    if walks == {} then 0
    else
      var w :| w in walks;
      var rest := Longest(walks - {w});
      if |w| > rest then |w| else rest
  }

  ghost predicate AreTheFullWalks(walks: set<seq<Morphism>>, g: PossibilityGraph, start: PossibilityObject,
                                  dims: seq<Dimension>) {
    forall edges :: edges in walks <==> FullWalk(g, start, dims, edges)
  }

  /** Where ids collide, every finite set of walks misses a full walk. */
  lemma CollisionsMakeWalksEndless(start: PossibilityObject, dims: seq<Dimension>, options: seq<IrreversibleOption>,
                                   walks: set<seq<Morphism>>)
    requires WellFormed(dims, options) && EcologyOf(start, dims, options).Success? && !DistinctIds(start, dims)
    ensures !AreTheFullWalks(walks, EcologyOf(start, dims, options).value.graph, start, dims)
  {
    hide EcologyGraph;
    hide FullWalk;
    var x: nat, y: nat, id :|
      x <= |dims| && y <= |dims| && id in LayerAt(start, dims, x) && id in LayerAt(start, dims, y) && x != y;
    var longer := LongFullWalk(start, dims, options, if x < y then x else y, if x < y then y else x, id, Longest(walks) + 1);
  }

  /**
   The announced path count is the number of full walks exactly when no constructed id collides:
   ids joined with a colon may coincide, and then the full walks are not even finite in number.
   */
  lemma CountHoldsIffIdsDistinct(start: PossibilityObject, dims: seq<Dimension>, options: seq<IrreversibleOption>)
    requires WellFormed(dims, options) && EcologyOf(start, dims, options).Success?
    ensures var e := EcologyOf(start, dims, options).value;
            DistinctIds(start, dims) <==>
            exists walks :: |walks| == e.reversiblePathCardinality && AreTheFullWalks(walks, e.graph, start, dims)
  {
    hide EcologyGraph;
    var e := EcologyOf(start, dims, options).value;
    if DistinctIds(start, dims) {
      EcologyCountsTheProduct(start, dims, options);
    } else {
      forall walks ensures !AreTheFullWalks(walks, e.graph, start, dims) {
        CollisionsMakeWalksEndless(start, dims, options, walks);
      }
    }
  }

  /** A full walk together with a DO edge that leaves its last object. */
  ghost predicate IrreversibleChoice(g: PossibilityGraph, start: PossibilityObject, dims: seq<Dimension>,
                                     edges: seq<Morphism>, e: Morphism) {
    FullWalk(g, start, dims, edges) && e in g.morphisms && e.phase.Do? && e.sourceId == EndOf(start.objectId, edges)
  }

  /** No two options share both id and target. */
  ghost predicate DistinctOptions(options: seq<IrreversibleOption>) {
    forall i, j :: 0 <= i < j < |options| ==>
      options[i].optionId != options[j].optionId || options[i].target.objectId != options[j].target.objectId
  }

  ghost function PairsAt(start: PossibilityObject, options: seq<IrreversibleOption>)
    : seq<Morphism> -> seq<(seq<Morphism>, Morphism)>
  {
    (edges: seq<Morphism>) =>
      seq(|options|, i requires 0 <= i < |options| => (edges, OptionEdge(options[i], EndOf(start.objectId, edges))))
  }

  lemma PairsAtFacts(start: PossibilityObject, options: seq<IrreversibleOption>, edges: seq<Morphism>)
    requires DistinctOptions(options)
    ensures |PairsAt(start, options)(edges)| == |options| && NoDup(PairsAt(start, options)(edges))
    ensures forall p :: p in PairsAt(start, options)(edges) <==>
              p.0 == edges && exists o :: o in options && p.1 == OptionEdge(o, EndOf(start.objectId, edges))
  {
    var pairs := PairsAt(start, options)(edges);
    forall i, j | 0 <= i < j < |pairs| ensures pairs[i] != pairs[j] {
      assert pairs[i].1.morphismId != pairs[j].1.morphismId;
    }
    forall p: (seq<Morphism>, Morphism) | p.0 == edges && exists o :: o in options && p.1 == OptionEdge(o, EndOf(start.objectId, edges))
      ensures p in pairs
    {
      var o :| o in options && p.1 == OptionEdge(o, EndOf(start.objectId, edges));
      var i :| 0 <= i < |options| && options[i] == o;
      assert pairs[i] == p;
    }
    forall p | p in pairs ensures exists o :: o in options && p.1 == OptionEdge(o, EndOf(start.objectId, edges)) {
      var i :| 0 <= i < |pairs| && pairs[i] == p;
      assert options[i] in options;
    }
  }

  lemma DoEdgesAtTheEnd(start: PossibilityObject, dims: seq<Dimension>, options: seq<IrreversibleOption>,
                        edges: seq<Morphism>, e: Morphism)
    requires WellFormed(dims, options) && EcologyGraph(start, dims, options).Success?
    requires FullWalk(EcologyGraph(start, dims, options).value, start, dims, edges)
    ensures e in EcologyGraph(start, dims, options).value.morphisms && e.phase.Do? && e.sourceId == EndOf(start.objectId, edges)
            <==> exists o :: o in options && e == OptionEdge(o, EndOf(start.objectId, edges))
  {
    hide EcologyGraph;
    EcologyEdges(start, dims, options, e);
    if k: nat :| IsLayerEdge(start, dims, k, e) {
      assert dims[k] in dims;
    }
  }
}
