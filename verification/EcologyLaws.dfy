/** When an ecology is manufactured, what graph it is, and what exploring it finds. */
module EcologyLaws {
  import opened Outcomes
  import opened Sequences
  import opened Possibility
  import opened Closure
  import opened GraphUnion
  import opened Ecology
  import opened EcologyWalks
  import CartesianProduct
  import Combinations

  // ---------------------------------------------------------------- the graph

  ghost function EcologyParts(start: PossibilityObject, dims: seq<Dimension>, options: seq<IrreversibleOption>): seq<Addition> {
    LayersParts(start, dims) + FlatMap(OptionParts(Previous(start, dims)), options)
  }

  ghost function EcologyObjects(start: PossibilityObject, dims: seq<Dimension>, options: seq<IrreversibleOption>): set<PossibilityObject> {
    {start} + (set d, a | d in dims && a in d.alternatives :: LayerObject(d, a)) + (set o | o in options :: o.target)
  }

  lemma EcologyIsAddAll(start: PossibilityObject, dims: seq<Dimension>, options: seq<IrreversibleOption>)
    ensures EcologyGraph(start, dims, options) == AddAll(StartGraph(start), EcologyParts(start, dims, options))
  {
    hide FlatMap;
    hide LayersParts;
    AddAllAppend(StartGraph(start), LayersParts(start, dims), FlatMap(OptionParts(Previous(start, dims)), options));
  }

  lemma LayerPartsNodes(d: Dimension, sources: seq<string>, o: PossibilityObject)
    ensures Node(o) in LayerParts(d, sources) <==> exists a :: a in d.alternatives && o == LayerObject(d, a)
  {
    hide FlatMap;
    var f := AlternativeParts(d, sources);
    if Node(o) in LayerParts(d, sources) {
      var i := FlatMapSource(f, d.alternatives, Node(o));
      assert d.alternatives[i] in d.alternatives;
    }
    if a :| a in d.alternatives && o == LayerObject(d, a) {
      var i :| 0 <= i < |d.alternatives| && d.alternatives[i] == a;
      assert f(a)[0] == Node(o);
      FlatMapTarget(f, d.alternatives, i, Node(o));
    }
  }

  lemma {:induction false} LayersPartsNodes(start: PossibilityObject, dims: seq<Dimension>, o: PossibilityObject)
    ensures Node(o) in LayersParts(start, dims) <==> exists d, a :: d in dims && a in d.alternatives && o == LayerObject(d, a)
  {
    hide LayerParts;
    if dims != [] {
      var front, last := dims[..|dims| - 1], dims[|dims| - 1];
      FrontAndLast(dims);
      LayersPartsNodes(start, front, o);
      LayerPartsNodes(last, Previous(start, front), o);
      assert last in dims && forall d :: d in dims <==> d in front || d == last;
    }
  }

  lemma OptionPartsNodes(options: seq<IrreversibleOption>, sources: seq<string>, target: PossibilityObject)
    ensures Node(target) in FlatMap(OptionParts(sources), options) <==> exists o :: o in options && target == o.target
  {
    hide FlatMap;
    var f := OptionParts(sources);
    if Node(target) in FlatMap(f, options) {
      var i := FlatMapSource(f, options, Node(target));
      assert options[i] in options;
    }
    if o :| o in options && target == o.target {
      var i :| 0 <= i < |options| && options[i] == o;
      assert f(o)[0] == Node(target);
      FlatMapTarget(f, options, i, Node(target));
    }
  }

  lemma InAddedObjects(additions: seq<Addition>, o: PossibilityObject)
    ensures o in AddedObjects(additions) <==> Node(o) in additions
  {
  }

  lemma PartsObjects(start: PossibilityObject, dims: seq<Dimension>, options: seq<IrreversibleOption>)
    ensures {start} + AddedObjects(EcologyParts(start, dims, options)) == EcologyObjects(start, dims, options)
  {
    hide FlatMap;
    hide LayersParts;
    var parts := EcologyParts(start, dims, options);
    forall o ensures o in AddedObjects(parts) <==>
                     (exists d, a :: d in dims && a in d.alternatives && o == LayerObject(d, a)) ||
                     (exists x :: x in options && o == x.target)
    {
      InAddedObjects(parts, o);
      LayersPartsNodes(start, dims, o);
      OptionPartsNodes(options, Previous(start, dims), o);
    }
  }

  lemma PartsMorphisms(start: PossibilityObject, dims: seq<Dimension>, options: seq<IrreversibleOption>, m: Morphism)
    ensures m in AddedMorphisms(EcologyParts(start, dims, options)) <==>
            (exists k: nat :: IsLayerEdge(start, dims, k, m)) || IsOptionEdge(start, dims, options, m)
  {
    hide FlatMap;
    hide LayersParts;
    InAddedMorphisms(EcologyParts(start, dims, options), m);
    LayersPartsEdges(start, dims, m);
    OptionPartsEdges(options, Previous(start, dims), m);
    assert Previous(start, dims) == LayerAt(start, dims, |dims|);
  }

  lemma EcologyGraphExact(start: PossibilityObject, dims: seq<Dimension>, options: seq<IrreversibleOption>)
    ensures EcologyGraph(start, dims, options).Success? <==> Consistent(StartGraph(start), EcologyParts(start, dims, options))
    ensures EcologyGraph(start, dims, options).Success? ==>
              var g := EcologyGraph(start, dims, options).value;
              UniqueIds(g) && ToSet(g.objects) == EcologyObjects(start, dims, options)
  {
    hide EcologyGraph;
    hide EcologyParts;
    hide Consistent;
    EcologyIsAddAll(start, dims, options);
    AddAllExact(StartGraph(start), EcologyParts(start, dims, options));
    PartsObjects(start, dims, options);
    assert ToSet(StartGraph(start).objects) == {start};
  }

  lemma LayersNonEmpty(start: PossibilityObject, dims: seq<Dimension>, options: seq<IrreversibleOption>, k: nat)
    requires WellFormed(dims, options) && k <= |dims|
    ensures LayerAt(start, dims, k) != []
  {
    if k > 0 {
      assert dims[k - 1] in dims;
    }
  }

  /** The objects of a layer stand under its ids. */
  lemma LayerObjectsThere(start: PossibilityObject, dims: seq<Dimension>, options: seq<IrreversibleOption>, k: nat, id: string)
    requires k <= |dims| && id in LayerAt(start, dims, k)
    ensures exists o :: o in EcologyObjects(start, dims, options) && o.objectId == id
  {
    if k == 0 {
      assert start in EcologyObjects(start, dims, options);
    } else {
      var d := dims[k - 1];
      var i :| 0 <= i < |d.alternatives| && LayerIds(d)[i] == id;
      assert d in dims && d.alternatives[i] in d.alternatives;
      assert LayerObject(d, d.alternatives[i]) in EcologyObjects(start, dims, options);
    }
  }

  /** Although no validator runs over it, a manufactured ecology is a valid graph. */
  lemma EcologyIsValid(start: PossibilityObject, dims: seq<Dimension>, options: seq<IrreversibleOption>)
    requires EcologyOf(start, dims, options).Success?
    ensures EcologyOf(start, dims, options).value.graph.Valid()
    ensures ToSet(EcologyOf(start, dims, options).value.graph.objects) == EcologyObjects(start, dims, options)
  {
    EcologyGraphExact(start, dims, options);
    hide EcologyGraph;
    hide EcologyParts;
    hide EcologyObjects;
    var g := EcologyGraph(start, dims, options).value;
    forall m | m in g.morphisms ensures g.HasObject(m.sourceId) && g.HasObject(m.targetId) && ValidateMorphism(m).Success? {
      EcologyEdges(start, dims, options, m);
      PartsMorphisms(start, dims, options, m);
      EdgeEnds(start, dims, options, g, m);
    }
  }

  lemma EdgeEnds(start: PossibilityObject, dims: seq<Dimension>, options: seq<IrreversibleOption>, g: PossibilityGraph, m: Morphism)
    requires ToSet(g.objects) == EcologyObjects(start, dims, options)
    requires (exists k: nat :: IsLayerEdge(start, dims, k, m)) || IsOptionEdge(start, dims, options, m)
    ensures g.HasObject(m.sourceId) && g.HasObject(m.targetId)
  {
    var source, k: nat, target;
    if j: nat :| IsLayerEdge(start, dims, j, m) {
      var a;
      a, source :| a in dims[j].alternatives && source in LayerAt(start, dims, j) && m == LayerEdge(dims[j], a, source);
      k, target := j, LayerObject(dims[j], a);
      assert dims[j] in dims;
    } else {
      var o;
      o, source :| o in options && source in LayerAt(start, dims, |dims|) && m == OptionEdge(o, source);
      k, target := |dims|, o.target;
    }
    assert target in EcologyObjects(start, dims, options) && target in ToSet(g.objects);
    LayerObjectsThere(start, dims, options, k, source);
    var from :| from in EcologyObjects(start, dims, options) && from.objectId == source;
    assert from in ToSet(g.objects);
  }

  // ---------------------------------------------------------------- when manufacture succeeds

  /** Options that share id and target are the same edge. */
  ghost predicate OptionsAgree(options: seq<IrreversibleOption>) {
    forall o, x :: o in options && x in options && o.optionId == x.optionId && o.target.objectId == x.target.objectId ==>
      OptionEdge(o, "") == OptionEdge(x, "")
  }

  predicate Powerless(d: Dimension, a: Alternative) {
    !d.morphismKind.Actuate? && !a.requirements.executionGrantRequired
  }

  /** No edge of a layer asks for actuation or a grant. */
  ghost predicate LayersPowerless(dims: seq<Dimension>) {
    forall d, a :: d in dims && a in d.alternatives ==> Powerless(d, a)
  }

  lemma LayerEdgesAgree(start: PossibilityObject, dims: seq<Dimension>, options: seq<IrreversibleOption>,
                        j: nat, k: nat, m: Morphism, n: Morphism)
    requires WellFormed(dims, options) && !Combinations.Repeats(DimensionIds(dims))
    requires IsLayerEdge(start, dims, j, m) && IsLayerEdge(start, dims, k, n) && m.morphismId == n.morphismId
    ensures m == n
  {
    var a, source :| a in dims[j].alternatives && source in LayerAt(start, dims, j) && m == LayerEdge(dims[j], a, source);
    var b, source' :| b in dims[k].alternatives && source' in LayerAt(start, dims, k) && n == LayerEdge(dims[k], b, source');
    var ids := DimensionIds(dims);
    assert ids[j] == ids[k];
    assert j == k;
    NodeIdInjective(dims[j], a.alternativeId, b.alternativeId);
    assert dims[j] in dims;
    AlternativeUnique(dims[j], a);
    AlternativeUnique(dims[j], b);
  }

  lemma OptionEdgesAgree(start: PossibilityObject, dims: seq<Dimension>, options: seq<IrreversibleOption>, m: Morphism, n: Morphism)
    requires OptionsAgree(options)
    requires IsOptionEdge(start, dims, options, m) && IsOptionEdge(start, dims, options, n) && m.morphismId == n.morphismId
    ensures m == n
  {
    var o, source :| o in options && source in LayerAt(start, dims, |dims|) && m == OptionEdge(o, source);
    var x, source' :| x in options && source' in LayerAt(start, dims, |dims|) && n == OptionEdge(x, source');
    assert OptionEdge(o, "") == OptionEdge(x, "");
  }

  lemma EdgesAgreeIff(start: PossibilityObject, dims: seq<Dimension>, options: seq<IrreversibleOption>)
    requires WellFormed(dims, options) && !Combinations.Repeats(DimensionIds(dims))
    ensures MorphismsAgree(AddedMorphisms(EcologyParts(start, dims, options))) <==> OptionsAgree(options)
  {
    hide EcologyParts;
    var edges := AddedMorphisms(EcologyParts(start, dims, options));
    if OptionsAgree(options) {
      forall m, n | m in edges && n in edges && m.morphismId == n.morphismId ensures m == n {
        PartsMorphisms(start, dims, options, m);
        PartsMorphisms(start, dims, options, n);
        if j: nat, k: nat :| IsLayerEdge(start, dims, j, m) && IsLayerEdge(start, dims, k, n) {
          LayerEdgesAgree(start, dims, options, j, k, m, n);
        } else {
          assert IsOptionEdge(start, dims, options, m) && IsOptionEdge(start, dims, options, n);
          OptionEdgesAgree(start, dims, options, m, n);
        }
      }
    }
    if MorphismsAgree(edges) {
      LayersNonEmpty(start, dims, options, |dims|);
      var source := LayerAt(start, dims, |dims|)[0];
      forall o, x | o in options && x in options && o.optionId == x.optionId && o.target.objectId == x.target.objectId
        ensures OptionEdge(o, "") == OptionEdge(x, "")
      {
        var m, n := OptionEdge(o, source), OptionEdge(x, source);
        assert IsOptionEdge(start, dims, options, m) && IsOptionEdge(start, dims, options, n);
        PartsMorphisms(start, dims, options, m);
        PartsMorphisms(start, dims, options, n);
        assert m == n;
      }
    }
  }

  lemma EdgesPowerlessIff(start: PossibilityObject, dims: seq<Dimension>, options: seq<IrreversibleOption>)
    requires WellFormed(dims, options)
    ensures (forall m :: m in AddedMorphisms(EcologyParts(start, dims, options)) ==> ValidateMorphism(m).Success?) <==>
            LayersPowerless(dims)
  {
    hide EcologyParts;
    var edges := AddedMorphisms(EcologyParts(start, dims, options));
    if LayersPowerless(dims) {
      forall m | m in edges ensures ValidateMorphism(m).Success? {
        PartsMorphisms(start, dims, options, m);
        if k: nat :| IsLayerEdge(start, dims, k, m) {
          var a, source :| a in dims[k].alternatives && source in LayerAt(start, dims, k) && m == LayerEdge(dims[k], a, source);
          assert dims[k] in dims && Powerless(dims[k], a);
        }
      }
    }
    if forall m :: m in edges ==> ValidateMorphism(m).Success? {
      forall d: Dimension, a: Alternative | d in dims && a in d.alternatives
        ensures Powerless(d, a)
      {
        var k :| 0 <= k < |dims| && dims[k] == d;
        LayersNonEmpty(start, dims, options, k);
        var m := LayerEdge(d, a, LayerAt(start, dims, k)[0]);
        assert IsLayerEdge(start, dims, k, m);
        PartsMorphisms(start, dims, options, m);
        assert m in edges && ValidateMorphism(m).Success?;
        assert d.Valid();
      }
    }
  }

  /**
   When manufacture succeeds: no dimension id repeats, objects that share an id are equal, options
   that share id and target are equal, and no layer edge asks for actuation or a grant.
   */
  lemma EcologySucceedsIff(start: PossibilityObject, dims: seq<Dimension>, options: seq<IrreversibleOption>)
    requires WellFormed(dims, options)
    ensures EcologyOf(start, dims, options).Success? <==>
            && !Combinations.Repeats(DimensionIds(dims))
            && ObjectsAgree(EcologyObjects(start, dims, options))
            && OptionsAgree(options) && LayersPowerless(dims)
  {
    EcologyGraphExact(start, dims, options);
    hide EcologyGraph;
    if !Combinations.Repeats(DimensionIds(dims)) {
      EdgesAgreeIff(start, dims, options);
      EdgesPowerlessIff(start, dims, options);
      PartsObjects(start, dims, options);
      hide EcologyParts;
      hide EcologyObjects;
      var parts := EcologyParts(start, dims, options);
      assert ToSet(StartGraph(start).objects) == {start};
      assert ToSet(StartGraph(start).morphisms) == {};
      assert {} + AddedMorphisms(parts) == AddedMorphisms(parts);
    }
  }

  // ---------------------------------------------------------------- its size

  function NodeCount(additions: seq<Addition>): nat {
    if additions == [] then 0
    else NodeCount(additions[..|additions| - 1]) + if additions[|additions| - 1].Node? then 1 else 0
  }

  lemma {:induction false} NodeCountAppend(a: seq<Addition>, b: seq<Addition>)
    ensures NodeCount(a + b) == NodeCount(a) + NodeCount(b)
  {
    if b == [] {
      assert a + b == a;
    } else {
      assert (a + b)[..|a + b| - 1] == a + b[..|b| - 1];
      NodeCountAppend(a, b[..|b| - 1]);
    }
  }

  lemma {:induction false} NoNodes(edges: seq<Addition>)
    requires forall x :: x in edges ==> x.Edge?
    ensures NodeCount(edges) == 0
  {
    if edges != [] {
      assert edges[|edges| - 1] in edges;
      NoNodes(edges[..|edges| - 1]);
    }
  }

  lemma OneNode(x: Addition, edges: seq<Addition>)
    requires x.Node? && forall y :: y in edges ==> y.Edge?
    ensures NodeCount([x] + edges) == 1
  {
    NodeCountAppend([x], edges);
    NoNodes(edges);
    assert [x][..0] == [];
  }

  lemma {:induction false} OneNodeEach<A>(f: A -> seq<Addition>, s: seq<A>)
    requires forall x :: x in s ==> NodeCount(f(x)) == 1
    ensures NodeCount(FlatMap(f, s)) == |s|
  {
    if s != [] {
      OneNodeEach(f, s[..|s| - 1]);
      NodeCountAppend(FlatMap(f, s[..|s| - 1]), f(s[|s| - 1]));
    }
  }

  /** The number of alternatives, all dimensions together. */
  function AlternativeCount(dims: seq<Dimension>): nat {
    if dims == [] then 0 else AlternativeCount(dims[..|dims| - 1]) + |dims[|dims| - 1].alternatives|
  }

  lemma {:induction false} LayersNodeCount(start: PossibilityObject, dims: seq<Dimension>)
    ensures NodeCount(LayersParts(start, dims)) == AlternativeCount(dims)
  {
    if dims != [] {
      var front, d := dims[..|dims| - 1], dims[|dims| - 1];
      var f := AlternativeParts(d, Previous(start, front));
      LayersNodeCount(start, front);
      forall a | a in d.alternatives ensures NodeCount(f(a)) == 1 {
        OneNode(Node(LayerObject(d, a)), EdgesFrom(d, a, Previous(start, front)));
      }
      OneNodeEach(f, d.alternatives);
      NodeCountAppend(LayersParts(start, front), LayerParts(d, Previous(start, front)));
    }
  }

  lemma {:induction false} AddAllSize(g: PossibilityGraph, additions: seq<Addition>)
    requires AddAll(g, additions).Success?
    ensures |AddAll(g, additions).value.objects| <= |g.objects| + NodeCount(additions)
  {
    if additions != [] {
      AddAllSize(g, additions[..|additions| - 1]);
    }
  }

  /** The ecology has no more objects than its start, its alternatives and its options together. */
  lemma EcologyIsSmall(start: PossibilityObject, dims: seq<Dimension>, options: seq<IrreversibleOption>)
    requires EcologyOf(start, dims, options).Success?
    ensures |EcologyOf(start, dims, options).value.graph.objects| <= 1 + AlternativeCount(dims) + |options|
  {
    hide FlatMap;
    hide LayersParts;
    var f := OptionParts(Previous(start, dims));
    EcologyIsAddAll(start, dims, options);
    AddAllSize(StartGraph(start), EcologyParts(start, dims, options));
    hide EcologyGraph;
    NodeCountAppend(LayersParts(start, dims), FlatMap(f, options));
    LayersNodeCount(start, dims);
    forall o | o in options ensures NodeCount(f(o)) == 1 {
      OneNode(Node(o.target), OptionEdges(o, Previous(start, dims)));
    }
    OneNodeEach(f, options);
  }

  // ---------------------------------------------------------------- an ecology whose ids collide

  const NO_REQUIREMENTS := Requirements([], [], [], None, false)

  function PlainAlternative(id: string): Alternative {
    Alternative(id, "urn:example:meaning", [], Possibility.Candidate, [], NO_REQUIREMENTS, NO_OBJECTIVES, NO_ATTRIBUTES)
  }

  function PlainDimension(id: string, alternativeId: string): Dimension {
    Dimension(id, Capability, Enable, Construct, Reversible, [PlainAlternative(alternativeId)])
  }

  /** Two dimensions of one alternative each, whose joined ids are both "a:b:c". */
  const COLLIDING := [PlainDimension("a", "b:c"), PlainDimension("a:b", "c")]

  const SOMEWHERE := PossibilityObject("s", Subject, "urn:example:start", None, [], Possibility.Candidate, [], NO_ATTRIBUTES)

  lemma JoinedIdsCoincide()
    ensures NodeId(COLLIDING[0], "b:c") == "a:b:c" == NodeId(COLLIDING[1], "c")
  {
    assert ("a" + ":") + "b:c" == "a:b:c" == ("a:b" + ":") + "c";
  }

  /**
   The colon that joins ids can hide a collision from every check: this ecology is manufactured, it
   announces one path, and its full walks are endless.
   */
  lemma JoinedIdsCanCollide()
    ensures WellFormed(COLLIDING, []) && EcologyOf(SOMEWHERE, COLLIDING, []).Success?
    ensures EcologyOf(SOMEWHERE, COLLIDING, []).value.reversiblePathCardinality == 1
    ensures !DistinctIds(SOMEWHERE, COLLIDING)
    ensures forall walks :: !AreTheFullWalks(walks, EcologyOf(SOMEWHERE, COLLIDING, []).value.graph, SOMEWHERE, COLLIDING)
  {
    JoinedIdsCoincide();
    CollidingIsWellFormed();
    CollidingObjectsAgree();
    CollidingDimensionsDiffer();
    EcologySucceedsIff(SOMEWHERE, COLLIDING, []);
    assert "a:b:c" in LayerAt(SOMEWHERE, COLLIDING, 1) by {
      assert LayerIds(COLLIDING[0])[0] == "a:b:c";
    }
    assert "a:b:c" in LayerAt(SOMEWHERE, COLLIDING, 2) by {
      assert LayerIds(COLLIDING[1])[0] == "a:b:c";
    }
    CollidingCardinality();
    forall walks ensures !AreTheFullWalks(walks, EcologyOf(SOMEWHERE, COLLIDING, []).value.graph, SOMEWHERE, COLLIDING) {
      CollisionsMakeWalksEndless(SOMEWHERE, COLLIDING, [], walks);
    }
  }

  lemma CollidingIsWellFormed()
    ensures WellFormed(COLLIDING, []) && LayersPowerless(COLLIDING) && OptionsAgree([])
  {
    forall d | d in COLLIDING ensures d.Valid() && forall a :: a in d.alternatives ==> Powerless(d, a) {
      assert d == COLLIDING[0] || d == COLLIDING[1];
    }
  }

  lemma CollidingObjectsAgree()
    ensures ObjectsAgree(EcologyObjects(SOMEWHERE, COLLIDING, []))
  {
    JoinedIdsCoincide();
    var node := LayerObject(COLLIDING[0], COLLIDING[0].alternatives[0]);
    assert node == LayerObject(COLLIDING[1], COLLIDING[1].alternatives[0]);
    forall o | o in EcologyObjects(SOMEWHERE, COLLIDING, []) ensures o == SOMEWHERE || o == node {
      if o != SOMEWHERE {
        var d, a :| d in COLLIDING && a in d.alternatives && o == LayerObject(d, a);
        assert d == COLLIDING[0] || d == COLLIDING[1];
      }
    }
    assert SOMEWHERE.objectId != "a:b:c";
  }

  lemma CollidingDimensionsDiffer()
    ensures !Combinations.Repeats(DimensionIds(COLLIDING))
  {
    assert DimensionIds(COLLIDING) == ["a", "a:b"];
    assert "a" != "a:b";
  }

  lemma CollidingCardinality()
    ensures PathCardinality(COLLIDING) == 1
  {
    assert COLLIDING[..1] == [COLLIDING[0]] && COLLIDING[..1][..0] == [];
    assert PathCardinality(COLLIDING[..1]) == 1;
  }

  // ---------------------------------------------------------------- counting irreversible choices

  predicate SameOption(o: IrreversibleOption, x: IrreversibleOption) {
    o.optionId == x.optionId && o.target.objectId == x.target.objectId
  }

  predicate HasOption(options: seq<IrreversibleOption>, o: IrreversibleOption) {
    exists x :: x in options && SameOption(o, x)
  }

  /** The options, without those that repeat an earlier one's id and target. */
  function FirstOptions(options: seq<IrreversibleOption>): (first: seq<IrreversibleOption>)
    ensures |first| <= |options|
  {
    if options == [] then []
    else
      var front, last := options[..|options| - 1], options[|options| - 1];
      FirstOptions(front) + if HasOption(front, last) then [] else [last]
  }

  lemma {:induction false} FirstOptionsRepresent(options: seq<IrreversibleOption>, o: IrreversibleOption)
    ensures o in FirstOptions(options) ==> o in options
    ensures o in options ==> HasOption(FirstOptions(options), o)
  {
    if options != [] {
      var front, last := options[..|options| - 1], options[|options| - 1];
      FrontAndLast(options);
      FirstOptionsRepresent(front, o);
      if o in front {
        HasOptionLonger(FirstOptions(front), FirstOptions(options), o);
      } else if o == last && HasOption(front, last) {
        var x :| x in front && SameOption(last, x);
        FirstOptionsRepresent(front, x);
        var y :| y in FirstOptions(front) && SameOption(x, y);
        assert y in FirstOptions(options) && SameOption(last, y);
      } else if o == last {
        assert last in FirstOptions(options) && SameOption(last, last);
      }
    }
  }

  lemma HasOptionLonger(some: seq<IrreversibleOption>, more: seq<IrreversibleOption>, o: IrreversibleOption)
    requires some <= more && HasOption(some, o)
    ensures HasOption(more, o)
  {
    var x :| x in some && SameOption(o, x);
    var i :| 0 <= i < |some| && some[i] == x;
    assert more[i] == x;
  }

  lemma {:induction false} FirstOptionsDistinct(options: seq<IrreversibleOption>)
    ensures DistinctOptions(FirstOptions(options))
    ensures |FirstOptions(options)| == |options| <==> DistinctOptions(options)
  {
    hide HasOption;
    if options != [] {
      var front, last := options[..|options| - 1], options[|options| - 1];
      FrontAndLast(options);
      FirstOptionsDistinct(front);
      LastOption(front, last);
      if !HasOption(front, last) {
        NotAmongFirst(front, last);
        LastOption(FirstOptions(front), last);
      }
    }
  }

  lemma NotAmongFirst(front: seq<IrreversibleOption>, o: IrreversibleOption)
    requires !HasOption(front, o)
    ensures !HasOption(FirstOptions(front), o)
  {
    if x :| x in FirstOptions(front) && SameOption(o, x) {
      FirstOptionsRepresent(front, x);
    }
  }

  lemma LastOption(front: seq<IrreversibleOption>, last: IrreversibleOption)
    ensures DistinctOptions(front + [last]) <==> DistinctOptions(front) && !HasOption(front, last)
  {
    var options := front + [last];
    if x :| x in front && SameOption(last, x) {
      var i :| 0 <= i < |front| && front[i] == x;
      assert options[i] == x && options[|front|] == last;
    }
    if DistinctOptions(options) {
      assert forall i, j :: 0 <= i < j < |front| ==> front[i] == options[i] && front[j] == options[j];
    }
    if DistinctOptions(front) && !HasOption(front, last) {
      forall i | 0 <= i < |front| ensures !SameOption(options[i], last) {
        assert front[i] in front;
        assert !SameOption(last, front[i]);
      }
    }
  }

  lemma FirstOptionsExact(options: seq<IrreversibleOption>)
    ensures DistinctOptions(FirstOptions(options))
    ensures forall o :: o in FirstOptions(options) ==> o in options
    ensures forall o :: o in options ==> HasOption(FirstOptions(options), o)
    ensures |FirstOptions(options)| == |options| <==> DistinctOptions(options)
  {
    FirstOptionsDistinct(options);
    forall o ensures (o in FirstOptions(options) ==> o in options) && (o in options ==> HasOption(FirstOptions(options), o)) {
      FirstOptionsRepresent(options, o);
    }
  }

  /** The DO edges at the end of a walk are those of the first options. */
  lemma FirstOptionsSuffice(options: seq<IrreversibleOption>, source: string, e: Morphism)
    requires OptionsAgree(options)
    ensures (exists o :: o in options && e == OptionEdge(o, source)) <==>
            (exists o :: o in FirstOptions(options) && e == OptionEdge(o, source))
  {
    FirstOptionsExact(options);
    if o :| o in options && e == OptionEdge(o, source) {
      assert HasOption(FirstOptions(options), o);
      var x :| x in FirstOptions(options) && SameOption(o, x);
      assert x in options;
      assert OptionEdge(o, "") == OptionEdge(x, "");
      assert e == OptionEdge(x, source);
    }
  }

  /** The full walks with a DO edge at their end, each pair once. */
  lemma IrreversiblePairs(start: PossibilityObject, dims: seq<Dimension>, options: seq<IrreversibleOption>)
    returns (pairs: seq<(seq<Morphism>, Morphism)>)
    requires WellFormed(dims, options) && DistinctIds(start, dims) && EcologyOf(start, dims, options).Success?
    ensures NoDup(pairs) && |pairs| == PathCardinality(dims) * |FirstOptions(options)|
    ensures var g := EcologyOf(start, dims, options).value.graph;
            forall p :: p in pairs <==> IrreversibleChoice(g, start, dims, p.0, p.1)
  {
    hide FlatMap;
    hide EcologyGraph;
    hide FirstOptions;
    EcologySucceedsIff(start, dims, options);
    FirstOptionsExact(options);
    var walks := FullWalkList(start, dims, options);
    var f := PairsAt(start, FirstOptions(options));
    pairs := FlatMap(f, walks);
    forall w | w in walks ensures NoDup(f(w)) && |f(w)| == |FirstOptions(options)| {
      PairsAtFacts(start, FirstOptions(options), w);
    }
    forall w, x, p | w in walks && x in walks && p in f(w) && p in f(x) ensures w == x {
      PairsAtFacts(start, FirstOptions(options), w);
      PairsAtFacts(start, FirstOptions(options), x);
    }
    FlatMapNoDup(f, walks);
    CartesianProduct.UniformLength(f, walks, |FirstOptions(options)|);
    forall p: (seq<Morphism>, Morphism)
      ensures p in pairs <==> IrreversibleChoice(EcologyOf(start, dims, options).value.graph, start, dims, p.0, p.1)
    {
      PairExact(start, dims, options, walks, p);
    }
  }

  lemma PairExact(start: PossibilityObject, dims: seq<Dimension>, options: seq<IrreversibleOption>,
                  walks: seq<seq<Morphism>>, p: (seq<Morphism>, Morphism))
    requires WellFormed(dims, options) && OptionsAgree(options) && EcologyOf(start, dims, options).Success?
    requires forall edges :: edges in walks <==> FullWalk(EcologyOf(start, dims, options).value.graph, start, dims, edges)
    ensures p in FlatMap(PairsAt(start, FirstOptions(options)), walks) <==>
            IrreversibleChoice(EcologyOf(start, dims, options).value.graph, start, dims, p.0, p.1)
  {
    hide FlatMap;
    hide EcologyGraph;
    hide FirstOptions;
    hide OptionsAgree;
    FirstOptionsExact(options);
    FirstOptionsSuffice(options, EndOf(start.objectId, p.0), p.1);
    var f := PairsAt(start, FirstOptions(options));
    if p in FlatMap(f, walks) {
      var i := FlatMapSource(f, walks, p);
      assert walks[i] in walks;
      PairsAtFacts(start, FirstOptions(options), walks[i]);
      DoEdgesAtTheEnd(start, dims, options, walks[i], p.1);
    }
    if IrreversibleChoice(EcologyOf(start, dims, options).value.graph, start, dims, p.0, p.1) {
      DoEdgesAtTheEnd(start, dims, options, p.0, p.1);
      PairsAtFacts(start, FirstOptions(options), p.0);
      var i :| 0 <= i < |walks| && walks[i] == p.0;
      FlatMapTarget(f, walks, i, p);
    }
  }

  ghost predicate AreTheIrreversibleChoices(pairs: set<(seq<Morphism>, Morphism)>, g: PossibilityGraph,
                                            start: PossibilityObject, dims: seq<Dimension>) {
    forall p :: p in pairs <==> IrreversibleChoice(g, start, dims, p.0, p.1)
  }

  /**
   Full walks with a DO edge at their end number exactly `irreversibleChoiceCardinality` if and only
   if no option repeats another's id and target; a repeated one is counted but adds no edge.
   */
  lemma EcologyCountsIrreversibleChoices(start: PossibilityObject, dims: seq<Dimension>, options: seq<IrreversibleOption>)
    requires WellFormed(dims, options) && DistinctIds(start, dims) && EcologyOf(start, dims, options).Success?
    ensures var e := EcologyOf(start, dims, options).value;
            DistinctOptions(options) <==>
            exists pairs :: |pairs| == e.irreversibleChoiceCardinality && AreTheIrreversibleChoices(pairs, e.graph, start, dims)
  {
    hide EcologyGraph;
    hide IrreversibleChoice;
    var e := EcologyOf(start, dims, options).value;
    var list := IrreversiblePairs(start, dims, options);
    var n, all, first := PathCardinality(dims), |options|, |FirstOptions(options)|;
    SizeOfToSet(list);
    FirstOptionsExact(options);
    PathCardinalityPositive(dims, options);
    assert AreTheIrreversibleChoices(ToSet(list), e.graph, start, dims);
    if pairs :| |pairs| == e.irreversibleChoiceCardinality && AreTheIrreversibleChoices(pairs, e.graph, start, dims) {
      assert pairs == ToSet(list);
      LessTimes(n, first, all);
    }
  }

  /** A concrete miscount: the same option twice is manufactured and announces two choices that are not there. */
  lemma RepeatedOptionIsOvercounted(o: IrreversibleOption)
    requires o.Valid() && o.target.objectId != SOMEWHERE.objectId
    ensures WellFormed([], [o, o]) && EcologyOf(SOMEWHERE, [], [o, o]).Success? && !DistinctOptions([o, o])
    ensures var e := EcologyOf(SOMEWHERE, [], [o, o]).value;
            && e.irreversibleChoiceCardinality == 2
            && forall pairs :: AreTheIrreversibleChoices(pairs, e.graph, SOMEWHERE, []) ==> |pairs| != 2
  {
    EcologySucceedsIff(SOMEWHERE, [], [o, o]);
    assert !DistinctOptions([o, o]) by {
      assert [o, o][0] == [o, o][1];
    }
    EcologyCountsIrreversibleChoices(SOMEWHERE, [], [o, o]);
  }

  lemma LessTimes(n: nat, a: nat, b: nat)
    requires n >= 1 && a <= b
    ensures n * a == n * b <==> a == b
  {
    assert n * b - n * a == n * (b - a);
  }

  lemma {:induction false} PathCardinalityPositive(dims: seq<Dimension>, options: seq<IrreversibleOption>)
    requires WellFormed(dims, options)
    ensures PathCardinality(dims) >= 1
  {
    if dims != [] {
      PathCardinalityPositive(dims[..|dims| - 1], options);
      assert dims[|dims| - 1] in dims;
      var a, b := PathCardinality(dims[..|dims| - 1]), |dims[|dims| - 1].alternatives|;
      assert a * b >= 1 by { LessTimes(a, 0, b); }
    }
  }
}
