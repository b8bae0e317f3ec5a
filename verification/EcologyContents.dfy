/** What a manufactured ecology is made of, field by field, and what exploring it can pass through. */
module EcologyContents {
  import opened Outcomes
  import opened Sequences
  import opened Possibility
  import opened Exploration
  import opened Closure
  import opened Ecology
  import opened EcologyWalks
  import opened EcologyLaws
  import AdmissionContexts

  /** The id is one that layer `k` stands under: the start's, or a dimension's joined with one of its alternatives'. */
  ghost predicate NamesLayer(start: PossibilityObject, dims: seq<Dimension>, k: nat, id: string)
    requires k <= |dims|
  {
    if k == 0 then id == start.objectId
    else exists a :: a in dims[k - 1].alternatives && id == dims[k - 1].dimensionId + ":" + a.alternativeId
  }

  /** The object of an alternative. */
  ghost predicate StandsFor(o: PossibilityObject, d: Dimension, a: Alternative) {
    && o.objectId == d.dimensionId + ":" + a.alternativeId
    && o.kind == d.objectKind && o.semanticRef == a.semanticRef && o.revision == None
    && o.ontologyRefs == a.ontologyRefs && o.standing == a.standing
    && o.evidenceRefs == a.evidenceRefs && o.attributes == a.attributes
  }

  /** An edge that takes an alternative: what it does is the dimension's, what it needs, costs and stands at the alternative's. */
  ghost predicate Takes(m: Morphism, d: Dimension, a: Alternative) {
    && m.targetId == d.dimensionId + ":" + a.alternativeId
    && m.morphismId == LayerDigest(d.dimensionId, m.sourceId, m.targetId)
    && m.kind == d.morphismKind && m.phase == d.phase && m.reversal == d.reversal
    && m.requirements == a.requirements && m.objectives == a.objectives && m.standing == a.standing
    && m.evidenceRefs == a.evidenceRefs && m.attributes == Attributes(None, map[])
  }

  /** A DO edge that takes an irreversible option. */
  ghost predicate TakesOption(m: Morphism, o: IrreversibleOption) {
    && m.targetId == o.target.objectId
    && m.morphismId == OptionDigest(o.optionId, m.sourceId, m.targetId)
    && m.kind == o.morphismKind && m.phase == Do && m.reversal == o.reversal
    && m.requirements == o.requirements && m.objectives == o.objectives && m.standing == o.standing
    && m.evidenceRefs == o.evidenceRefs && m.attributes == Attributes(o.binding, map[])
  }

  ghost predicate TakesLayer(start: PossibilityObject, dims: seq<Dimension>, k: nat, a: Alternative, m: Morphism) {
    && k < |dims| && a in dims[k].alternatives && NamesLayer(start, dims, k, m.sourceId) && Takes(m, dims[k], a)
  }

  ghost predicate TakesLast(start: PossibilityObject, dims: seq<Dimension>, options: seq<IrreversibleOption>,
                            o: IrreversibleOption, m: Morphism)
  {
    o in options && NamesLayer(start, dims, |dims|, m.sourceId) && TakesOption(m, o)
  }

  lemma LayerNames(start: PossibilityObject, dims: seq<Dimension>, k: nat, id: string)
    requires k <= |dims|
    ensures id in LayerAt(start, dims, k) <==> NamesLayer(start, dims, k, id)
  {
    if k > 0 {
      var d := dims[k - 1];
      if id in LayerIds(d) {
        var i :| 0 <= i < |LayerIds(d)| && LayerIds(d)[i] == id;
        assert d.alternatives[i] in d.alternatives;
      }
      if a :| a in d.alternatives && id == d.dimensionId + ":" + a.alternativeId {
        var i :| 0 <= i < |d.alternatives| && d.alternatives[i] == a;
        assert LayerIds(d)[i] == id;
      }
    }
  }

  lemma LayerEdgeTakes(m: Morphism, d: Dimension, a: Alternative)
    ensures Takes(m, d, a) <==> m == LayerEdge(d, a, m.sourceId)
  {
  }

  lemma OptionEdgeTakes(m: Morphism, o: IrreversibleOption)
    ensures TakesOption(m, o) <==> m == OptionEdge(o, m.sourceId)
  {
  }

  lemma LayerEdgesTake(start: PossibilityObject, dims: seq<Dimension>, k: nat, m: Morphism)
    ensures IsLayerEdge(start, dims, k, m) <==> exists a :: TakesLayer(start, dims, k, a, m)
  {
    if k < |dims| {
      LayerNames(start, dims, k, m.sourceId);
      forall a ensures Takes(m, dims[k], a) <==> m == LayerEdge(dims[k], a, m.sourceId) {
        LayerEdgeTakes(m, dims[k], a);
      }
      hide Takes;
      hide NamesLayer;
      hide LayerAt;
      if a :| TakesLayer(start, dims, k, a, m) {
        assert a in dims[k].alternatives && m.sourceId in LayerAt(start, dims, k) && m == LayerEdge(dims[k], a, m.sourceId);
      }
      if a, source :| a in dims[k].alternatives && source in LayerAt(start, dims, k) && m == LayerEdge(dims[k], a, source) {
        assert TakesLayer(start, dims, k, a, m);
      }
    }
  }

  lemma OptionEdgesTake(start: PossibilityObject, dims: seq<Dimension>, options: seq<IrreversibleOption>, m: Morphism)
    ensures IsOptionEdge(start, dims, options, m) <==> exists o :: TakesLast(start, dims, options, o, m)
  {
    LayerNames(start, dims, |dims|, m.sourceId);
    forall o ensures TakesOption(m, o) <==> m == OptionEdge(o, m.sourceId) {
      OptionEdgeTakes(m, o);
    }
    hide TakesOption;
    hide NamesLayer;
    hide LayerAt;
    if o :| TakesLast(start, dims, options, o, m) {
      assert o in options && m.sourceId in LayerAt(start, dims, |dims|) && m == OptionEdge(o, m.sourceId);
    }
    if o, source :| o in options && source in LayerAt(start, dims, |dims|) && m == OptionEdge(o, source) {
      assert TakesLast(start, dims, options, o, m);
    }
  }

  /**
   The edges of a manufactured ecology: for each dimension, one from every id of the layer before to every
   alternative, with the dimension's kind, phase and reversal and the alternative's requirements, objectives,
   standing and evidence; for each option, a DO edge from every id of the last layer, with the option's fields
   and binding; and no others.
   */
  lemma EdgesExact(start: PossibilityObject, dims: seq<Dimension>, options: seq<IrreversibleOption>, m: Morphism)
    requires EcologyOf(start, dims, options).Success?
    ensures m in EcologyOf(start, dims, options).value.graph.morphisms <==>
            || (exists k: nat, a :: TakesLayer(start, dims, k, a, m))
            || (exists o :: TakesLast(start, dims, options, o, m))
  {
    hide EcologyGraph;
    hide IsLayerEdge;
    hide IsOptionEdge;
    hide TakesLayer;
    hide TakesLast;
    EcologyEdges(start, dims, options, m);
    forall k: nat ensures IsLayerEdge(start, dims, k, m) <==> exists a :: TakesLayer(start, dims, k, a, m) {
      LayerEdgesTake(start, dims, k, m);
    }
    OptionEdgesTake(start, dims, options, m);
    if k: nat :| IsLayerEdge(start, dims, k, m) {
      var a :| TakesLayer(start, dims, k, a, m);
    }
    if k: nat, a :| TakesLayer(start, dims, k, a, m) {
      assert IsLayerEdge(start, dims, k, m);
    }
  }

  /** Its objects are the start, one for each alternative with the fields of dimension and alternative, and the targets of the options. */
  lemma ObjectsExact(start: PossibilityObject, dims: seq<Dimension>, options: seq<IrreversibleOption>, o: PossibilityObject)
    requires WellFormed(dims, options) && EcologyOf(start, dims, options).Success?
    ensures o in EcologyOf(start, dims, options).value.graph.objects <==>
            || o == start
            || (exists d, a :: d in dims && a in d.alternatives && StandsFor(o, d, a))
            || (exists x :: x in options && o == x.target)
  {
    hide EcologyGraph;
    EcologyIsValid(start, dims, options);
    var g := EcologyOf(start, dims, options).value.graph;
    assert o in g.objects <==> o in ToSet(g.objects);
    forall d, a ensures StandsFor(o, d, a) <==> o == LayerObject(d, a) {
    }
    hide StandsFor;
  }

  /** Its factors are the dimensions: their ids and, in order, the ids of their alternatives. */
  lemma FactorsExact(start: PossibilityObject, dims: seq<Dimension>, options: seq<IrreversibleOption>)
    requires EcologyOf(start, dims, options).Success?
    ensures var factors := EcologyOf(start, dims, options).value.factors;
            && |factors| == |dims|
            && forall i :: 0 <= i < |dims| ==>
                 && factors[i].factorId == dims[i].dimensionId && |factors[i].alternatives| == |dims[i].alternatives|
                 && forall j :: 0 <= j < |dims[i].alternatives| ==>
                      factors[i].alternatives[j] == dims[i].alternatives[j].alternativeId
  {
    hide EcologyGraph;
  }

  /** A manufacture that fails names a repeated dimension id, where there is one, and a clash in the graph otherwise. */
  lemma ManufactureErrors(start: PossibilityObject, dims: seq<Dimension>, options: seq<IrreversibleOption>)
    requires EcologyOf(start, dims, options).Failure?
    ensures EcologyOf(start, dims, options).error.DuplicateDimensionId? <==>
            exists i, j :: 0 <= i < j < |dims| && dims[i].dimensionId == dims[j].dimensionId
  {
    hide EcologyGraph;
    var ids := DimensionIds(dims);
    if Combinations.Repeats(ids) {
      var i, j :| 0 <= i < j < |ids| && ids[i] == ids[j];
      assert dims[i].dimensionId == dims[j].dimensionId;
    }
    if i, j :| 0 <= i < j < |dims| && dims[i].dimensionId == dims[j].dimensionId {
      assert ids[i] == ids[j];
    }
  }

  /** The alternative can be taken under the context: nothing about its standing, requirements or revision stands in the way. */
  ghost predicate Open(a: Alternative, context: AdmissionContext) {
    && a.standing !in {Blocked, Unsupported, Refused, Stale}
    && (forall r :: r in a.requirements.capabilityRefs ==> r in context.capabilityRefs)
    && (forall r :: r in a.requirements.policyRefs ==> r in context.policyRefs)
    && (forall r :: r in a.requirements.evidenceRefs ==> r in context.evidenceRefs)
    && (a.requirements.requiredRevision.Some? ==> context.currentRevision == a.requirements.requiredRevision)
  }

  ghost predicate IsOpen(dims: seq<Dimension>, context: AdmissionContext, id: string) {
    exists d, a :: d in dims && a in d.alternatives && id == d.dimensionId + ":" + a.alternativeId && Open(a, context)
  }

  lemma AdmittedIsOpen(start: PossibilityObject, dims: seq<Dimension>, options: seq<IrreversibleOption>,
                       context: AdmissionContext, m: Morphism)
    requires EcologyOf(start, dims, options).Success? && m in EcologyOf(start, dims, options).value.graph.morphisms
    requires !m.phase.Do? && Evaluate(m, context).admitted
    ensures IsOpen(dims, context, m.targetId)
  {
    EdgesExact(start, dims, options, m);
    hide EcologyOf;
    AdmissionContexts.VerdictExact(m, context);
    var k: nat, a :| TakesLayer(start, dims, k, a, m);
    hide NamesLayer;
    hide Evaluate;
    assert !AdmissionContexts.Obstacle(m, context, EdgeStanding(m.standing));
    assert !AdmissionContexts.Obstacle(m, context, RequiredCapabilityUnavailable);
    assert !AdmissionContexts.Obstacle(m, context, PolicyNotAdmitted);
    assert !AdmissionContexts.Obstacle(m, context, RequiredEvidenceMissing);
    assert !AdmissionContexts.Obstacle(m, context, RevisionMismatch);
    assert dims[k] in dims && Open(a, context);
  }

  /**
   Exploring an ecology, cut short or not, no path passes an alternative that is blocked, unsupported, refused
   or stale, or whose capabilities, policies, evidence or revision the context lacks: every object behind the
   start stands for an alternative that is open.
   */
  lemma PathsPassOpenAlternatives(start: PossibilityObject, dims: seq<Dimension>, options: seq<IrreversibleOption>,
                                  context: AdmissionContext, bounds: ExplorationBounds, starts: seq<string>, q: Path, i: nat)
    requires WellFormed(dims, options) && EcologyOf(start, dims, options).Success?
    requires q in Explored(SearchUnder(EcologyOf(start, dims, options).value.graph, context, bounds), starts).paths
    requires 1 <= i < |q.objectIds|
    ensures IsOpen(dims, context, q.objectIds[i])
  {
    hide EcologyGraph;
    hide Explored;
    hide Evaluate;
    EcologyIsValid(start, dims, options);
    var s := SearchUnder(EcologyOf(start, dims, options).value.graph, context, bounds);
    EmittedPathsSound(s, starts);
    var from, edges :| from in starts && edges != [] && ClosureWalk(s, from, edges) && Records(q, from, edges);
    assert edges[i - 1] in edges;
    AdmittedIsOpen(start, dims, options, context, edges[i - 1]);
  }
}
