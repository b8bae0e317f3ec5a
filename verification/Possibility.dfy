/**
 The powerless possibility graph of `src/gymact/combinatorial.py`: typed objects and
 morphisms, their validators, edge admission, and the ways a graph grows.

 Digests are injective in this model, so the value a digest is taken of stands for the
 digest: a path is its own `path_id`, a graph its own `graph_digest`.
 */
module Possibility {
  import opened Outcomes

  datatype Standing =
    | Unknown | Candidate | Structural | PartialAlive | Alive | Adopted | Blocked
    | BuildBroken | Unsupported | RequiresConfiguration | Refused | Uncertain | Stale

  datatype ReversalClass = Reversible | Compensatable | Irreversible | UnknownReversal

  datatype ObjectKind =
    | Observation | AdmittedObservation | Subject | Capability | Action | PlanObject | Provider
    | Planner | Verifier | Policy | Controller | Process | Receipt

  datatype MorphismKind =
    | Observe | Admit | Enable | Realize | Plan | Project | Manufacture | Verify
    | Compensate | Reverse | Actuate | Replay | Reuse

  datatype DecisionPhase = Select | Construct | Do

  datatype ConsequenceBinding = ConsequenceBinding(
    actionRef: string, subjectRef: string, capabilityRef: string, verifierRef: string,
    expectedEffectDigest: string)

  /** The attribute dictionary: the typed binding entry, if any, and the remaining entries. */
  datatype Attributes = Attributes(binding: Option<ConsequenceBinding>, entries: map<string, string>)

  const NO_ATTRIBUTES := Attributes(None, map[])

  type NonNegative = x: real | 0.0 <= x
  type Confidence = n: nat | n <= 4

  datatype ObjectiveVector = ObjectiveVector(
    monetaryCost: NonNegative, wallTime: NonNegative, computeUnits: NonNegative,
    humanInterventions: NonNegative, riskScore: NonNegative,
    verificationConfidence: Confidence, expectedValue: real)
  {
    /** Sequential composition: costs add up, confidence is the bottleneck. */
    function Compose(other: ObjectiveVector): ObjectiveVector {
      ObjectiveVector(
        monetaryCost + other.monetaryCost,
        wallTime + other.wallTime,
        computeUnits + other.computeUnits,
        humanInterventions + other.humanInterventions,
        riskScore + other.riskScore,
        if verificationConfidence <= other.verificationConfidence
        then verificationConfidence else other.verificationConfidence,
        expectedValue + other.expectedValue)
    }
  }

  const NO_OBJECTIVES := ObjectiveVector(0.0, 0.0, 0.0, 0.0, 0.0, 4, 0.0)

  datatype PossibilityObject = PossibilityObject(
    objectId: string, kind: ObjectKind, semanticRef: string, revision: Option<string>,
    ontologyRefs: seq<string>, standing: Standing, evidenceRefs: seq<string>,
    attributes: Attributes)

  datatype Requirements = Requirements(
    capabilityRefs: seq<string>, policyRefs: seq<string>, evidenceRefs: seq<string>,
    requiredRevision: Option<string>, executionGrantRequired: bool)

  /** Free text, or the digest of the three-field payload an ecology edge is named by. */
  datatype MorphismId =
    | Text(text: string)
    | LayerDigest(dimension: string, source: string, target: string)
    | OptionDigest(option: string, source: string, target: string)

  datatype Morphism = Morphism(
    morphismId: MorphismId, sourceId: string, targetId: string, kind: MorphismKind,
    phase: DecisionPhase, reversal: ReversalClass, requirements: Requirements,
    objectives: ObjectiveVector, standing: Standing, evidenceRefs: seq<string>,
    attributes: Attributes)

  datatype GraphError =
    | ActuationMustBeDo | DoRequiresGrant | NonDoCannotRequireGrant
    | ObjectIdentityConflict | MorphismIdentityConflict
    | DuplicateObjectId | DuplicateMorphismId | EndpointNotInGraph

  /** The model validator every constructed morphism passes through. */
  function ValidateMorphism(m: Morphism): Result<Morphism, GraphError> {
    if m.kind.Actuate? && !m.phase.Do? then Failure(ActuationMustBeDo)
    else if m.phase.Do? && !m.requirements.executionGrantRequired then Failure(DoRequiresGrant)
    else if !m.phase.Do? && m.requirements.executionGrantRequired then Failure(NonDoCannotRequireGrant)
    else Success(m)
  }

  datatype PossibilityGraph = PossibilityGraph(objects: seq<PossibilityObject>, morphisms: seq<Morphism>) {

    predicate UniqueObjectIds() {
      forall i, j :: 0 <= i < j < |objects| ==> objects[i].objectId != objects[j].objectId
    }

    predicate UniqueMorphismIds() {
      IdsDistinct(morphisms)
    }

    predicate HasObject(id: string) {
      exists o :: o in objects && o.objectId == id
    }

    predicate EndpointsKnown() {
      forall m :: m in morphisms ==> HasObject(m.sourceId) && HasObject(m.targetId)
    }

    /** What the graph validator accepts, and every morphism its own validator. */
    ghost predicate Valid() {
      && UniqueObjectIds()
      && UniqueMorphismIds()
      && EndpointsKnown()
      && forall m :: m in morphisms ==> ValidateMorphism(m).Success?
    }

    function Outgoing(id: string): seq<Morphism> {
      OutgoingOf(morphisms, id)
    }

    function WithObject(value: PossibilityObject): Result<PossibilityGraph, GraphError> {
      if exists o :: o in objects && o.objectId == value.objectId && o != value then
        Failure(ObjectIdentityConflict)
      else if value in objects then Success(this)
      else Success(this.(objects := objects + [value]))
    }

    function WithMorphism(value: Morphism): Result<PossibilityGraph, GraphError> {
      if exists m :: m in morphisms && m.morphismId == value.morphismId && m != value then
        Failure(MorphismIdentityConflict)
      else if value in morphisms then Success(this)
      else Success(this.(morphisms := morphisms + [value]))
    }
  }

  function OutgoingOf(edges: seq<Morphism>, id: string): (out: seq<Morphism>)
    ensures forall m :: m in out <==> m in edges && m.sourceId == id
  {
    if edges == [] then []
    else
      var front, last := edges[..|edges| - 1], edges[|edges| - 1];
      OutgoingOf(front, id) + if last.sourceId == id then [last] else []
  }

  /** Outgoing edges keep the graph's order. */
  lemma {:induction false} OutgoingAppend(a: seq<Morphism>, b: seq<Morphism>, id: string)
    ensures OutgoingOf(a + b, id) == OutgoingOf(a, id) + OutgoingOf(b, id)
  {
    if b == [] {
      assert a + b == a;
    } else {
      assert (a + b)[..|a + b| - 1] == a + b[..|b| - 1];
      OutgoingAppend(a, b[..|b| - 1], id);
    }
  }

  predicate IdsDistinct(edges: seq<Morphism>) {
    forall i, j :: 0 <= i < j < |edges| ==> edges[i].morphismId != edges[j].morphismId
  }

  lemma {:induction false} OutgoingIdsDistinct(edges: seq<Morphism>, id: string)
    requires IdsDistinct(edges)
    ensures IdsDistinct(OutgoingOf(edges, id))
  {
    if edges != [] {
      var front, last := edges[..|edges| - 1], edges[|edges| - 1];
      OutgoingIdsDistinct(front, id);
      var out := OutgoingOf(front, id);
      forall k | 0 <= k < |out| ensures out[k].morphismId != last.morphismId {
        assert out[k] in front;
        var j :| 0 <= j < |front| && edges[j] == out[k];
      }
    }
  }

  datatype AdmissionContext = AdmissionContext(
    capabilityRefs: set<string>, policyRefs: set<string>, evidenceRefs: set<string>,
    currentRevision: Option<string>, executionGrantRef: Option<string>)

  datatype Reason =
    | EdgeStanding(standing: Standing) | RequiredCapabilityUnavailable | PolicyNotAdmitted
    | RequiredEvidenceMissing | RevisionMismatch | ExecutionGrantRequired
    | DoSemanticBindingRequired | LawfulEdgeAdmitted | ExplorationBoundExceeded

  datatype Evaluation = Evaluation(morphismId: MorphismId, standing: Standing, admitted: bool, reason: Reason)

  predicate AllIn(refs: seq<string>, available: set<string>) {
    forall r :: r in refs ==> r in available
  }

  /** Evaluates one edge; the first failing check decides standing and reason. */
  function Evaluate(m: Morphism, context: AdmissionContext): Evaluation {
    var required := m.requirements;
    if m.standing in {Blocked, Unsupported, Refused, Stale} then
      Evaluation(m.morphismId, m.standing, false, EdgeStanding(m.standing))
    else if !AllIn(required.capabilityRefs, context.capabilityRefs) then
      Evaluation(m.morphismId, Unsupported, false, RequiredCapabilityUnavailable)
    else if !AllIn(required.policyRefs, context.policyRefs) then
      Evaluation(m.morphismId, Refused, false, PolicyNotAdmitted)
    else if !AllIn(required.evidenceRefs, context.evidenceRefs) then
      Evaluation(m.morphismId, Blocked, false, RequiredEvidenceMissing)
    else if required.requiredRevision.Some? && context.currentRevision != required.requiredRevision then
      Evaluation(m.morphismId, Stale, false, RevisionMismatch)
    else if required.executionGrantRequired && context.executionGrantRef.None? then
      Evaluation(m.morphismId, Candidate, false, ExecutionGrantRequired)
    else if m.phase.Do? && m.attributes.binding.None? then
      Evaluation(m.morphismId, Candidate, false, DoSemanticBindingRequired)
    else
      Evaluation(m.morphismId, Candidate, true, LawfulEdgeAdmitted)
  }

  datatype ExplorationBounds = ExplorationBounds(
    maxDepth: nat, maxPaths: nat,
    maxMonetaryCost: Option<NonNegative>, maxWallTime: Option<NonNegative>,
    maxComputeUnits: Option<NonNegative>, maxHumanInterventions: Option<NonNegative>,
    maxRiskScore: Option<NonNegative>)

  predicate AtMost(observed: real, limit: Option<NonNegative>) {
    limit.None? || observed <= limit.value
  }

  predicate WithinBounds(value: ObjectiveVector, bounds: ExplorationBounds) {
    && AtMost(value.monetaryCost, bounds.maxMonetaryCost)
    && AtMost(value.wallTime, bounds.maxWallTime)
    && AtMost(value.computeUnits, bounds.maxComputeUnits)
    && AtMost(value.humanInterventions, bounds.maxHumanInterventions)
    && AtMost(value.riskScore, bounds.maxRiskScore)
  }

  datatype Path = Path(objectIds: seq<string>, morphismIds: seq<MorphismId>, objectives: ObjectiveVector)

  datatype FrontierEdge = FrontierEdge(
    pathId: Path, morphismId: MorphismId, targetId: string, standing: Standing, admitted: bool,
    reason: Reason)
}
