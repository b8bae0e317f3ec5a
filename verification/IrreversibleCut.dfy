/**
 The irreversible cut (`src/gymact/cut.py`): one admitted DO edge is selected from a complete closure,
 and the broker request made from it is bound to the same action, prepared action and grant.
 Digests are the values they are taken of.
 */
module IrreversibleCut {
  import opened Outcomes
  import opened Possibility
  import opened Exploration
  import opened Closure
  import CompiledRoutes

  // ---------------------------------------------------------------- action contracts

  datatype SubjectRef = SubjectRef(semanticId: string, providerRef: string, revision: Option<string>)

  datatype ExpectedEffect = ExpectedEffect(predicateRef: string, parameters: map<string, string>)

  datatype ActionDefinition = ActionDefinition(
    semanticId: string, providerRef: string, capabilityRef: string, expectedEffects: seq<ExpectedEffect>)

  datatype PreparedAction = PreparedAction(
    episodeId: string, actionRef: string, subject: SubjectRef, payload: map<string, string>,
    admissionDigest: string, planningProvenance: Option<string>, idempotencyKey: string)

  datatype ExecutionGrant = ExecutionGrant(
    principal: string, delegatedPrincipal: Option<string>, actionRef: string, subject: SubjectRef,
    capabilityRef: string, authorityRef: string, policyRevision: string, admittedObservationRef: string,
    intendedEffects: seq<ExpectedEffect>, scopeRefs: seq<string>, expiresAt: Option<int>, nonce: string)

  datatype Refusal =
    | PolicyRefused | IdentityRefused | CapabilityRefused | AuthorityRefused | RevisionMismatchRefused
    | PreconditionRefused

  /** Python's `a or b` on optional strings: an empty string counts as absent. */
  function FirstOf(a: Option<string>, b: Option<string>): Option<string> {
    if a.Some? && a.value != "" then a else b
  }

  predicate Differ(a: Option<string>, b: Option<string>) {
    a.Some? && b.Some? && a.value != b.value
  }

  /** `admit_execution` at the moment `now`; `None` is admission. */
  function AdmitExecution(action: ActionDefinition, prepared: PreparedAction, grant: ExecutionGrant,
                          currentRevision: Option<string>, now: int): Option<Refusal>
  {
    if grant.expiresAt.Some? && grant.expiresAt.value <= now then Some(PolicyRefused)
    else if prepared.actionRef != action.semanticId || grant.actionRef != action.semanticId then Some(IdentityRefused)
    else if grant.capabilityRef != action.capabilityRef then Some(CapabilityRefused)
    else if prepared.subject.semanticId != grant.subject.semanticId then Some(IdentityRefused)
    else if prepared.subject.providerRef != grant.subject.providerRef then Some(IdentityRefused)
    else if grant.scopeRefs != [] && prepared.subject.semanticId !in grant.scopeRefs
            && prepared.subject.providerRef !in grant.scopeRefs then Some(AuthorityRefused)
    else if Differ(grant.subject.revision, prepared.subject.revision) then Some(RevisionMismatchRefused)
    else if Differ(currentRevision, FirstOf(grant.subject.revision, prepared.subject.revision)) then
      Some(RevisionMismatchRefused)
    else if grant.intendedEffects != action.expectedEffects then Some(PreconditionRefused)
    else None
  }

  // ---------------------------------------------------------------- selections

  datatype SelectionPayload = SelectionPayload(
    graphDigest: PossibilityGraph, explorationDigest: ExplorationResult, pathId: Path, morphismId: MorphismId,
    targetId: string, actionRef: string, capabilityRef: string, subjectRef: string,
    preparedDigest: PreparedAction, grantDigest: ExecutionGrant, selectorRef: string, basisRefs: seq<string>)

  datatype IrreversibleSelection = IrreversibleSelection(content: SelectionPayload, selectionDigest: SelectionPayload)
  {
    predicate VerifyDigest() {
      content == selectionDigest
    }
  }

  datatype CutError =
    | GraphDrift | TruncatedClosure(reasons: seq<Truncation>) | FrontierEdgeNotFound
    | FrontierNotAdmitted(reason: Reason) | MorphismMissing | MorphismIsNotDo | ActionIdentityMismatch
    | GrantNotAdmitted(refusal: Refusal) | EmptySelector | BasisRefMustBeAbsolute

  /** The first frontier entry for this path and edge. */
  function FindFrontier(frontier: seq<FrontierEdge>, pathId: Path, id: MorphismId): (r: Option<FrontierEdge>)
    ensures r.Some? ==> r.value in frontier && r.value.pathId == pathId && r.value.morphismId == id
    ensures r.None? ==> forall f :: f in frontier ==> f.pathId != pathId || f.morphismId != id
  {
    if frontier == [] then None
    else
      var before, last := FindFrontier(frontier[..|frontier| - 1], pathId, id), frontier[|frontier| - 1];
      if before.Some? then before
      else if last.pathId == pathId && last.morphismId == id then Some(last) else None
  }

  function FindMorphism(morphisms: seq<Morphism>, id: MorphismId): (r: Option<Morphism>)
    ensures r.Some? ==> r.value in morphisms && r.value.morphismId == id
    ensures r.None? ==> forall m :: m in morphisms ==> m.morphismId != id
  {
    if morphisms == [] then None
    else
      var before, last := FindMorphism(morphisms[..|morphisms| - 1], id), morphisms[|morphisms| - 1];
      if before.Some? then before else if last.morphismId == id then Some(last) else None
  }

  predicate BasisRefsAbsolute(refs: seq<string>) {
    forall r :: r in refs ==> ':' in r
  }

  /** `select_irreversible_cut`. */
  function SelectCut(graph: PossibilityGraph, exploration: ExplorationResult, pathId: Path, morphismId: MorphismId,
                     action: ActionDefinition, prepared: PreparedAction, grant: ExecutionGrant,
                     selectorRef: string, basisRefs: seq<string>, currentRevision: Option<string>, now: int)
    : Result<IrreversibleSelection, CutError>
  {
    if exploration.graphDigest != graph then Failure(GraphDrift)
    else if exploration.truncated then Failure(TruncatedClosure(exploration.truncationReasons))
    else
      var frontier := FindFrontier(exploration.irreversibleFrontier, pathId, morphismId);
      if frontier.None? then Failure(FrontierEdgeNotFound)
      else if !frontier.value.admitted then Failure(FrontierNotAdmitted(frontier.value.reason))
      else
        var morphism := FindMorphism(graph.morphisms, morphismId);
        if morphism.None? then Failure(MorphismMissing)
        else if !morphism.value.phase.Do? then Failure(MorphismIsNotDo)
        else if prepared.actionRef != action.semanticId then Failure(ActionIdentityMismatch)
        else
          var refusal := AdmitExecution(action, prepared, grant, currentRevision, now);
          if refusal.Some? then Failure(GrantNotAdmitted(refusal.value))
          else if selectorRef == "" then Failure(EmptySelector)
          else if !BasisRefsAbsolute(basisRefs) then Failure(BasisRefMustBeAbsolute)
          else
            var payload := SelectionPayload(graph, exploration, pathId, morphismId, frontier.value.targetId,
                                            action.semanticId, action.capabilityRef, prepared.subject.semanticId,
                                            prepared, grant, selectorRef, basisRefs);
            Success(IrreversibleSelection(payload, payload))
  }

  // ---------------------------------------------------------------- broker requests

  datatype BrokerRequest = BrokerRequest(action: ActionDefinition, prepared: PreparedAction, grant: ExecutionGrant,
                                         currentRevision: Option<string>)

  datatype BoundRequest = BoundRequest(selection: IrreversibleSelection, request: BrokerRequest)

  datatype BindingError =
    | SelectionDigestMismatch | ActionDrift | CapabilityDrift | SubjectDrift | PreparedDrift | GrantDrift

  /** `require_exact_cut_binding`. */
  function RequireExactCutBinding(b: BoundRequest): Result<BoundRequest, BindingError> {
    var s, r := b.selection, b.request;
    if !s.VerifyDigest() then Failure(SelectionDigestMismatch)
    else if s.content.actionRef != r.action.semanticId then Failure(ActionDrift)
    else if s.content.capabilityRef != r.action.capabilityRef then Failure(CapabilityDrift)
    else if s.content.subjectRef != r.prepared.subject.semanticId then Failure(SubjectDrift)
    else if s.content.preparedDigest != r.prepared then Failure(PreparedDrift)
    else if s.content.grantDigest != r.grant then Failure(GrantDrift)
    else Success(b)
  }

  /** `manufacture_broker_request`. */
  function ManufactureRequest(selection: IrreversibleSelection, action: ActionDefinition, prepared: PreparedAction,
                              grant: ExecutionGrant, currentRevision: Option<string>)
    : Result<BoundRequest, BindingError>
  {
    RequireExactCutBinding(BoundRequest(selection, BrokerRequest(action, prepared, grant, currentRevision)))
  }

  // ---------------------------------------------------------------- what stands in the way of a grant

  /** The two revisions are both known and are not the same. */
  ghost predicate Disagree(a: Option<string>, b: Option<string>) {
    exists x, y :: a == Some(x) && b == Some(y) && x != y
  }

  /** What may bar an execution, in the order in which it is looked at. */
  datatype Bar =
    | Expired | OtherAction | OtherCapability | OtherSubject | OtherProvider | OutOfScope | RevisionsDiffer
    | RevisionMoved | OtherEffects

  ghost predicate Bars(bar: Bar, action: ActionDefinition, prepared: PreparedAction, grant: ExecutionGrant,
                       currentRevision: Option<string>, now: int)
  {
    match bar
    case Expired => exists t :: grant.expiresAt == Some(t) && t <= now
    case OtherAction => prepared.actionRef != action.semanticId || grant.actionRef != action.semanticId
    case OtherCapability => grant.capabilityRef != action.capabilityRef
    case OtherSubject => prepared.subject.semanticId != grant.subject.semanticId
    case OtherProvider => prepared.subject.providerRef != grant.subject.providerRef
    case OutOfScope =>
      && grant.scopeRefs != []
      && forall s :: s in grant.scopeRefs ==> s != prepared.subject.semanticId && s != prepared.subject.providerRef
    case RevisionsDiffer => Disagree(grant.subject.revision, prepared.subject.revision)
    case RevisionMoved =>
      if exists r :: r != "" && grant.subject.revision == Some(r) then Disagree(currentRevision, grant.subject.revision)
      else Disagree(currentRevision, prepared.subject.revision)
    case OtherEffects => grant.intendedEffects != action.expectedEffects
  }

  function BarOrder(bar: Bar): nat {
    match bar
    case Expired => 0 case OtherAction => 1 case OtherCapability => 2 case OtherSubject => 3 case OtherProvider => 4
    case OutOfScope => 5 case RevisionsDiffer => 6 case RevisionMoved => 7 case OtherEffects => 8
  }

  function RefusalFor(bar: Bar): Refusal {
    match bar
    case Expired => PolicyRefused
    case OtherAction => IdentityRefused
    case OtherCapability => CapabilityRefused
    case OtherSubject => IdentityRefused
    case OtherProvider => IdentityRefused
    case OutOfScope => AuthorityRefused
    case RevisionsDiffer => RevisionMismatchRefused
    case RevisionMoved => RevisionMismatchRefused
    case OtherEffects => PreconditionRefused
  }

  /** A grant is admitted exactly when nothing bars it; otherwise the first bar gives the refusal. */
  lemma ExecutionExact(action: ActionDefinition, prepared: PreparedAction, grant: ExecutionGrant,
                       currentRevision: Option<string>, now: int)
    ensures var refusal := AdmitExecution(action, prepared, grant, currentRevision, now);
            && (refusal == None <==> forall bar :: !Bars(bar, action, prepared, grant, currentRevision, now))
            && (refusal.Some? ==>
                  exists bar :: && Bars(bar, action, prepared, grant, currentRevision, now) && refusal.value == RefusalFor(bar)
                                && forall other :: Bars(other, action, prepared, grant, currentRevision, now) ==>
                                                   BarOrder(bar) <= BarOrder(other))
  {
    var bar :=
      if Bars(Expired, action, prepared, grant, currentRevision, now) then Expired
      else if Bars(OtherAction, action, prepared, grant, currentRevision, now) then OtherAction
      else if Bars(OtherCapability, action, prepared, grant, currentRevision, now) then OtherCapability
      else if Bars(OtherSubject, action, prepared, grant, currentRevision, now) then OtherSubject
      else if Bars(OtherProvider, action, prepared, grant, currentRevision, now) then OtherProvider
      else if Bars(OutOfScope, action, prepared, grant, currentRevision, now) then OutOfScope
      else if Bars(RevisionsDiffer, action, prepared, grant, currentRevision, now) then RevisionsDiffer
      else if Bars(RevisionMoved, action, prepared, grant, currentRevision, now) then RevisionMoved
      else OtherEffects;
    forall other | Bars(other, action, prepared, grant, currentRevision, now) ensures BarOrder(bar) <= BarOrder(other) {
    }
  }

  /** Entry `i` is the first one for this path and edge. */
  ghost predicate FirstEntry(frontier: seq<FrontierEdge>, pathId: Path, id: MorphismId, i: nat) {
    && i < |frontier| && frontier[i].pathId == pathId && frontier[i].morphismId == id
    && forall j :: 0 <= j < i ==> frontier[j].pathId != pathId || frontier[j].morphismId != id
  }

  lemma {:induction false} FirstEntryFound(frontier: seq<FrontierEdge>, pathId: Path, id: MorphismId, i: nat)
    requires FirstEntry(frontier, pathId, id, i)
    ensures FindFrontier(frontier, pathId, id) == Some(frontier[i])
    decreases |frontier|
  {
    var front := frontier[..|frontier| - 1];
    if i < |frontier| - 1 {
      assert front[i] == frontier[i];
      FirstEntryFound(front, pathId, id, i);
    } else {
      assert forall f :: f in front ==> f.pathId != pathId || f.morphismId != id;
    }
  }

  /** Edge `k` is the first one of that id. */
  ghost predicate FirstOfId(morphisms: seq<Morphism>, id: MorphismId, k: nat) {
    && k < |morphisms| && morphisms[k].morphismId == id
    && forall j :: 0 <= j < k ==> morphisms[j].morphismId != id
  }

  lemma {:induction false} FirstOfIdFound(morphisms: seq<Morphism>, id: MorphismId, k: nat)
    requires FirstOfId(morphisms, id, k)
    ensures FindMorphism(morphisms, id) == Some(morphisms[k])
    decreases |morphisms|
  {
    var front := morphisms[..|morphisms| - 1];
    if k < |morphisms| - 1 {
      assert front[k] == morphisms[k];
      FirstOfIdFound(front, id, k);
    } else {
      assert forall m :: m in front ==> m.morphismId != id;
    }
  }

  /** The exploration a cut is taken from: refused when it is of another graph, truncated, or has no such entry. */
  lemma CutRefusal(graph: PossibilityGraph, exploration: ExplorationResult, pathId: Path, id: MorphismId,
                   action: ActionDefinition, prepared: PreparedAction, grant: ExecutionGrant, selectorRef: string,
                   basisRefs: seq<string>, currentRevision: Option<string>, now: int)
    ensures var cut := SelectCut(graph, exploration, pathId, id, action, prepared, grant, selectorRef, basisRefs,
                                 currentRevision, now);
            && (cut == Failure(GraphDrift) <==> exploration.graphDigest != graph)
            && (exploration.graphDigest == graph ==>
                  && (exploration.truncated <==> cut == Failure(TruncatedClosure(exploration.truncationReasons)))
                  && (!exploration.truncated ==>
                        && (cut == Failure(FrontierEdgeNotFound) <==>
                              !exists f :: f in exploration.irreversibleFrontier && f.pathId == pathId && f.morphismId == id)
                        && ((forall m :: m in graph.morphisms ==> m.morphismId != id) ==>
                              && cut.Failure?
                              && ((forall f :: f in exploration.irreversibleFrontier ==> f.admitted) ==>
                                    cut.error.FrontierEdgeNotFound? || cut.error.MorphismMissing?))))
  {
    hide AdmitExecution;
    var found := FindFrontier(exploration.irreversibleFrontier, pathId, id);
    var morphism := FindMorphism(graph.morphisms, id);
  }

  /** The first entry and the first edge decide a cut: it is refused for the first thing wrong with them, if any. */
  lemma CutDecided(graph: PossibilityGraph, exploration: ExplorationResult, i: nat, k: nat,
                   action: ActionDefinition, prepared: PreparedAction, grant: ExecutionGrant, selectorRef: string,
                   basisRefs: seq<string>, currentRevision: Option<string>, now: int)
    requires exploration.graphDigest == graph && !exploration.truncated
    requires i < |exploration.irreversibleFrontier| && k < |graph.morphisms|
    requires var f := exploration.irreversibleFrontier[i];
             FirstEntry(exploration.irreversibleFrontier, f.pathId, f.morphismId, i)
             && FirstOfId(graph.morphisms, f.morphismId, k)
    ensures var f := exploration.irreversibleFrontier[i];
            var cut := SelectCut(graph, exploration, f.pathId, f.morphismId, action, prepared, grant, selectorRef,
                                 basisRefs, currentRevision, now);
            var barred := exists bar :: Bars(bar, action, prepared, grant, currentRevision, now);
            if !f.admitted then cut == Failure(FrontierNotAdmitted(f.reason))
            else if graph.morphisms[k].phase != Do then cut == Failure(MorphismIsNotDo)
            else if prepared.actionRef != action.semanticId then cut == Failure(ActionIdentityMismatch)
            else if barred then
              cut.Failure? && cut.error.GrantNotAdmitted?
              && AdmitExecution(action, prepared, grant, currentRevision, now) == Some(cut.error.refusal)
            else if |selectorRef| == 0 then cut == Failure(EmptySelector)
            else if exists r :: r in basisRefs && ':' !in r then cut == Failure(BasisRefMustBeAbsolute)
            else cut.Success?
  {
    var f := exploration.irreversibleFrontier[i];
    FirstEntryFound(exploration.irreversibleFrontier, f.pathId, f.morphismId, i);
    FirstOfIdFound(graph.morphisms, f.morphismId, k);
    ExecutionExact(action, prepared, grant, currentRevision, now);
    hide AdmitExecution;
    hide Bars;
  }

  /** A request is refused for the first binding that does not hold. */
  lemma BindingRefusal(b: BoundRequest)
    ensures var r, content, request := RequireExactCutBinding(b), b.selection.content, b.request;
            r == if content != b.selection.selectionDigest then Failure(SelectionDigestMismatch)
                 else if content.actionRef != request.action.semanticId then Failure(ActionDrift)
                 else if content.capabilityRef != request.action.capabilityRef then Failure(CapabilityDrift)
                 else if content.subjectRef != request.prepared.subject.semanticId then Failure(SubjectDrift)
                 else if content.preparedDigest != request.prepared then Failure(PreparedDrift)
                 else if content.grantDigest != request.grant then Failure(GrantDrift)
                 else Success(b)
  {
  }

  // ---------------------------------------------------------------- cuts of explored graphs

  /** An admitted DO edge that leaves a start or a closure path. */
  ghost predicate Cuttable(s: Search, starts: seq<string>, pathId: Path, m: Morphism) {
    && StartOrEmitted(s, starts, pathId)
    && m in s.graph.Outgoing(Last(pathId)) && m.phase.Do? && s.verdict(m).admitted
  }

  lemma FrontierIffCuttable(s: Search, starts: seq<string>, pathId: Path, m: Morphism)
    requires s.graph.UniqueMorphismIds() && m in s.graph.morphisms
    ensures var f := FindFrontier(Explored(s, starts).irreversibleFrontier, pathId, m.morphismId);
            && (f.Some? ==> m.phase.Do? && f.value == FrontierOf(pathId, m, s.verdict(m)))
            && (!Explored(s, starts).truncated ==> (f.Some? && f.value.admitted <==> Cuttable(s, starts, pathId, m)))
  {
    hide Explored;
    hide StartOrEmitted;
    var exploration := Explored(s, starts);
    var f := FindFrontier(exploration.irreversibleFrontier, pathId, m.morphismId);
    if f.Some? {
      var cut := CompiledRoutes.FrontierNamesDoEdge(s, starts, f.value);
      SameId(s.graph.morphisms, cut, m);
    }
    if !exploration.truncated {
      FrontierExactness(s, starts);
      if Cuttable(s, starts, pathId, m) {
        assert FrontierOf(pathId, m, s.verdict(m)) in exploration.irreversibleFrontier;
      }
      if f.Some? {
        FrontierStarts(s, starts, f.value);
      }
    }
  }

  lemma FrontierStarts(s: Search, starts: seq<string>, f: FrontierEdge)
    requires s.graph.UniqueMorphismIds() && !Explored(s, starts).truncated
    requires f in Explored(s, starts).irreversibleFrontier
    ensures StartOrEmitted(s, starts, f.pathId)
  {
    hide Explored;
    FrontierExactness(s, starts);
  }

  /**
   When a cut can be taken from an explorer's result: the closure is complete, the edge is an admitted
   DO edge behind a start or a closure path, and the grant is admitted for the action. What it names
   is that edge; the checks for a missing or non-DO morphism never fire.
   */
  lemma CutNamesAdmittedDoEdge(s: Search, starts: seq<string>, pathId: Path, m: Morphism, action: ActionDefinition,
                               prepared: PreparedAction, grant: ExecutionGrant, selectorRef: string,
                               basisRefs: seq<string>, currentRevision: Option<string>, now: int)
    requires s.graph.UniqueMorphismIds() && m in s.graph.morphisms
    ensures var cut := SelectCut(s.graph, Explored(s, starts), pathId, m.morphismId, action, prepared, grant,
                                 selectorRef, basisRefs, currentRevision, now);
            && (cut.Success? <==>
                  && !Explored(s, starts).truncated && Cuttable(s, starts, pathId, m)
                  && AdmitExecution(action, prepared, grant, currentRevision, now).None?
                  && selectorRef != "" && BasisRefsAbsolute(basisRefs))
            && (cut.Success? ==> cut.value.content.targetId == m.targetId && cut.value.VerifyDigest())
            && cut != Failure(MorphismMissing) && cut != Failure(MorphismIsNotDo)
  {
    hide Cuttable;
    hide BasisRefsAbsolute;
    FrontierIffCuttable(s, starts, pathId, m);
    var named := FindMorphism(s.graph.morphisms, m.morphismId);
    SameId(s.graph.morphisms, named.value, m);
    ExploredGraph(s, starts);
    hide Explored;
  }

  lemma ExploredGraph(s: Search, starts: seq<string>)
    ensures Explored(s, starts).graphDigest == s.graph
  {
  }

  /**
   Whatever graph and exploration it is taken from, a cut is authorized: the grant is unexpired, names
   the action, its capability and the prepared subject, covers that subject, intends the action's
   effects, and no two of the revisions in play disagree.
   */
  lemma CutIsAuthorized(graph: PossibilityGraph, exploration: ExplorationResult, pathId: Path, id: MorphismId,
                        action: ActionDefinition, prepared: PreparedAction, grant: ExecutionGrant,
                        selectorRef: string, basisRefs: seq<string>, currentRevision: Option<string>, now: int)
    requires SelectCut(graph, exploration, pathId, id, action, prepared, grant, selectorRef, basisRefs,
                       currentRevision, now).Success?
    ensures grant.expiresAt.Some? ==> now < grant.expiresAt.value
    ensures grant.actionRef == prepared.actionRef == action.semanticId && grant.capabilityRef == action.capabilityRef
    ensures grant.subject.semanticId == prepared.subject.semanticId
    ensures grant.subject.providerRef == prepared.subject.providerRef
    ensures grant.scopeRefs != [] ==>
              prepared.subject.semanticId in grant.scopeRefs || prepared.subject.providerRef in grant.scopeRefs
    ensures grant.intendedEffects == action.expectedEffects
    ensures forall a, b | a in {grant.subject.revision, prepared.subject.revision, currentRevision} &&
                          b in {grant.subject.revision, prepared.subject.revision, currentRevision} ::
              a.Some? && b.Some? && a.value != "" && b.value != "" ==> a == b
    ensures exploration.graphDigest == graph && !exploration.truncated
  {
  }

  /** A cut that names no edge of the graph is never taken from an explorer's result. */
  lemma CutNeedsAnEdge(s: Search, starts: seq<string>, pathId: Path, id: MorphismId, action: ActionDefinition,
                       prepared: PreparedAction, grant: ExecutionGrant, selectorRef: string,
                       basisRefs: seq<string>, currentRevision: Option<string>, now: int)
    requires forall m :: m in s.graph.morphisms ==> m.morphismId != id
    ensures SelectCut(s.graph, Explored(s, starts), pathId, id, action, prepared, grant, selectorRef, basisRefs,
                      currentRevision, now) ==
            if Explored(s, starts).truncated then Failure(TruncatedClosure(Explored(s, starts).truncationReasons))
            else Failure(FrontierEdgeNotFound)
  {
    var frontier := FindFrontier(Explored(s, starts).irreversibleFrontier, pathId, id);
    if frontier.Some? {
      var cut := CompiledRoutes.FrontierNamesDoEdge(s, starts, frontier.value);
    }
  }

  /**
   A request is made from a cut exactly when the prepared action and the grant are the very ones the
   cut was taken with, and the action carries the same semantic id and capability. Nothing else of
   the action is bound: a different definition under the same two names passes.
   */
  lemma RequestIff(graph: PossibilityGraph, exploration: ExplorationResult, pathId: Path, id: MorphismId,
                   action: ActionDefinition, prepared: PreparedAction, grant: ExecutionGrant, selectorRef: string,
                   basisRefs: seq<string>, currentRevision: Option<string>, now: int,
                   action': ActionDefinition, prepared': PreparedAction, grant': ExecutionGrant,
                   currentRevision': Option<string>)
    requires SelectCut(graph, exploration, pathId, id, action, prepared, grant, selectorRef, basisRefs,
                       currentRevision, now).Success?
    ensures var cut := SelectCut(graph, exploration, pathId, id, action, prepared, grant, selectorRef, basisRefs,
                                 currentRevision, now).value;
            var request := ManufactureRequest(cut, action', prepared', grant', currentRevision');
            && (request.Success? <==>
                  && prepared' == prepared && grant' == grant
                  && action'.semanticId == action.semanticId && action'.capabilityRef == action.capabilityRef)
            && (action' == action && prepared' != prepared ==>
                  request == Failure(SubjectDrift) || request == Failure(PreparedDrift))
            && (action' == action && prepared' == prepared && grant' != grant ==> request == Failure(GrantDrift))
  {
  }

  /** A selection whose fields were altered after it was made cannot be turned into a request. */
  lemma AlteredSelectionRefused(selection: IrreversibleSelection, altered: SelectionPayload, action: ActionDefinition,
                                prepared: PreparedAction, grant: ExecutionGrant, currentRevision: Option<string>)
    requires selection.VerifyDigest() && altered != selection.content
    ensures ManufactureRequest(selection.(content := altered), action, prepared, grant, currentRevision) ==
            Failure(SelectionDigestMismatch)
  {
  }

  /** Two requests whose selections share a digest perform the same prepared action under the same grant. */
  lemma DigestBindsRequest(a: BoundRequest, b: BoundRequest)
    requires RequireExactCutBinding(a).Success? && RequireExactCutBinding(b).Success?
    requires a.selection.selectionDigest == b.selection.selectionDigest
    ensures a.selection == b.selection
    ensures a.request.prepared == b.request.prepared && a.request.grant == b.request.grant
    ensures a.request.action.semanticId == b.request.action.semanticId
  {
  }

  /** Of an action's definition, admission of a grant looks at its two names and its expected effects. */
  lemma SameNamesAdmission(action: ActionDefinition, other: ActionDefinition, prepared: PreparedAction,
                           grant: ExecutionGrant, currentRevision: Option<string>, now: int)
    requires AdmitExecution(action, prepared, grant, currentRevision, now).None?
    requires other.semanticId == action.semanticId && other.capabilityRef == action.capabilityRef
    ensures AdmitExecution(other, prepared, grant, currentRevision, now).None? <==>
            other.expectedEffects == action.expectedEffects
  {
  }

  lemma CutContent(graph: PossibilityGraph, exploration: ExplorationResult, pathId: Path, id: MorphismId,
                   action: ActionDefinition, prepared: PreparedAction, grant: ExecutionGrant, selectorRef: string,
                   basisRefs: seq<string>, currentRevision: Option<string>, now: int)
    ensures var cut := SelectCut(graph, exploration, pathId, id, action, prepared, grant, selectorRef, basisRefs,
                                 currentRevision, now);
            cut.Success? ==>
              var content := cut.value.content;
              && content.graphDigest == graph && content.explorationDigest == exploration
              && content.pathId == pathId && content.morphismId == id
              && content.actionRef == action.semanticId && content.capabilityRef == action.capabilityRef
              && content.subjectRef == prepared.subject.semanticId
              && content.preparedDigest == prepared && content.grantDigest == grant
              && content.selectorRef == selectorRef && content.basisRefs == basisRefs
              && cut.value.selectionDigest == content
  {
    hide AdmitExecution;
  }

  /**
   From the explorer to the broker: a request made from an explorer's cut names an admitted DO edge
   behind a start or a path of a complete closure, and asking again, at that moment, whether its grant
   admits its action gets the answer the cut got if and only if the action expects the effects of the
   action the cut was taken for.
   */
  lemma RequestIsReadmittedIff(s: Search, starts: seq<string>, pathId: Path, m: Morphism, action: ActionDefinition,
                               prepared: PreparedAction, grant: ExecutionGrant, selectorRef: string,
                               basisRefs: seq<string>, currentRevision: Option<string>, now: int, b: BoundRequest)
    requires s.graph.UniqueMorphismIds() && m in s.graph.morphisms
    requires SelectCut(s.graph, Explored(s, starts), pathId, m.morphismId, action, prepared, grant, selectorRef,
                       basisRefs, currentRevision, now) == Success(b.selection)
    requires RequireExactCutBinding(b).Success?
    ensures !Explored(s, starts).truncated && Cuttable(s, starts, pathId, m)
    ensures b.selection.content.pathId == pathId && b.selection.content.morphismId == m.morphismId
    ensures AdmitExecution(b.request.action, b.request.prepared, b.request.grant, currentRevision, now).None? <==>
            b.request.action.expectedEffects == action.expectedEffects
  {
    CutNamesAdmittedDoEdge(s, starts, pathId, m, action, prepared, grant, selectorRef, basisRefs, currentRevision, now);
    var exploration := Explored(s, starts);
    hide Explored;
    hide Cuttable;
    CutContent(s.graph, exploration, pathId, m.morphismId, action, prepared, grant, selectorRef, basisRefs,
               currentRevision, now);
    var r := b.request;
    RequestIff(s.graph, exploration, pathId, m.morphismId, action, prepared, grant, selectorRef, basisRefs,
               currentRevision, now, r.action, r.prepared, r.grant, r.currentRevision);
    hide SelectCut;
    hide RequireExactCutBinding;
    assert BoundRequest(b.selection, BrokerRequest(r.action, r.prepared, r.grant, r.currentRevision)) == b;
    SameNamesAdmission(action, r.action, prepared, grant, currentRevision, now);
    hide AdmitExecution;
  }

  // ---------------------------------------------------------------- what a cut does not compare

  /** The action, capability and subject a cut names are those its edge is bound to. */
  predicate FollowsBinding(content: SelectionPayload, b: ConsequenceBinding) {
    content.actionRef == b.actionRef && content.capabilityRef == b.capabilityRef && content.subjectRef == b.subjectRef
  }

  function PreparedFor(action: ActionDefinition, subject: SubjectRef): PreparedAction {
    PreparedAction("urn:example:episode", action.semanticId, subject, map[], "admission", None, "key")
  }

  /** A grant of exactly this action on this subject. */
  function GrantFor(action: ActionDefinition, subject: SubjectRef): ExecutionGrant {
    ExecutionGrant("urn:example:principal", None, action.semanticId, subject, action.capabilityRef,
                   "urn:example:authority", "policy", "urn:example:observation", action.expectedEffects, [], None, "nonce")
  }

  function CutFor(s: Search, exploration: ExplorationResult, pathId: Path, id: MorphismId, action: ActionDefinition,
                  subject: SubjectRef): Result<IrreversibleSelection, CutError>
  {
    SelectCut(s.graph, exploration, pathId, id, action, PreparedFor(action, subject), GrantFor(action, subject),
              "urn:example:selector", [], None, 0)
  }

  /**
   The edge's consequence binding is never compared with the action. An admitted DO edge of a complete
   closure can be cut for any action on any subject, given a grant of that action; and even a request
   that expects other effects is then made from the cut. The cut follows the binding if and only if
   action, capability and subject were the bound ones to begin with.
   */
  lemma AnyActionIsCut(s: Search, starts: seq<string>, pathId: Path, m: Morphism, action: ActionDefinition,
                       subject: SubjectRef, effects: seq<ExpectedEffect>)
    requires s.graph.UniqueMorphismIds() && m in s.graph.morphisms
    requires !Explored(s, starts).truncated && Cuttable(s, starts, pathId, m)
    ensures var cut := CutFor(s, Explored(s, starts), pathId, m.morphismId, action, subject);
            && cut.Success? && cut.value.content.morphismId == m.morphismId
            && ManufactureRequest(cut.value, action.(expectedEffects := effects), PreparedFor(action, subject),
                                  GrantFor(action, subject), None).Success?
            && forall b :: FollowsBinding(cut.value.content, b) <==>
                 action.semanticId == b.actionRef && action.capabilityRef == b.capabilityRef
                 && subject.semanticId == b.subjectRef
  {
    hide Cuttable;
    hide SelectCut;
    var prepared, grant, exploration := PreparedFor(action, subject), GrantFor(action, subject), Explored(s, starts);
    CutNamesAdmittedDoEdge(s, starts, pathId, m, action, prepared, grant, "urn:example:selector", [], None, 0);
    hide Explored;
    CutContent(s.graph, exploration, pathId, m.morphismId, action, prepared, grant, "urn:example:selector", [], None, 0);
    RequestIff(s.graph, exploration, pathId, m.morphismId, action, prepared, grant, "urn:example:selector", [], None, 0,
               action.(expectedEffects := effects), prepared, grant, None);
    hide ManufactureRequest;
  }

  const READING := ConsequenceBinding("urn:example:read", "urn:example:book", "urn:example:reading", "urn:example:verifier", "effect")

  const EDGE := Morphism(Text("urn:example:edge"), "s", "t", Actuate, Do, Irreversible,
                         Requirements([], [], [], None, true), NO_OBJECTIVES, Candidate, [], Attributes(Some(READING), map[]))

  const OTHER_EFFECTS := [ExpectedEffect("urn:example:gone", map[])]

  function ObjectAt(id: string): PossibilityObject {
    PossibilityObject(id, Subject, "urn:example:object", None, [], Candidate, [], NO_ATTRIBUTES)
  }

  const LONE := PossibilityGraph([ObjectAt("s"), ObjectAt("t")], [EDGE])

  function LoneSearch(): Search {
    SearchUnder(LONE, AdmissionContext({}, {}, {}, None, Some("urn:example:grant")),
                ExplorationBounds(1, 1, None, None, None, None, None))
  }

  lemma LoneIsValid()
    ensures LONE.Valid()
  {
    assert LONE.objects[0].objectId == "s" && LONE.objects[1].objectId == "t";
    assert ObjectAt("s") in LONE.objects && ObjectAt("t") in LONE.objects;
  }

  lemma NoWalkNoTruncation(s: Search, starts: seq<string>)
    requires s.bounds.maxDepth >= 1 && forall start, edges :: LawfulWalk(s, start, edges) ==> edges == []
    ensures !Explored(s, starts).truncated
  {
    hide LawfulWalk;
    forall start, edges | ClosureWalk(s, start, edges) ensures edges == [] {
      PruningLosesNothing(s, start, edges);
    }
    hide ClosureWalk;
    DepthReachedExact(s, starts);
    var full := FullRun(s, starts);
    hide FullRun;
    assert Emissions(full) == [] by {
      if Emissions(full) != [] {
        EmissionsExact(s, starts, Emissions(full)[0]);
        var start, edges := InClosureWitness(s, starts, Emissions(full)[0]);
        assert false;
      }
    }
    CapNotReached(full, s.bounds.maxPaths);
  }

  lemma LoneHasNoWalks(start: string, edges: seq<Morphism>)
    requires LawfulWalk(LoneSearch(), start, edges)
    ensures edges == []
  {
  }

  lemma LoneIsComplete()
    ensures !Explored(LoneSearch(), ["s"]).truncated
  {
    hide Explored;
    forall start, edges | LawfulWalk(LoneSearch(), start, edges) ensures edges == [] {
      LoneHasNoWalks(start, edges);
    }
    NoWalkNoTruncation(LoneSearch(), ["s"]);
  }

  lemma LoneIsCuttable()
    ensures Cuttable(LoneSearch(), ["s"], Root("s"), EDGE)
  {
    hide Explored;
    assert Roots(["s"])[0] == Root("s");
    assert EDGE in LONE.morphisms && EDGE.sourceId == "s";
  }

  /**
   A valid graph whose one edge is bound to reading a book: it is cut for erasing it, and the request is
   made for an erasing that expects other effects than the one the cut was taken with.
   */
  lemma ReadingIsCutForErasing()
    ensures var erase := ActionDefinition("urn:example:erase", "urn:example:hand", "urn:example:erasing", []);
            var book := SubjectRef("urn:example:book", "urn:example:hand", None);
            var cut := CutFor(LoneSearch(), Explored(LoneSearch(), ["s"]), Root("s"), EDGE.morphismId, erase, book);
            && LONE.Valid() && EDGE.attributes.binding == Some(READING) && erase.expectedEffects != OTHER_EFFECTS
            && cut.Success? && !FollowsBinding(cut.value.content, READING)
            && ManufactureRequest(cut.value, erase.(expectedEffects := OTHER_EFFECTS), PreparedFor(erase, book),
                                  GrantFor(erase, book), None).Success?
  {
    LoneIsValid();
    LoneIsComplete();
    LoneIsCuttable();
    hide Explored;
    hide SelectCut;
    hide Cuttable;
    var erase := ActionDefinition("urn:example:erase", "urn:example:hand", "urn:example:erasing", []);
    assert erase.semanticId[12] != READING.actionRef[12];
    AnyActionIsCut(LoneSearch(), ["s"], Root("s"), EDGE, erase, SubjectRef("urn:example:book", "urn:example:hand", None),
                   OTHER_EFFECTS);
  }
}
