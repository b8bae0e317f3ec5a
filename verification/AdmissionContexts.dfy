/** How the reversible closure depends on the context edges are admitted under (`src/gymact/combinatorial.py`). */
module AdmissionContexts {
  import opened Outcomes
  import opened Possibility
  import opened Exploration
  import opened Closure
  import CompiledRoutes

  // ---------------------------------------------------------------- the verdict on one edge

  /** What stands in the way of an edge, by the reason it is reported under. */
  ghost predicate Obstacle(m: Morphism, context: AdmissionContext, reason: Reason) {
    var required := m.requirements;
    match reason
    case EdgeStanding(standing) =>
      standing == m.standing && (standing.Blocked? || standing.Unsupported? || standing.Refused? || standing.Stale?)
    case RequiredCapabilityUnavailable => exists r :: r in required.capabilityRefs && r !in context.capabilityRefs
    case PolicyNotAdmitted => exists r :: r in required.policyRefs && r !in context.policyRefs
    case RequiredEvidenceMissing => exists r :: r in required.evidenceRefs && r !in context.evidenceRefs
    case RevisionMismatch => required.requiredRevision.Some? && context.currentRevision != required.requiredRevision
    case ExecutionGrantRequired => required.executionGrantRequired && context.executionGrantRef.None?
    case DoSemanticBindingRequired => m.phase.Do? && m.attributes.binding.None?
    case LawfulEdgeAdmitted => false
    case ExplorationBoundExceeded => false
  }

  /** The order in which obstacles are reported. */
  function Precedence(reason: Reason): nat {
    match reason
    case EdgeStanding(_) => 0
    case RequiredCapabilityUnavailable => 1
    case PolicyNotAdmitted => 2
    case RequiredEvidenceMissing => 3
    case RevisionMismatch => 4
    case ExecutionGrantRequired => 5
    case DoSemanticBindingRequired => 6
    case LawfulEdgeAdmitted => 7
    case ExplorationBoundExceeded => 8
  }

  /** The standing an obstacle gives the edge. */
  function StandingUnder(reason: Reason): Standing {
    match reason
    case EdgeStanding(standing) => standing
    case RequiredCapabilityUnavailable => Unsupported
    case PolicyNotAdmitted => Refused
    case RequiredEvidenceMissing => Blocked
    case RevisionMismatch => Stale
    case ExecutionGrantRequired => Candidate
    case DoSemanticBindingRequired => Candidate
    case LawfulEdgeAdmitted => Candidate
    case ExplorationBoundExceeded => Blocked
  }

  /** An edge is admitted exactly when nothing stands in its way; otherwise the first obstacle gives reason and standing. */
  lemma VerdictExact(m: Morphism, context: AdmissionContext)
    ensures var v := Evaluate(m, context);
            && v.morphismId == m.morphismId && v.standing == StandingUnder(v.reason)
            && (v.admitted <==> forall reason :: !Obstacle(m, context, reason))
            && (v.admitted <==> v.reason == LawfulEdgeAdmitted)
            && (!v.admitted ==>
                  && Obstacle(m, context, v.reason)
                  && forall reason :: Obstacle(m, context, reason) ==> Precedence(v.reason) <= Precedence(reason))
  {
    if Evaluate(m, context).admitted {
      forall reason ensures !Obstacle(m, context, reason) {
      }
    } else {
      assert Obstacle(m, context, Evaluate(m, context).reason);
    }
  }

  /** A morphism passes its validator exactly when an actuation is a DO and a grant is required of DO edges and no others. */
  lemma MorphismLaw(m: Morphism)
    ensures ValidateMorphism(m).Success? <==>
            (m.kind.Actuate? ==> m.phase.Do?) && (m.requirements.executionGrantRequired <==> m.phase.Do?)
    ensures ValidateMorphism(m).Success? ==> ValidateMorphism(m).value == m
    ensures ValidateMorphism(m).Failure? ==>
              ValidateMorphism(m).error ==
                if m.phase.Do? then DoRequiresGrant
                else if m.kind.Actuate? then ActuationMustBeDo else NonDoCannotRequireGrant
  {
  }

  // ---------------------------------------------------------------- the closure under more and less context

  /** A search that may traverse whatever another may has every path of the other's closure. */
  lemma TraversableKeepsClosure(s: Search, t: Search, starts: seq<string>, q: Path)
    requires s.graph == t.graph && s.bounds == t.bounds
    requires forall e :: e in s.graph.morphisms && Traversable(s, e) ==> Traversable(t, e)
    requires InClosure(s, starts, q)
    ensures InClosure(t, starts, q)
  {
    hide LawfulWalk;
    var start, edges := InClosureWitness(s, starts, q);
    PruningLosesNothing(s, start, edges);
    PruningLosesNothing(t, start, edges);
    WalkInClosure(t, starts, start, edges);
  }

  /** Everything the first context offers, the second offers too, at the same revision. */
  predicate Offers(more: AdmissionContext, context: AdmissionContext) {
    && context.capabilityRefs <= more.capabilityRefs
    && context.policyRefs <= more.policyRefs
    && context.evidenceRefs <= more.evidenceRefs
    && context.currentRevision == more.currentRevision
    && (context.executionGrantRef.Some? ==> more.executionGrantRef.Some?)
  }

  lemma OffersAdmits(m: Morphism, context: AdmissionContext, more: AdmissionContext)
    requires Offers(more, context) && Evaluate(m, context).admitted
    ensures Evaluate(m, more) == Evaluate(m, context)
  {
  }

  /** Capabilities, policies, evidence or a grant added to the context never take a path away. */
  lemma MoreContextKeepsClosure(g: PossibilityGraph, context: AdmissionContext, more: AdmissionContext,
                                bounds: ExplorationBounds, starts: seq<string>, q: Path)
    requires Offers(more, context) && InClosure(SearchUnder(g, context, bounds), starts, q)
    ensures InClosure(SearchUnder(g, more, bounds), starts, q)
  {
    var s, t := SearchUnder(g, context, bounds), SearchUnder(g, more, bounds);
    forall e | e in g.morphisms && Traversable(s, e) ensures Traversable(t, e) {
      OffersAdmits(e, context, more);
    }
    TraversableKeepsClosure(s, t, starts, q);
  }

  lemma GrantMattersToDoOnly(m: Morphism, context: AdmissionContext, grant: Option<string>)
    requires ValidateMorphism(m).Success? && !m.phase.Do?
    ensures Evaluate(m, context.(executionGrantRef := grant)) == Evaluate(m, context)
  {
  }

  /** An execution grant opens no path of a valid graph, and closes none: the closure is the same without it. */
  lemma GrantOpensNoPath(g: PossibilityGraph, context: AdmissionContext, grant: Option<string>,
                         bounds: ExplorationBounds, starts: seq<string>, q: Path)
    requires g.Valid()
    ensures InClosure(SearchUnder(g, context, bounds), starts, q) <==>
            InClosure(SearchUnder(g, context.(executionGrantRef := grant), bounds), starts, q)
  {
    hide InClosure;
    var s, t := SearchUnder(g, context, bounds), SearchUnder(g, context.(executionGrantRef := grant), bounds);
    forall e | e in g.morphisms ensures Traversable(s, e) <==> Traversable(t, e) {
      if !e.phase.Do? {
        GrantMattersToDoOnly(e, context, grant);
      }
    }
    if InClosure(s, starts, q) {
      TraversableKeepsClosure(s, t, starts, q);
    }
    if InClosure(t, starts, q) {
      TraversableKeepsClosure(t, s, starts, q);
    }
  }

  /** An admitted entry of the frontier of a valid graph, truncated or not, was evaluated under a grant and carries a binding. */
  lemma AdmittedFrontierHasGrant(g: PossibilityGraph, context: AdmissionContext, bounds: ExplorationBounds,
                                 starts: seq<string>, f: FrontierEdge)
    requires g.Valid() && f in Explored(SearchUnder(g, context, bounds), starts).irreversibleFrontier && f.admitted
    ensures context.executionGrantRef.Some?
    ensures exists m :: m in g.morphisms && m.morphismId == f.morphismId && m.phase.Do? && m.attributes.binding.Some?
  {
    hide Explored;
    var m := CompiledRoutes.FrontierNamesDoEdge(SearchUnder(g, context, bounds), starts, f);
    assert ValidateMorphism(m).Success?;
  }
}
