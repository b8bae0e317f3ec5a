/**
 Compiled routes (`src/gymact/compileout_graph.py`): an explored path and the DO edge behind it, kept
 for reuse and admitted again against the current graph. Digests are the payloads they are taken of.
 */
module CompiledRoutes {
  import opened Outcomes
  import opened Possibility
  import opened Exploration
  import opened Closure

  datatype RecipeIdentity = RecipeIdentity(
    problemIdentity: string, environmentIdentity: string, authorityClass: string, policyRevision: string,
    verifierRef: string, inputContractDigest: string, graphDigest: PossibilityGraph)

  datatype RecipePayload = RecipePayload(
    identity: RecipeIdentity, pathId: Path, reversibleIds: seq<MorphismId>, irreversibleId: MorphismId,
    sourceReceiptRefs: seq<string>)

  datatype Recipe = Recipe(content: RecipePayload, recipeDigest: RecipePayload, standing: Standing)

  datatype RecipeError =
    | GraphIdentityMismatch | PathNotInExploration | FrontierNotInExploration | RequiresSourceReceipts
    | IrreversibleInReversibleRoute | RecipeDigestMismatch

  /** `verify_content_identity`, which every constructed recipe passes; the field check on the receipts comes first. */
  function VerifyContentIdentity(r: Recipe): Result<Recipe, RecipeError> {
    if r.content.sourceReceiptRefs == [] then Failure(RequiresSourceReceipts)
    else if r.content.irreversibleId in r.content.reversibleIds then Failure(IrreversibleInReversibleRoute)
    else if r.recipeDigest != r.content then Failure(RecipeDigestMismatch)
    else Success(r)
  }

  predicate HasFrontier(exploration: ExplorationResult, pathId: Path, id: MorphismId) {
    exists f :: f in exploration.irreversibleFrontier && f.pathId == pathId && f.morphismId == id
  }

  /** `compile_graph_recipe`. */
  function CompileRecipe(identity: RecipeIdentity, exploration: ExplorationResult, pathId: Path,
                         irreversibleId: MorphismId, receipts: seq<string>): Result<Recipe, RecipeError>
  {
    if exploration.graphDigest != identity.graphDigest then Failure(GraphIdentityMismatch)
    else if pathId !in exploration.paths then Failure(PathNotInExploration)
    else if !HasFrontier(exploration, pathId, irreversibleId) then Failure(FrontierNotInExploration)
    else if receipts == [] then Failure(RequiresSourceReceipts)
    else
      var payload := RecipePayload(identity, pathId, pathId.morphismIds, irreversibleId, receipts);
      VerifyContentIdentity(Recipe(payload, payload, Structural))
  }

  datatype Admission =
    | IdentityDrift | GraphDrift | RouteDrift | FrontierDrift
    | RouteAdmitted(pathId: Path, irreversibleId: MorphismId)

  /** `admit_graph_recipe`. */
  function AdmitRecipe(recipe: Recipe, current: RecipeIdentity, exploration: ExplorationResult): Admission {
    var r := recipe.content;
    if r.identity != current then IdentityDrift
    else if exploration.graphDigest != r.identity.graphDigest then GraphDrift
    else if r.pathId !in exploration.paths || r.pathId.morphismIds != r.reversibleIds then RouteDrift
    else if !HasFrontier(exploration, r.pathId, r.irreversibleId) then FrontierDrift
    else RouteAdmitted(r.pathId, r.irreversibleId)
  }

  // ---------------------------------------------------------------- routes of explored graphs

  /** Every frontier entry, of a truncated exploration or not, names a DO edge leaving its path. */
  lemma FrontierNamesDoEdge(s: Search, starts: seq<string>, f: FrontierEdge) returns (m: Morphism)
    requires f in Explored(s, starts).irreversibleFrontier
    ensures m in s.graph.morphisms && m.phase.Do? && m.sourceId == Last(f.pathId)
    ensures f == FrontierOf(f.pathId, m, s.verdict(m))
  {
    var full, run := FullRun(s, starts), CappedRun(s, starts);
    UpToIsPrefix(full, s.bounds.maxPaths);
    ProjectionMembers(run);
    assert Cut(f) in full;
    var start, edges, e := CutsSound(s, starts, f);
    PathOfShape(start, edges);
    m := e;
  }

  /**
   Compiling any frontier pair whose path was emitted, of any exploration, against its own graph and
   with receipts, never trips the route validator; and the recipe is admitted against the same
   identity and exploration, for the same path and DO edge.
   */
  lemma CompiledRoutesReadmit(s: Search, starts: seq<string>, identity: RecipeIdentity, f: FrontierEdge,
                              receipts: seq<string>)
    requires s.graph.UniqueMorphismIds() && identity.graphDigest == s.graph && receipts != []
    requires f in Explored(s, starts).irreversibleFrontier && f.pathId in Explored(s, starts).paths
    ensures var exploration := Explored(s, starts);
            var compiled := CompileRecipe(identity, exploration, f.pathId, f.morphismId, receipts);
            && compiled.Success?
            && AdmitRecipe(compiled.value, identity, exploration) == RouteAdmitted(f.pathId, f.morphismId)
  {
    var m := FrontierNamesDoEdge(s, starts, f);
    DoEdgesNeverTraversed(s, starts, f.pathId, m);
    assert HasFrontier(Explored(s, starts), f.pathId, f.morphismId);
  }

  /**
   What an explorer's result can be compiled into: exactly the emitted paths with a DO edge of the
   frontier behind them. The validator adds no further condition.
   */
  lemma CompilesIff(s: Search, starts: seq<string>, identity: RecipeIdentity, pathId: Path, id: MorphismId,
                    receipts: seq<string>)
    requires s.graph.UniqueMorphismIds()
    ensures CompileRecipe(identity, Explored(s, starts), pathId, id, receipts).Success? <==>
            && identity.graphDigest == s.graph && receipts != []
            && pathId in Explored(s, starts).paths
            && exists f :: f in Explored(s, starts).irreversibleFrontier && f.pathId == pathId && f.morphismId == id
  {
    if f :| f in Explored(s, starts).irreversibleFrontier && f.pathId == pathId && f.morphismId == id
            && identity.graphDigest == s.graph && receipts != [] && pathId in Explored(s, starts).paths {
      CompiledRoutesReadmit(s, starts, identity, f, receipts);
    }
  }

  /** A DO edge that leaves a start object directly is on the frontier of a complete closure, and cannot be compiled. */
  lemma StartFrontierDoesNotCompile(s: Search, starts: seq<string>, identity: RecipeIdentity, start: string,
                                    m: Morphism, receipts: seq<string>)
    requires s.graph.UniqueMorphismIds() && identity.graphDigest == s.graph && !Explored(s, starts).truncated
    requires start in starts && m in s.graph.Outgoing(start) && m.phase.Do?
    ensures FrontierOf(Root(start), m, s.verdict(m)) in Explored(s, starts).irreversibleFrontier
    ensures CompileRecipe(identity, Explored(s, starts), Root(start), m.morphismId, receipts) == Failure(PathNotInExploration)
  {
    StartsDoNotCompile(s, starts, identity, start, m.morphismId, receipts);
    hide Explored;
    hide CompileRecipe;
    FrontierExactness(s, starts);
    var i :| 0 <= i < |starts| && starts[i] == start;
    assert Roots(starts)[|starts| - 1 - i] == Root(start);
    assert StartOrEmitted(s, starts, Root(start)) && m in s.graph.Outgoing(Last(Root(start)));
  }

  /** No route starts and ends at a start object: the empty path is never among the emitted ones. */
  lemma StartsDoNotCompile(s: Search, starts: seq<string>, identity: RecipeIdentity, start: string,
                           id: MorphismId, receipts: seq<string>)
    requires s.graph.UniqueMorphismIds() && identity.graphDigest == s.graph
    ensures CompileRecipe(identity, Explored(s, starts), Root(start), id, receipts) == Failure(PathNotInExploration)
  {
    EmittedPathsSound(s, starts);
    if Root(start) in Explored(s, starts).paths {
      var from, edges := InClosureWitness(s, starts, Root(start));
    }
  }

  /**
   An admitted recipe follows a lawful walk of the current graph to a DO edge leaving its end, whatever
   graph it was compiled from; the DO edge itself is not on the walk.
   */
  lemma AdmittedRoutesAreLawful(recipe: Recipe, current: RecipeIdentity, s: Search, starts: seq<string>)
    returns (start: string, edges: seq<Morphism>, cut: Morphism)
    requires s.graph.UniqueMorphismIds() && VerifyContentIdentity(recipe).Success?
    requires AdmitRecipe(recipe, current, Explored(s, starts)).RouteAdmitted?
    ensures start in starts && LawfulWalk(s, start, edges)
    ensures |edges| == |recipe.content.reversibleIds|
    ensures forall i :: 0 <= i < |edges| ==> edges[i].morphismId == recipe.content.reversibleIds[i]
    ensures cut in s.graph.Outgoing(EndOf(start, edges)) && cut.phase.Do? && cut !in edges
    ensures cut.morphismId == recipe.content.irreversibleId
  {
    var content := recipe.content;
    EmittedPathsSound(s, starts);
    start, edges := InClosureWitness(s, starts, content.pathId);
    PathOfShape(start, edges);
    var f :| f in Explored(s, starts).irreversibleFrontier && f.pathId == content.pathId
             && f.morphismId == content.irreversibleId;
    cut := FrontierNamesDoEdge(s, starts, f);
  }

  /** A recipe is refused exactly when it has no receipts, cuts an edge of its own route, or its digest is another's. */
  lemma ContentIdentityMeans(r: Recipe)
    ensures var verdict, own := VerifyContentIdentity(r), r.content;
            var onRoute := exists i :: 0 <= i < |own.reversibleIds| && own.reversibleIds[i] == own.irreversibleId;
            && (verdict.Success? <==> |own.sourceReceiptRefs| > 0 && !onRoute && r.recipeDigest == own)
            && (verdict.Success? ==> verdict.value == r)
            && (verdict == Failure(RequiresSourceReceipts) <==> |own.sourceReceiptRefs| == 0)
            && (verdict == Failure(IrreversibleInReversibleRoute) <==> |own.sourceReceiptRefs| > 0 && onRoute)
            && (verdict == Failure(RecipeDigestMismatch) <==>
                  |own.sourceReceiptRefs| > 0 && !onRoute && r.recipeDigest != own)
  {
  }

  /** What a compiled recipe says, and which check refuses one that does not compile. */
  lemma RecipeMeans(identity: RecipeIdentity, exploration: ExplorationResult, pathId: Path, id: MorphismId, receipts: seq<string>)
    ensures var r := CompileRecipe(identity, exploration, pathId, id, receipts);
            && (r.Success? ==>
                  var content := r.value.content;
                  && content.identity == identity && content.pathId == pathId && content.reversibleIds == pathId.morphismIds
                  && content.irreversibleId == id && content.sourceReceiptRefs == receipts
                  && r.value.recipeDigest == content && r.value.standing == Structural)
            && (r == Failure(GraphIdentityMismatch) <==> exploration.graphDigest != identity.graphDigest)
            && (exploration.graphDigest == identity.graphDigest ==>
                  && (r == Failure(PathNotInExploration) <==> pathId !in exploration.paths)
                  && (pathId in exploration.paths ==>
                        && (r == Failure(FrontierNotInExploration) <==>
                              forall f :: f in exploration.irreversibleFrontier ==> f.pathId != pathId || f.morphismId != id)
                        && (HasFrontier(exploration, pathId, id) ==> (r == Failure(RequiresSourceReceipts) <==> receipts == []))))
  {
  }

  /** A recipe is refused for the first thing that drifted: its identity, the graph, the route, the frontier. */
  lemma AdmissionMeans(recipe: Recipe, current: RecipeIdentity, exploration: ExplorationResult)
    ensures var a, content := AdmitRecipe(recipe, current, exploration), recipe.content;
            var route := content.pathId in exploration.paths && content.pathId.morphismIds == content.reversibleIds;
            var frontier := exists f :: && f in exploration.irreversibleFrontier && f.pathId == content.pathId
                                        && f.morphismId == content.irreversibleId;
            a == if content.identity != current then IdentityDrift
                 else if exploration.graphDigest != current.graphDigest then GraphDrift
                 else if !route then RouteDrift
                 else if !frontier then FrontierDrift
                 else RouteAdmitted(content.pathId, content.irreversibleId)
  {
  }
}
