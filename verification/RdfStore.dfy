/**
 The RDF projection of a possibility graph and its inverse (`src/gymact/combinatorial_rdf.py`), over a
 triple store that keeps the order triples were first added in.

 A node named by a digest is the value the digest is taken of, and a JSON literal is the value it
 encodes. References a graph carries become `Reference` nodes; they only ever stand as values, under
 predicates the reader does not ask for.
 */
module RdfStore {
  import opened Outcomes
  import opened Sequences
  import opened Possibility

  datatype Term =
    | GraphNode(graph: PossibilityGraph)
    | ObjectNode(objectId: string)
    | MorphismNode(morphismId: MorphismId)
    | Profile | ExecutionGrantConcept
    | ObjectKindConcept(objectKind: ObjectKind) | MorphismKindConcept(morphismKind: MorphismKind)
    | PhaseConcept(phase: DecisionPhase) | ReversalConcept(reversal: ReversalClass)
    | ProvEntity | ProvActivity | SkosConcept
    | Reference(uri: string)
    | Plain(text: string) | IdText(id: MorphismId) | DigestText(digestOf: PossibilityGraph) | NotationOf(concept: Term)
    | ObjectJson(item: PossibilityObject) | MorphismJson(edge: Morphism)

  datatype Property =
    | RdfType | SpecializationOf | Identifier | DctType | ProvValue | HasPart | HasVersion | ConformsTo
    | References | Requires | Notation | Used | Generated

  datatype Triple = Triple(subject: Term, property: Property, value: Term)

  // ---------------------------------------------------------------- the store

  function Added(store: seq<Triple>, t: Triple): seq<Triple> {
    if t in store then store else store + [t]
  }

  /** A store after some additions, in order. */
  function AddAll(store: seq<Triple>, ts: seq<Triple>): seq<Triple> {
    if ts == [] then store else Added(AddAll(store, ts[..|ts| - 1]), ts[|ts| - 1])
  }

  class Store {
    var triples: seq<Triple>
    ghost var log: seq<Triple>

    /** The store holds what was ever added to it. */
    ghost predicate Valid()
      reads this
    {
      triples == AddAll([], log)
    }

    constructor ()
      ensures Valid() && log == []
    {
      triples, log := [], [];
    }

    method Add(t: Triple)
      requires Valid()
      modifies this
      ensures Valid() && log == old(log) + [t]
      ensures triples == if t in old(triples) then old(triples) else old(triples) + [t]
    {
      if t !in triples {
        triples := triples + [t];
      }
      log := log + [t];
      assert log[..|log| - 1] == old(log);
    }
  }

  // ---------------------------------------------------------------- what is projected

  function ConceptTriples(concept: Term): seq<Triple> {
    [Triple(concept, RdfType, SkosConcept), Triple(concept, Notation, NotationOf(concept))]
  }

  function RefTriples(subject: Term, property: Property, refs: seq<string>): (ts: seq<Triple>)
    ensures |ts| == |refs| && forall i :: 0 <= i < |refs| ==> ts[i] == Triple(subject, property, Reference(refs[i]))
  {
    seq(|refs|, i requires 0 <= i < |refs| => Triple(subject, property, Reference(refs[i])))
  }

  function VersionTriples(subject: Term, version: Option<string>): seq<Triple> {
    if version.Some? then [Triple(subject, HasVersion, Plain(version.value))] else []
  }

  function ObjectHead(item: PossibilityObject): seq<Triple> {
    var node, kind := ObjectNode(item.objectId), ObjectKindConcept(item.kind);
    ConceptTriples(kind) +
    [Triple(node, RdfType, ProvEntity),
     Triple(node, SpecializationOf, Reference(item.semanticRef)),
     Triple(node, Identifier, Plain(item.objectId)),
     Triple(node, DctType, kind),
     Triple(node, ProvValue, ObjectJson(item))]
  }

  function ObjectTail(item: PossibilityObject): seq<Triple> {
    var node := ObjectNode(item.objectId);
    VersionTriples(node, item.revision) +
    RefTriples(node, ConformsTo, item.ontologyRefs) +
    RefTriples(node, References, item.evidenceRefs)
  }

  function ObjectTriples(root: Term, item: PossibilityObject): seq<Triple> {
    ObjectHead(item) + [Triple(root, HasPart, ObjectNode(item.objectId))] + ObjectTail(item)
  }

  function MorphismConcepts(item: Morphism): seq<Triple> {
    ConceptTriples(MorphismKindConcept(item.kind)) + ConceptTriples(PhaseConcept(item.phase)) +
    ConceptTriples(ReversalConcept(item.reversal))
  }

  function MorphismTypes(item: Morphism): seq<Triple> {
    var node := MorphismNode(item.morphismId);
    [Triple(node, RdfType, ProvActivity),
     Triple(node, Identifier, IdText(item.morphismId)),
     Triple(node, DctType, MorphismKindConcept(item.kind)),
     Triple(node, DctType, PhaseConcept(item.phase)),
     Triple(node, DctType, ReversalConcept(item.reversal))]
  }

  function MorphismFacts(item: Morphism): seq<Triple> {
    var node := MorphismNode(item.morphismId);
    [Triple(node, Notation, NotationOf(PhaseConcept(item.phase))),
     Triple(node, Used, ObjectNode(item.sourceId)),
     Triple(node, Generated, ObjectNode(item.targetId)),
     Triple(node, ProvValue, MorphismJson(item))]
  }

  function MorphismHead(item: Morphism): seq<Triple> {
    MorphismConcepts(item) + MorphismTypes(item) + MorphismFacts(item)
  }

  function GrantTriples(node: Term, required: bool): seq<Triple> {
    if required then ConceptTriples(ExecutionGrantConcept) + [Triple(node, Requires, ExecutionGrantConcept)] else []
  }

  function MorphismTail(item: Morphism): seq<Triple> {
    var node, required := MorphismNode(item.morphismId), item.requirements;
    RefTriples(node, Requires, required.capabilityRefs + required.policyRefs + required.evidenceRefs) +
    VersionTriples(node, required.requiredRevision) +
    GrantTriples(node, required.executionGrantRequired) +
    RefTriples(node, References, item.evidenceRefs)
  }

  function MorphismTriples(root: Term, item: Morphism): seq<Triple> {
    MorphismHead(item) + [Triple(root, HasPart, MorphismNode(item.morphismId))] + MorphismTail(item)
  }

  function RootTriples(g: PossibilityGraph): seq<Triple> {
    var root := GraphNode(g);
    [Triple(root, RdfType, ProvEntity), Triple(root, Identifier, DigestText(g)), Triple(root, DctType, Profile)] +
    ConceptTriples(Profile)
  }

  function ObjectsOf(root: Term): PossibilityObject -> seq<Triple> {
    (item: PossibilityObject) => ObjectTriples(root, item)
  }

  function MorphismsOf(root: Term): Morphism -> seq<Triple> {
    (item: Morphism) => MorphismTriples(root, item)
  }

  function GraphTriples(g: PossibilityGraph): seq<Triple> {
    RootTriples(g) + FlatMap(ObjectsOf(GraphNode(g)), g.objects) + FlatMap(MorphismsOf(GraphNode(g)), g.morphisms)
  }

  // ---------------------------------------------------------------- the projection

  method DeclareConcept(store: Store, concept: Term)
    requires store.Valid()
    modifies store
    ensures store.Valid() && store.log == old(store.log) + ConceptTriples(concept)
  {
    store.Add(Triple(concept, RdfType, SkosConcept));
    store.Add(Triple(concept, Notation, NotationOf(concept)));
  }

  /** The loops that add one triple for each reference. */
  method AddReferences(store: Store, subject: Term, property: Property, refs: seq<string>)
    requires store.Valid()
    modifies store
    ensures store.Valid() && store.log == old(store.log) + RefTriples(subject, property, refs)
  {
    hide AddAll;
    ghost var ts := RefTriples(subject, property, refs);
    for i := 0 to |refs|
      invariant store.Valid() && store.log == old(store.log) + ts[..i]
    {
      store.Add(Triple(subject, property, Reference(refs[i])));
      TakeNext(old(store.log), ts, i);
    }
    assert ts[..|refs|] == ts;
  }

  lemma TakeNext(before: seq<Triple>, ts: seq<Triple>, i: nat)
    requires i < |ts|
    ensures before + ts[..i + 1] == before + ts[..i] + [ts[i]]
  {
  }

  method DescribeObject(store: Store, item: PossibilityObject)
    requires store.Valid()
    modifies store
    ensures store.Valid() && store.log == old(store.log) + ObjectHead(item)
  {
    hide AddAll;
    var node, kind := ObjectNode(item.objectId), ObjectKindConcept(item.kind);
    DeclareConcept(store, kind);
    store.Add(Triple(node, RdfType, ProvEntity));
    store.Add(Triple(node, SpecializationOf, Reference(item.semanticRef)));
    store.Add(Triple(node, Identifier, Plain(item.objectId)));
    store.Add(Triple(node, DctType, kind));
    store.Add(Triple(node, ProvValue, ObjectJson(item)));
  }

  method AddVersion(store: Store, node: Term, version: Option<string>)
    requires store.Valid()
    modifies store
    ensures store.Valid() && store.log == old(store.log) + VersionTriples(node, version)
  {
    if version.Some? {
      store.Add(Triple(node, HasVersion, Plain(version.value)));
    }
  }

  /** `_project_object`. */
  method ProjectObject(store: Store, root: Term, item: PossibilityObject)
    requires store.Valid()
    modifies store
    ensures store.Valid() && store.log == old(store.log) + ObjectTriples(root, item)
  {
    hide AddAll;
    hide ObjectHead;
    hide RefTriples;
    hide VersionTriples;
    var node := ObjectNode(item.objectId);
    DescribeObject(store, item);
    store.Add(Triple(root, HasPart, node));
    AddVersion(store, node, item.revision);
    AddReferences(store, node, ConformsTo, item.ontologyRefs);
    AddReferences(store, node, References, item.evidenceRefs);
  }

  method TypeMorphism(store: Store, item: Morphism)
    requires store.Valid()
    modifies store
    ensures store.Valid() && store.log == old(store.log) + MorphismTypes(item)
  {
    hide AddAll;
    var node := MorphismNode(item.morphismId);
    store.Add(Triple(node, RdfType, ProvActivity));
    store.Add(Triple(node, Identifier, IdText(item.morphismId)));
    store.Add(Triple(node, DctType, MorphismKindConcept(item.kind)));
    store.Add(Triple(node, DctType, PhaseConcept(item.phase)));
    store.Add(Triple(node, DctType, ReversalConcept(item.reversal)));
  }

  method DescribeMorphism(store: Store, item: Morphism)
    requires store.Valid()
    modifies store
    ensures store.Valid() && store.log == old(store.log) + MorphismFacts(item)
  {
    hide AddAll;
    var node := MorphismNode(item.morphismId);
    store.Add(Triple(node, Notation, NotationOf(PhaseConcept(item.phase))));
    store.Add(Triple(node, Used, ObjectNode(item.sourceId)));
    store.Add(Triple(node, Generated, ObjectNode(item.targetId)));
    store.Add(Triple(node, ProvValue, MorphismJson(item)));
  }

  method DeclareMorphismConcepts(store: Store, item: Morphism)
    requires store.Valid()
    modifies store
    ensures store.Valid() && store.log == old(store.log) + MorphismConcepts(item)
  {
    hide AddAll;
    hide ConceptTriples;
    DeclareConcept(store, MorphismKindConcept(item.kind));
    DeclareConcept(store, PhaseConcept(item.phase));
    DeclareConcept(store, ReversalConcept(item.reversal));
  }

  method AddGrant(store: Store, node: Term, required: bool)
    requires store.Valid()
    modifies store
    ensures store.Valid() && store.log == old(store.log) + GrantTriples(node, required)
  {
    if required {
      DeclareConcept(store, ExecutionGrantConcept);
      store.Add(Triple(node, Requires, ExecutionGrantConcept));
    }
  }

  /** `_project_morphism`. */
  method ProjectMorphism(store: Store, root: Term, item: Morphism)
    requires store.Valid()
    modifies store
    ensures store.Valid() && store.log == old(store.log) + MorphismTriples(root, item)
  {
    hide AddAll;
    hide MorphismConcepts;
    hide MorphismTypes;
    hide MorphismFacts;
    hide RefTriples;
    hide VersionTriples;
    hide GrantTriples;
    var node, required := MorphismNode(item.morphismId), item.requirements;
    DeclareMorphismConcepts(store, item);
    TypeMorphism(store, item);
    DescribeMorphism(store, item);
    store.Add(Triple(root, HasPart, node));
    AddReferences(store, node, Requires, required.capabilityRefs + required.policyRefs + required.evidenceRefs);
    AddVersion(store, node, required.requiredRevision);
    AddGrant(store, node, required.executionGrantRequired);
    AddReferences(store, node, References, item.evidenceRefs);
  }

  /** `graph_to_rdf`. The original starts from an empty store; projecting into one that holds more is the same loop. */
  method ProjectGraph(store: Store, g: PossibilityGraph)
    requires store.Valid()
    modifies store
    ensures store.Valid() && store.log == old(store.log) + GraphTriples(g)
  {
    hide AddAll;
    hide FlatMap;
    hide ObjectTriples;
    hide MorphismTriples;
    var root := GraphNode(g);
    ghost var before := store.log;
    store.Add(Triple(root, RdfType, ProvEntity));
    store.Add(Triple(root, Identifier, DigestText(g)));
    store.Add(Triple(root, DctType, Profile));
    DeclareConcept(store, Profile);
    ghost var rooted := before + RootTriples(g);
    assert store.log == rooted;
    hide RootTriples;
    ghost var f, h := ObjectsOf(root), MorphismsOf(root);
    FlatMapNothing(f);
    FlatMapNothing(h);
    for i := 0 to |g.objects|
      invariant store.Valid() && store.log == rooted + FlatMap(f, g.objects[..i])
    {
      ProjectObject(store, root, g.objects[i]);
      NextPiece(f, g.objects, i, rooted);
    }
    assert g.objects[..|g.objects|] == g.objects;
    ghost var middle := rooted + FlatMap(f, g.objects);
    for i := 0 to |g.morphisms|
      invariant store.Valid() && store.log == middle + FlatMap(h, g.morphisms[..i])
    {
      ProjectMorphism(store, root, g.morphisms[i]);
      NextPiece(h, g.morphisms, i, middle);
    }
    assert g.morphisms[..|g.morphisms|] == g.morphisms;
    AppendAssociative(before, RootTriples(g), FlatMap(f, g.objects));
    AppendAssociative(before, RootTriples(g) + FlatMap(f, g.objects), FlatMap(h, g.morphisms));
  }

  lemma FlatMapNothing<A, B>(f: A -> seq<B>)
    ensures FlatMap(f, []) == []
  {
  }

  lemma NextPiece<A, B>(f: A -> seq<B>, s: seq<A>, i: nat, before: seq<B>)
    requires i < |s|
    ensures before + FlatMap(f, s[..i + 1]) == before + FlatMap(f, s[..i]) + f(s[i])
  {
    assert s[..i + 1][..i] == s[..i];
  }

  method GraphToRdf(g: PossibilityGraph) returns (store: Store)
    ensures fresh(store) && store.Valid() && store.log == GraphTriples(g)
  {
    store := new Store();
    ProjectGraph(store, g);
    assert [] + GraphTriples(g) == GraphTriples(g);
  }

  // ---------------------------------------------------------------- queries

  function From(s: Term, p: Property): Triple -> bool {
    (t: Triple) => t.subject == s && t.property == p
  }

  function To(p: Property, o: Term): Triple -> bool {
    (t: Triple) => t.property == p && t.value == o
  }

  function SubjectOf(t: Triple): Term {
    t.subject
  }

  function ValueIn(t: Triple): Term {
    t.value
  }

  function Subjects(store: seq<Triple>, p: Property, o: Term): seq<Term> {
    Map(SubjectOf, Filter(To(p, o), store))
  }

  function Objects(store: seq<Triple>, s: Term, p: Property): seq<Term> {
    Map(ValueIn, Filter(From(s, p), store))
  }

  /** `graph.value(s, p)`: the first of the objects. */
  function ValueOf(store: seq<Triple>, s: Term, p: Property): Option<Term> {
    var found := Objects(store, s, p);
    if found == [] then None else Some(found[0])
  }

  // ---------------------------------------------------------------- the inverse

  datatype RdfError =
    | GraphIdentityMismatch | GraphRootAmbiguous | PartMissingProvValue | PayloadInvalid | PartTypeUnsupported
    | GraphRejected(error: GraphError) | ContentDigestMismatch

  datatype Parts = Parts(objects: seq<PossibilityObject>, morphisms: seq<Morphism>)

  function RootOf(store: seq<Triple>, expected: Option<PossibilityGraph>): Result<Term, RdfError> {
    var roots := Subjects(store, DctType, Profile);
    if expected.Some? then
      if GraphNode(expected.value) in roots then Success(GraphNode(expected.value)) else Failure(GraphIdentityMismatch)
    else if |roots| == 1 then Success(roots[0])
    else Failure(GraphRootAmbiguous)
  }

  /** One part, decoded by its type; every literal but the two JSON payloads fails to decode. */
  function ReadPart(store: seq<Triple>, part: Term, read: Parts): Result<Parts, RdfError> {
    var raw := ValueOf(store, part, ProvValue);
    if raw.None? then Failure(PartMissingProvValue)
    else if !raw.value.ObjectJson? && !raw.value.MorphismJson? then Failure(PayloadInvalid)
    else if Triple(part, RdfType, ProvActivity) in store then
      if raw.value.MorphismJson? && ValidateMorphism(raw.value.edge).Success?
      then Success(read.(morphisms := read.morphisms + [raw.value.edge])) else Failure(PayloadInvalid)
    else if Triple(part, RdfType, ProvEntity) in store then
      if raw.value.ObjectJson? then Success(read.(objects := read.objects + [raw.value.item])) else Failure(PayloadInvalid)
    else Failure(PartTypeUnsupported)
  }

  function ReadParts(store: seq<Triple>, parts: seq<Term>): Result<Parts, RdfError> {
    if parts == [] then Success(Parts([], []))
    else
      var read :- ReadParts(store, parts[..|parts| - 1]);
      ReadPart(store, parts[|parts| - 1], read)
  }

  /** Constructing a graph runs its topology validator. */
  function ConstructGraph(objects: seq<PossibilityObject>, morphisms: seq<Morphism>): Result<PossibilityGraph, RdfError> {
    var g := PossibilityGraph(objects, morphisms);
    if !g.UniqueObjectIds() then Failure(GraphRejected(DuplicateObjectId))
    else if !g.UniqueMorphismIds() then Failure(GraphRejected(DuplicateMorphismId))
    else if !g.EndpointsKnown() then Failure(GraphRejected(EndpointNotInGraph))
    else Success(g)
  }

  function Reconstruct(store: seq<Triple>, expected: Option<PossibilityGraph>): Result<PossibilityGraph, RdfError> {
    var root :- RootOf(store, expected);
    var parts :- ReadParts(store, Objects(store, root, HasPart));
    var g :- ConstructGraph(parts.objects, parts.morphisms);
    if ValueOf(store, root, Identifier) == Some(DigestText(g)) then Success(g) else Failure(ContentDigestMismatch)
  }

  /** `rdf_to_graph`. */
  method RdfToGraph(store: Store, expected: Option<PossibilityGraph>) returns (r: Result<PossibilityGraph, RdfError>)
    ensures r == Reconstruct(store.triples, expected)
  {
    var triples := store.triples;
    var root :- RootOf(triples, expected);
    var objects, morphisms := [], [];
    var parts := Objects(triples, root, HasPart);
    for i := 0 to |parts|
      invariant ReadParts(triples, parts[..i]) == Success(Parts(objects, morphisms))
    {
      var part := parts[i];
      ReadPartsNext(triples, parts, i);
      var raw := ValueOf(triples, part, ProvValue);
      if raw.None? {
        return Failure(PartMissingProvValue);
      }
      if !raw.value.ObjectJson? && !raw.value.MorphismJson? {
        return Failure(PayloadInvalid);
      }
      if Triple(part, RdfType, ProvActivity) in triples {
        if raw.value.ObjectJson? || ValidateMorphism(raw.value.edge).Failure? {
          return Failure(PayloadInvalid);
        }
        morphisms := morphisms + [raw.value.edge];
      } else if Triple(part, RdfType, ProvEntity) in triples {
        if raw.value.MorphismJson? {
          return Failure(PayloadInvalid);
        }
        objects := objects + [raw.value.item];
      } else {
        return Failure(PartTypeUnsupported);
      }
    }
    assert parts[..|parts|] == parts;
    var g :- ConstructGraph(objects, morphisms);
    if ValueOf(triples, root, Identifier) != Some(DigestText(g)) {
      return Failure(ContentDigestMismatch);
    }
    return Success(g);
  }

  /** A part that fails to read fails the whole. */
  lemma ReadPartsNext(store: seq<Triple>, parts: seq<Term>, i: nat)
    requires i < |parts| && ReadParts(store, parts[..i]).Success?
    ensures ReadParts(store, parts[..i + 1]) == ReadPart(store, parts[i], ReadParts(store, parts[..i]).value)
    ensures ReadPart(store, parts[i], ReadParts(store, parts[..i]).value).Failure? ==>
              ReadParts(store, parts) == Failure(ReadPart(store, parts[i], ReadParts(store, parts[..i]).value).error)
  {
    assert parts[..i + 1][..i] == parts[..i];
    if ReadPart(store, parts[i], ReadParts(store, parts[..i]).value).Failure? {
      ReadFailureStays(store, parts, i + 1);
    }
  }

  lemma {:induction false} ReadFailureStays(store: seq<Triple>, parts: seq<Term>, n: nat)
    requires n <= |parts| && ReadParts(store, parts[..n]).Failure?
    ensures ReadParts(store, parts) == ReadParts(store, parts[..n])
  {
    if n == |parts| {
      assert parts[..n] == parts;
    } else {
      var front := parts[..|parts| - 1];
      assert front[..n] == parts[..n];
      ReadFailureStays(store, front, n);
    }
  }
}
