/** What the projection of graphs says, triple by triple, and when a store is read back or refused. */
module RdfMeaning {
  import opened Outcomes
  import opened Sequences
  import opened Possibility
  import opened RdfStore
  import opened RdfRoundTrip

  // ---------------------------------------------------------------- what a projection says

  /** A concept is typed as one and has its notation. */
  ghost predicate SaysConcept(t: Triple, concept: Term) {
    && t.subject == concept
    && match t.property
       case RdfType => t.value == SkosConcept
       case Notation => t.value == NotationOf(concept)
       case _ => false
  }

  /** Of an object: type, meaning, id, kind, revision, ontology and evidence references, and the whole of it. */
  ghost predicate SaysOfObject(t: Triple, o: PossibilityObject) {
    && t.subject == ObjectNode(o.objectId)
    && match t.property
       case RdfType => t.value == ProvEntity
       case SpecializationOf => t.value == Reference(o.semanticRef)
       case Identifier => t.value == Plain(o.objectId)
       case DctType => t.value == ObjectKindConcept(o.kind)
       case ProvValue => t.value == ObjectJson(o)
       case HasVersion => exists r :: o.revision == Some(r) && t.value == Plain(r)
       case ConformsTo => exists r :: r in o.ontologyRefs && t.value == Reference(r)
       case References => exists r :: r in o.evidenceRefs && t.value == Reference(r)
       case _ => false
  }

  /** Of an edge: type, id, kind, phase and reversal, its ends, what it requires, evidence, and the whole of it. */
  ghost predicate SaysOfMorphism(t: Triple, m: Morphism) {
    && t.subject == MorphismNode(m.morphismId)
    && match t.property
       case RdfType => t.value == ProvActivity
       case Identifier => t.value == IdText(m.morphismId)
       case DctType => t.value == MorphismKindConcept(m.kind) || t.value == PhaseConcept(m.phase) || t.value == ReversalConcept(m.reversal)
       case Notation => t.value == NotationOf(PhaseConcept(m.phase))
       case Used => t.value == ObjectNode(m.sourceId)
       case Generated => t.value == ObjectNode(m.targetId)
       case ProvValue => t.value == MorphismJson(m)
       case Requires =>
         || (exists r :: && (r in m.requirements.capabilityRefs || r in m.requirements.policyRefs || r in m.requirements.evidenceRefs)
                         && t.value == Reference(r))
         || (m.requirements.executionGrantRequired && t.value == ExecutionGrantConcept)
       case HasVersion => exists r :: m.requirements.requiredRevision == Some(r) && t.value == Plain(r)
       case References => exists r :: r in m.evidenceRefs && t.value == Reference(r)
       case _ => false
  }

  ghost predicate SaysOfRoot(t: Triple, g: PossibilityGraph) {
    && t.subject == GraphNode(g)
    && match t.property
       case RdfType => t.value == ProvEntity
       case Identifier => t.value == DigestText(g)
       case DctType => t.value == Profile
       case _ => false
  }

  ghost predicate SaysThroughObject(t: Triple, root: Term, o: PossibilityObject) {
    || SaysOfObject(t, o) || SaysConcept(t, ObjectKindConcept(o.kind)) || t == Triple(root, HasPart, ObjectNode(o.objectId))
  }

  ghost predicate SaysThroughMorphism(t: Triple, root: Term, m: Morphism) {
    || SaysOfMorphism(t, m) || t == Triple(root, HasPart, MorphismNode(m.morphismId))
    || SaysConcept(t, MorphismKindConcept(m.kind)) || SaysConcept(t, PhaseConcept(m.phase))
    || SaysConcept(t, ReversalConcept(m.reversal))
    || (m.requirements.executionGrantRequired && SaysConcept(t, ExecutionGrantConcept))
  }

  lemma ConceptSays(t: Triple, concept: Term)
    ensures t in ConceptTriples(concept) <==> SaysConcept(t, concept)
  {
  }

  lemma RefsSay(t: Triple, subject: Term, property: Property, refs: seq<string>)
    ensures t in RefTriples(subject, property, refs) <==>
            t.subject == subject && t.property == property && exists r :: r in refs && t.value == Reference(r)
  {
    var ts := RefTriples(subject, property, refs);
    if t in ts {
      var i :| 0 <= i < |ts| && ts[i] == t;
      assert refs[i] in refs;
    }
    if t.subject == subject && t.property == property && exists r :: r in refs && t.value == Reference(r) {
      var r :| r in refs && t.value == Reference(r);
      var i :| 0 <= i < |refs| && refs[i] == r;
      assert ts[i] == t;
    }
  }

  lemma ObjectSays(t: Triple, root: Term, o: PossibilityObject)
    ensures t in ObjectTriples(root, o) <==> SaysThroughObject(t, root, o)
  {
    var node := ObjectNode(o.objectId);
    ConceptSays(t, ObjectKindConcept(o.kind));
    RefsSay(t, node, ConformsTo, o.ontologyRefs);
    RefsSay(t, node, References, o.evidenceRefs);
    hide ConceptTriples;
    hide RefTriples;
    hide SaysConcept;
  }

  lemma MorphismHeadSays(t: Triple, m: Morphism)
    ensures t in MorphismHead(m) <==>
            || SaysConcept(t, MorphismKindConcept(m.kind)) || SaysConcept(t, PhaseConcept(m.phase))
            || SaysConcept(t, ReversalConcept(m.reversal))
            || (SaysOfMorphism(t, m) && t.property !in {Requires, HasVersion, References})
  {
    ConceptSays(t, MorphismKindConcept(m.kind));
    ConceptSays(t, PhaseConcept(m.phase));
    ConceptSays(t, ReversalConcept(m.reversal));
    hide ConceptTriples;
    hide SaysConcept;
  }

  lemma MorphismTailSays(t: Triple, m: Morphism)
    ensures t in MorphismTail(m) <==>
            || (SaysOfMorphism(t, m) && t.property in {Requires, HasVersion, References})
            || (m.requirements.executionGrantRequired && SaysConcept(t, ExecutionGrantConcept))
  {
    var node, required := MorphismNode(m.morphismId), m.requirements;
    ConceptSays(t, ExecutionGrantConcept);
    RefsSay(t, node, Requires, required.capabilityRefs + required.policyRefs + required.evidenceRefs);
    RefsSay(t, node, References, m.evidenceRefs);
    hide ConceptTriples;
    hide RefTriples;
    hide SaysConcept;
  }

  lemma MorphismSays(t: Triple, root: Term, m: Morphism)
    ensures t in MorphismTriples(root, m) <==> SaysThroughMorphism(t, root, m)
  {
    MorphismHeadSays(t, m);
    MorphismTailSays(t, m);
    hide MorphismHead;
    hide MorphismTail;
    hide SaysConcept;
    hide SaysOfMorphism;
  }

  lemma RootSays(t: Triple, g: PossibilityGraph)
    ensures t in RootTriples(g) <==> SaysOfRoot(t, g) || SaysConcept(t, Profile)
  {
    ConceptSays(t, Profile);
    hide ConceptTriples;
    hide SaysConcept;
  }

  /** The projection of a graph says this of its root, of each object and of each edge, and nothing else. */
  lemma GraphSays(t: Triple, g: PossibilityGraph)
    ensures t in GraphTriples(g) <==>
            || SaysOfRoot(t, g) || SaysConcept(t, Profile)
            || (exists o :: o in g.objects && SaysThroughObject(t, GraphNode(g), o))
            || (exists m :: m in g.morphisms && SaysThroughMorphism(t, GraphNode(g), m))
  {
    hide FlatMap;
    var root := GraphNode(g);
    RootSays(t, g);
    forall o ensures t in ObjectTriples(root, o) <==> SaysThroughObject(t, root, o) {
      ObjectSays(t, root, o);
    }
    forall m ensures t in MorphismTriples(root, m) <==> SaysThroughMorphism(t, root, m) {
      MorphismSays(t, root, m);
    }
    hide ObjectTriples;
    hide MorphismTriples;
    hide RootTriples;
    hide SaysThroughObject;
    hide SaysThroughMorphism;
    hide SaysOfRoot;
    hide SaysConcept;
    InFlatMap(ObjectsOf(root), g.objects, t);
    InFlatMap(MorphismsOf(root), g.morphisms, t);
  }

  lemma InFlatMap<A, B>(f: A -> seq<B>, s: seq<A>, y: B)
    ensures y in FlatMap(f, s) <==> exists x :: x in s && y in f(x)
  {
    if y in FlatMap(f, s) {
      var i := FlatMapSource(f, s, y);
      assert s[i] in s;
    }
    if x :| x in s && y in f(x) {
      var i :| 0 <= i < |s| && s[i] == x;
      FlatMapTarget(f, s, i, y);
    }
  }

  lemma {:induction false} AddAllMembers(store: seq<Triple>, ts: seq<Triple>, t: Triple)
    ensures t in AddAll(store, ts) <==> t in store || t in ts
  {
    if ts != [] {
      FrontAndLast(ts);
      AddAllMembers(store, ts[..|ts| - 1], t);
    }
  }

  /** A store of graphs says what their projections say; who shares it makes no difference. */
  lemma StoreSays(graphs: seq<PossibilityGraph>, t: Triple)
    ensures t in StoreOf(graphs) <==> exists g :: g in graphs && t in GraphTriples(g)
  {
    hide FlatMap;
    AddAllMembers([], AllTriples(graphs), t);
    InFlatMap(GraphTriples, graphs, t);
    hide AddAll;
    hide GraphTriples;
  }

  /** What a projection says of an edge's node, an edge of that id says. */
  lemma SaidOfEdge(g: PossibilityGraph, t: Triple, id: MorphismId) returns (n: Morphism)
    requires t in GraphTriples(g) && t.subject == MorphismNode(id)
    ensures n in g.morphisms && n.morphismId == id && SaysOfMorphism(t, n)
  {
    GraphSays(t, g);
    hide GraphTriples;
    assert !exists o :: o in g.objects && SaysThroughObject(t, GraphNode(g), o);
    n :| n in g.morphisms && SaysThroughMorphism(t, GraphNode(g), n);
  }

  lemma EdgeSays(g: PossibilityGraph, t: Triple, m: Morphism)
    requires m in g.morphisms && SaysOfMorphism(t, m)
    ensures t in GraphTriples(g)
  {
    GraphSays(t, g);
    hide GraphTriples;
    hide SaysOfMorphism;
    assert SaysThroughMorphism(t, GraphNode(g), m);
  }

  /** From a store of compatible graphs alone, its payloads aside: between which objects an edge runs, what it requires, and all else said of it. */
  lemma StoreSaysOfEdge(graphs: seq<PossibilityGraph>, m: Morphism, t: Triple)
    requires Compatible(graphs) && exists g :: g in graphs && m in g.morphisms
    requires t.subject == MorphismNode(m.morphismId)
    ensures t in StoreOf(graphs) <==> SaysOfMorphism(t, m)
  {
    hide Compatible;
    hide SaysOfMorphism;
    hide GraphTriples;
    StoreSays(graphs, t);
    hide StoreOf;
    var h :| h in graphs && m in h.morphisms;
    if t in StoreOf(graphs) {
      var g :| g in graphs && t in GraphTriples(g);
      var n := SaidOfEdge(g, t, m.morphismId);
      SharedMorphism(graphs, g, n, h, m);
    }
    if SaysOfMorphism(t, m) {
      EdgeSays(h, t, m);
    }
  }

  lemma SharedMorphism(graphs: seq<PossibilityGraph>, g: PossibilityGraph, n: Morphism, h: PossibilityGraph, m: Morphism)
    requires Compatible(graphs) && g in graphs && h in graphs && n in g.morphisms && m in h.morphisms
    requires n.morphismId == m.morphismId
    ensures n == m
  {
    assert n in GraphUnion.AllMorphisms(graphs) && m in GraphUnion.AllMorphisms(graphs);
  }

  // ---------------------------------------------------------------- what is read, and what is refused

  /** The first value the store gives the subject for the property. */
  ghost predicate FirstValue(store: seq<Triple>, s: Term, p: Property, value: Term) {
    exists i :: && 0 <= i < |store| && store[i] == Triple(s, p, value)
                && forall j :: 0 <= j < i ==> store[j].subject != s || store[j].property != p
  }

  ghost predicate NoValue(store: seq<Triple>, s: Term, p: Property) {
    forall t :: t in store ==> t.subject != s || t.property != p
  }

  lemma {:induction false} FirstValueMeans(store: seq<Triple>, s: Term, p: Property)
    ensures ValueOf(store, s, p).None? ==> NoValue(store, s, p)
    ensures ValueOf(store, s, p).Some? ==> FirstValue(store, s, p, ValueOf(store, s, p).value)
  {
    if store != [] {
      var front, last := store[..|store| - 1], store[|store| - 1];
      FirstValueMeans(front, s, p);
      ValueSnoc(front, last, s, p);
      FrontAndLast(store);
      if ValueOf(front, s, p).Some? {
        var value := ValueOf(front, s, p).value;
        var i :| 0 <= i < |front| && front[i] == Triple(s, p, value)
                 && forall j :: 0 <= j < i ==> front[j].subject != s || front[j].property != p;
        assert store[i] == Triple(s, p, value);
      } else if From(s, p)(last) {
        assert store[|front|] == Triple(s, p, last.value);
        forall j | 0 <= j < |front| ensures store[j].subject != s || store[j].property != p {
          assert store[j] in front;
        }
      }
    }
  }

  lemma ValueSnoc(front: seq<Triple>, last: Triple, s: Term, p: Property)
    ensures ValueOf(front + [last], s, p) ==
            if ValueOf(front, s, p).Some? then ValueOf(front, s, p)
            else if From(s, p)(last) then Some(last.value) else None
  {
    assert (front + [last])[..|front|] == front;
    var found := Filter(From(s, p), front);
    assert found + [] == found;
  }

  lemma OneFirstValue(store: seq<Triple>, s: Term, p: Property, a: Term, b: Term)
    requires FirstValue(store, s, p, a) && FirstValue(store, s, p, b)
    ensures a == b && !NoValue(store, s, p)
  {
    var i :| 0 <= i < |store| && store[i] == Triple(s, p, a) && forall j :: 0 <= j < i ==> store[j].subject != s || store[j].property != p;
    assert store[i] in store;
  }

  /** An edge the validator accepts. */
  ghost predicate LawfulEdge(m: Morphism) {
    (m.kind.Actuate? ==> m.phase.Do?) && (m.requirements.executionGrantRequired <==> m.phase.Do?)
  }

  /** What is made of a part: an object or an edge that is added, or why it is refused. */
  datatype Reading = AddsObject(item: PossibilityObject) | AddsMorphism(edge: Morphism) | Refuses(error: RdfError)

  /** What the store says of a part decides how it is read. */
  ghost predicate ReadsAs(store: seq<Triple>, part: Term, reading: Reading) {
    var activity, entity := Triple(part, RdfType, ProvActivity) in store, Triple(part, RdfType, ProvEntity) in store;
    match reading
    case AddsMorphism(m) => activity && FirstValue(store, part, ProvValue, MorphismJson(m)) && LawfulEdge(m)
    case AddsObject(o) => !activity && entity && FirstValue(store, part, ProvValue, ObjectJson(o))
    case Refuses(PartMissingProvValue) => NoValue(store, part, ProvValue)
    case Refuses(PartTypeUnsupported) =>
      !activity && !entity && exists v :: FirstValue(store, part, ProvValue, v) && (v.ObjectJson? || v.MorphismJson?)
    case Refuses(PayloadInvalid) =>
      exists v :: && FirstValue(store, part, ProvValue, v)
                  && if !v.ObjectJson? && !v.MorphismJson? then true
                     else if activity then !v.MorphismJson? || !LawfulEdge(v.edge)
                     else entity && !v.ObjectJson?
    case Refuses(_) => false
  }

  function Extended(reading: Reading, read: Parts): Result<Parts, RdfError> {
    match reading
    case AddsObject(o) => Success(Parts(read.objects + [o], read.morphisms))
    case AddsMorphism(m) => Success(Parts(read.objects, read.morphisms + [m]))
    case Refuses(e) => Failure(e)
  }

  /** A part is read in exactly one way, and that way. */
  lemma ReadPartExact(store: seq<Triple>, part: Term, read: Parts) returns (reading: Reading)
    ensures ReadsAs(store, part, reading) && ReadPart(store, part, read) == Extended(reading, read)
    ensures forall other :: ReadsAs(store, part, other) ==> other == reading
  {
    FirstValueMeans(store, part, ProvValue);
    var raw := ValueOf(store, part, ProvValue);
    var activity, entity := Triple(part, RdfType, ProvActivity) in store, Triple(part, RdfType, ProvEntity) in store;
    hide ValueOf;
    forall v | FirstValue(store, part, ProvValue, v) ensures raw == Some(v) {
      if raw.None? {
        OneFirstValue(store, part, ProvValue, v, v);
      } else {
        OneFirstValue(store, part, ProvValue, v, raw.value);
      }
    }
    if raw.Some? {
      OneFirstValue(store, part, ProvValue, raw.value, raw.value);
    }
    hide FirstValue;
    hide NoValue;
    reading :=
      if raw.None? then Refuses(PartMissingProvValue)
      else if !raw.value.ObjectJson? && !raw.value.MorphismJson? then Refuses(PayloadInvalid)
      else if activity then
        if raw.value.MorphismJson? && LawfulEdge(raw.value.edge) then AddsMorphism(raw.value.edge) else Refuses(PayloadInvalid)
      else if entity then
        if raw.value.ObjectJson? then AddsObject(raw.value.item) else Refuses(PayloadInvalid)
      else Refuses(PartTypeUnsupported);
  }

  /** The parts before `n` have been read, each as the store says, and make up these objects and edges. */
  ghost predicate ReadUpTo(store: seq<Triple>, parts: seq<Term>, readings: seq<Reading>, read: Parts) {
    && |readings| <= |parts|
    && (forall i :: 0 <= i < |readings| ==> ReadsAs(store, parts[i], readings[i]) && !readings[i].Refuses?)
    && read.objects == FlatMap(ObjectRead, readings) && read.morphisms == FlatMap(MorphismRead, readings)
  }

  function ObjectRead(reading: Reading): seq<PossibilityObject> {
    if reading.AddsObject? then [reading.item] else []
  }

  function MorphismRead(reading: Reading): seq<Morphism> {
    if reading.AddsMorphism? then [reading.edge] else []
  }

  /** Parts are read in order, up to the first that is refused. */
  lemma {:induction false} ReadPartsExact(store: seq<Triple>, parts: seq<Term>) returns (readings: seq<Reading>, read: Parts)
    ensures ReadUpTo(store, parts, readings, read)
    ensures ReadParts(store, parts).Success? ==> |readings| == |parts| && read == ReadParts(store, parts).value
    ensures ReadParts(store, parts).Failure? ==>
              |readings| < |parts| && ReadsAs(store, parts[|readings|], Refuses(ReadParts(store, parts).error))
  {
    hide ReadsAs;
    hide ReadPart;
    if parts == [] {
      readings, read := [], Parts([], []);
    } else {
      var front, last := parts[..|parts| - 1], parts[|parts| - 1];
      readings, read := ReadPartsExact(store, front);
      if ReadParts(store, front).Success? {
        var reading := ReadPartExact(store, last, read);
        if !reading.Refuses? {
          FlatMapSnoc(ObjectRead, readings, reading);
          FlatMapSnoc(MorphismRead, readings, reading);
          assert read.objects + [] == read.objects && read.morphisms + [] == read.morphisms;
          readings, read := readings + [reading], ReadParts(store, parts).value;
        }
      }
    }
  }

  ghost predicate IsRoot(store: seq<Triple>, root: Term) {
    Triple(root, DctType, Profile) in store
  }

  lemma RootsAre(store: seq<Triple>, root: Term)
    ensures root in Subjects(store, DctType, Profile) <==> IsRoot(store, root)
  {
    var kept := Filter(To(DctType, Profile), store);
    if root in Subjects(store, DctType, Profile) {
      var i :| 0 <= i < |kept| && kept[i].subject == root;
      assert kept[i] in kept;
    }
    if IsRoot(store, root) {
      assert Triple(root, DctType, Profile) in kept;
      var i :| 0 <= i < |kept| && kept[i] == Triple(root, DctType, Profile);
      assert Subjects(store, DctType, Profile)[i] == root;
    }
  }

  /** Asked for a graph, its node must be a root; asked for none, there must be one root, said once. */
  lemma RootExact(store: seq<Triple>, expected: Option<PossibilityGraph>)
    ensures var r := RootOf(store, expected);
            if expected.Some? then
              r == if IsRoot(store, GraphNode(expected.value)) then Success(GraphNode(expected.value)) else Failure(GraphIdentityMismatch)
            else
              && (r.Failure? ==> r.error == GraphRootAmbiguous)
              && (r.Success? <==> exists i :: 0 <= i < |store| && OnlyRootAt(store, i))
              && (r.Success? ==> IsRoot(store, r.value))
  {
    if expected.Some? {
      RootsAre(store, GraphNode(expected.value));
    } else {
      var roots := Subjects(store, DctType, Profile);
      CountRoots(store);
      if |roots| == 1 {
        RootsAre(store, roots[0]);
      }
    }
  }

  /** The triple at `i`, and no other, names a root. */
  ghost predicate OnlyRootAt(store: seq<Triple>, i: nat)
    requires i < |store|
  {
    forall j :: 0 <= j < |store| ==> (store[j].property == DctType && store[j].value == Profile <==> j == i)
  }

  lemma {:induction false} CountRoots(store: seq<Triple>)
    ensures |Filter(To(DctType, Profile), store)| == 0 <==>
            forall j :: 0 <= j < |store| ==> store[j].property != DctType || store[j].value != Profile
    ensures |Filter(To(DctType, Profile), store)| == 1 <==> exists i :: 0 <= i < |store| && OnlyRootAt(store, i)
  {
    if store != [] {
      var front, last := store[..|store| - 1], |store| - 1;
      CountRoots(front);
      forall j | 0 <= j < last ensures front[j] == store[j] {
      }
      if To(DctType, Profile)(store[last]) {
        assert (forall j :: 0 <= j < |front| ==> front[j].property != DctType || front[j].value != Profile) <==> OnlyRootAt(store, last);
        forall i | 0 <= i < last ensures !OnlyRootAt(store, i) {
        }
      } else {
        forall i | 0 <= i < last ensures OnlyRootAt(front, i) <==> OnlyRootAt(store, i) {
          if OnlyRootAt(front, i) {
            assert OnlyRootAt(store, i);
          }
          if OnlyRootAt(store, i) {
            assert OnlyRootAt(front, i);
          }
        }
        assert !OnlyRootAt(store, last);
      }
    }
  }

  /** What is made of the parts that were read: a graph, if its ids are distinct, its ends known, and its root identified by it. */
  ghost predicate MakesOf(store: seq<Triple>, root: Term, read: Parts, r: Result<PossibilityGraph, RdfError>) {
    var g := PossibilityGraph(read.objects, read.morphisms);
    if exists i, j :: 0 <= i < j < |read.objects| && read.objects[i].objectId == read.objects[j].objectId then
      r == Failure(GraphRejected(DuplicateObjectId))
    else if exists i, j :: 0 <= i < j < |read.morphisms| && read.morphisms[i].morphismId == read.morphisms[j].morphismId then
      r == Failure(GraphRejected(DuplicateMorphismId))
    else if exists m :: m in read.morphisms && !(KnownEnd(read, m.sourceId) && KnownEnd(read, m.targetId)) then
      r == Failure(GraphRejected(EndpointNotInGraph))
    else if FirstValue(store, root, Identifier, DigestText(g)) then r == Success(g)
    else r == Failure(ContentDigestMismatch)
  }

  lemma FirstValueIff(store: seq<Triple>, s: Term, p: Property, v: Term)
    ensures ValueOf(store, s, p) == Some(v) <==> FirstValue(store, s, p, v)
  {
    FirstValueMeans(store, s, p);
    if FirstValue(store, s, p, v) {
      OneFirstValue(store, s, p, v, v);
      if ValueOf(store, s, p).Some? {
        OneFirstValue(store, s, p, v, ValueOf(store, s, p).value);
      }
    }
  }

  lemma GraphFromParts(store: seq<Triple>, root: Term, read: Parts)
    ensures var g := ConstructGraph(read.objects, read.morphisms);
            MakesOf(store, root, read,
                    if g.Failure? then Failure(g.error)
                    else if ValueOf(store, root, Identifier) == Some(DigestText(g.value)) then Success(g.value)
                    else Failure(ContentDigestMismatch))
  {
    var g := PossibilityGraph(read.objects, read.morphisms);
    FirstValueIff(store, root, Identifier, DigestText(g));
    hide ValueOf;
    hide FirstValue;
    assert g.EndpointsKnown() <==> forall m :: m in read.morphisms ==> KnownEnd(read, m.sourceId) && KnownEnd(read, m.targetId);
  }

  /**
   Reading a store: a root is found or refused; its parts are read in order up to the first that is refused; and
   of all of them a graph is made, or refused for its ids, its ends or its digest.
   */
  lemma ReconstructExact(store: seq<Triple>, expected: Option<PossibilityGraph>) returns (readings: seq<Reading>, read: Parts)
    ensures var r := Reconstruct(store, expected);
            if RootOf(store, expected).Failure? then r == Failure(RootOf(store, expected).error)
            else
              var root := RootOf(store, expected).value;
              var parts := Objects(store, root, HasPart);
              && ReadUpTo(store, parts, readings, read)
              && if |readings| < |parts| then r.Failure? && ReadsAs(store, parts[|readings|], Refuses(r.error))
                 else MakesOf(store, root, read, r)
  {
    readings, read := [], Parts([], []);
    if RootOf(store, expected).Success? {
      var root := RootOf(store, expected).value;
      hide RootOf;
      readings, read := ReadPartsExact(store, Objects(store, root, HasPart));
      GraphFromParts(store, root, read);
      hide ReadParts;
      hide ReadUpTo;
      hide ReadsAs;
      hide Objects;
      hide ValueOf;
      hide MakesOf;
      hide ConstructGraph;
    }
  }

  ghost predicate KnownEnd(read: Parts, id: string) {
    exists o :: o in read.objects && o.objectId == id
  }
}
