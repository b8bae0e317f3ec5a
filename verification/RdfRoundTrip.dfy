/** What is read back from a triple store that possibility graphs were projected into. */
module RdfRoundTrip {
  import opened Outcomes
  import opened Sequences
  import opened Ordering
  import opened Possibility
  import opened RdfStore
  import GraphUnion

  ghost function AllTriples(graphs: seq<PossibilityGraph>): seq<Triple> {
    FlatMap(GraphTriples, graphs)
  }

  /** The store after projecting these graphs, in order. */
  ghost function StoreOf(graphs: seq<PossibilityGraph>): seq<Triple> {
    AddAll([], AllTriples(graphs))
  }

  // ---------------------------------------------------------------- the store as a set and as a list

  lemma {:induction false} AddAllMembers(store: seq<Triple>, ts: seq<Triple>, t: Triple)
    ensures t in AddAll(store, ts) <==> t in store || t in ts
  {
    if ts != [] {
      AddAllMembers(store, ts[..|ts| - 1], t);
      FrontAndLast(ts);
    }
  }

  lemma {:induction false} AddAllNoDup(store: seq<Triple>, ts: seq<Triple>)
    requires NoDup(store)
    ensures NoDup(AddAll(store, ts))
  {
    if ts != [] {
      AddAllNoDup(store, ts[..|ts| - 1]);
    }
  }

  lemma {:induction false} AddAllAppend(store: seq<Triple>, a: seq<Triple>, b: seq<Triple>)
    ensures AddAll(store, a + b) == AddAll(AddAll(store, a), b)
  {
    if b == [] {
      assert a + b == a;
    } else {
      assert (a + b)[..|a + b| - 1] == a + b[..|b| - 1];
      AddAllAppend(store, a, b[..|b| - 1]);
    }
  }

  lemma {:induction false} AddAllKnown(store: seq<Triple>, ts: seq<Triple>)
    requires forall t :: t in ts ==> t in store
    ensures AddAll(store, ts) == store
  {
    if ts != [] {
      AddAllKnown(store, ts[..|ts| - 1]);
    }
  }

  lemma {:induction false} AddAllFresh(ts: seq<Triple>)
    requires NoDup(ts)
    ensures AddAll([], ts) == ts
  {
    if ts != [] {
      FrontAndLast(ts);
      AddAllFresh(ts[..|ts| - 1]);
    }
  }

  lemma AddAllSnoc(store: seq<Triple>, ts: seq<Triple>, t: Triple)
    ensures AddAll(store, ts + [t]) == Added(AddAll(store, ts), t)
  {
    assert (ts + [t])[..|ts|] == ts;
  }

  lemma FilterAdded(q: Triple -> bool, store: seq<Triple>, t: Triple)
    ensures Filter(q, Added(store, t)) == if q(t) then Added(Filter(q, store), t) else Filter(q, store)
  {
    FilterAppend(q, store, [t]);
    FilterOne(q, t);
  }

  /** A query over the store sees the matching additions, first occurrences only, in order. */
  lemma {:induction false} FilterAddAll(q: Triple -> bool, store: seq<Triple>, ts: seq<Triple>)
    ensures Filter(q, AddAll(store, ts)) == AddAll(Filter(q, store), Filter(q, ts))
  {
    hide Filter;
    if ts == [] {
      FilterNone(q, ts);
    } else {
      hide AddAll;
      var front, last := ts[..|ts| - 1], ts[|ts| - 1];
      FrontAndLast(ts);
      AddAllSnoc(store, front, last);
      FilterAppend(q, front, [last]);
      FilterOne(q, last);
      AddAllSnoc(Filter(q, store), Filter(q, front), last);
      FilterAddAll(q, store, front);
      assert Filter(q, front) + [] == Filter(q, front);
      FilterAdded(q, AddAll(store, front), last);
    }
  }

  lemma UniqueValue(store: seq<Triple>, s: Term, p: Property, v: Term)
    requires Triple(s, p, v) in store
    requires forall t :: t in store && t.subject == s && t.property == p ==> t.value == v
    ensures ValueOf(store, s, p) == Some(v)
  {
    var found := Filter(From(s, p), store);
    assert Triple(s, p, v) in found;
    assert found[0] in found;
  }

  lemma ValueInStore(store: seq<Triple>, s: Term, p: Property)
    requires ValueOf(store, s, p).Some?
    ensures Triple(s, p, ValueOf(store, s, p).value) in store
  {
    var found := Filter(From(s, p), store);
    assert found[0] in found;
  }

  // ---------------------------------------------------------------- where a triple comes from

  ghost predicate FromObject(graphs: seq<PossibilityGraph>, t: Triple, g: PossibilityGraph, o: PossibilityObject) {
    g in graphs && o in g.objects && t in ObjectTriples(GraphNode(g), o)
  }

  ghost predicate FromMorphism(graphs: seq<PossibilityGraph>, t: Triple, g: PossibilityGraph, m: Morphism) {
    g in graphs && m in g.morphisms && t in MorphismTriples(GraphNode(g), m)
  }

  ghost predicate FromRoot(graphs: seq<PossibilityGraph>, t: Triple, g: PossibilityGraph) {
    g in graphs && t in RootTriples(g)
  }

  lemma StoreSource(graphs: seq<PossibilityGraph>, t: Triple)
    requires t in StoreOf(graphs)
    ensures (exists g :: FromRoot(graphs, t, g)) || (exists g, o :: FromObject(graphs, t, g, o)) ||
            (exists g, m :: FromMorphism(graphs, t, g, m))
  {
    hide RootTriples;
    hide ObjectTriples;
    hide MorphismTriples;
    AddAllMembers([], AllTriples(graphs), t);
    var i := FlatMapSource(GraphTriples, graphs, t);
    var g := graphs[i];
    var f, h := ObjectsOf(GraphNode(g)), MorphismsOf(GraphNode(g));
    if t in RootTriples(g) {
      assert FromRoot(graphs, t, g);
    } else if t in FlatMap(f, g.objects) {
      var j := FlatMapSource(f, g.objects, t);
      assert FromObject(graphs, t, g, g.objects[j]);
    } else {
      var j := FlatMapSource(h, g.morphisms, t);
      assert FromMorphism(graphs, t, g, g.morphisms[j]);
    }
  }

  lemma RootInStore(graphs: seq<PossibilityGraph>, t: Triple, g: PossibilityGraph)
    requires FromRoot(graphs, t, g)
    ensures t in StoreOf(graphs)
  {
    InGraphTriples(graphs, g, t);
  }

  lemma ObjectInStore(graphs: seq<PossibilityGraph>, t: Triple, g: PossibilityGraph, o: PossibilityObject)
    requires FromObject(graphs, t, g, o)
    ensures t in StoreOf(graphs)
  {
    hide ObjectTriples;
    var i :| 0 <= i < |g.objects| && g.objects[i] == o;
    FlatMapTarget(ObjectsOf(GraphNode(g)), g.objects, i, t);
    InGraphTriples(graphs, g, t);
  }

  lemma MorphismInStore(graphs: seq<PossibilityGraph>, t: Triple, g: PossibilityGraph, m: Morphism)
    requires FromMorphism(graphs, t, g, m)
    ensures t in StoreOf(graphs)
  {
    hide MorphismTriples;
    var i :| 0 <= i < |g.morphisms| && g.morphisms[i] == m;
    FlatMapTarget(MorphismsOf(GraphNode(g)), g.morphisms, i, t);
    InGraphTriples(graphs, g, t);
  }

  lemma InGraphTriples(graphs: seq<PossibilityGraph>, g: PossibilityGraph, t: Triple)
    requires g in graphs && t in GraphTriples(g)
    ensures t in StoreOf(graphs)
  {
    hide GraphTriples;
    var i :| 0 <= i < |graphs| && graphs[i] == g;
    FlatMapTarget(GraphTriples, graphs, i, t);
    AddAllMembers([], AllTriples(graphs), t);
  }

  /** Which triples of an object's projection have a property the reader asks for. */
  lemma ObjectTriple(root: Term, o: PossibilityObject, t: Triple)
    requires t in ObjectTriples(root, o)
    ensures t.property.ProvValue? ==> t == Triple(ObjectNode(o.objectId), ProvValue, ObjectJson(o))
    ensures t.property.RdfType? ==> !t.value.ProvActivity? && (t.value.ProvEntity? ==> t.subject == ObjectNode(o.objectId))
    ensures t.property.DctType? ==> !t.value.Profile?
    ensures t.property.Identifier? ==> t.subject.ObjectNode?
    ensures t.property.HasPart? <==> t == Triple(root, HasPart, ObjectNode(o.objectId))
    ensures t.property.Notation? ==> !t.subject.MorphismNode?
  {
  }

  lemma MorphismTriple(root: Term, m: Morphism, t: Triple)
    requires t in MorphismTriples(root, m)
    ensures t.property.ProvValue? ==> t == Triple(MorphismNode(m.morphismId), ProvValue, MorphismJson(m))
    ensures t.property.RdfType? ==> !t.value.ProvEntity? && (t.value.ProvActivity? ==> t.subject == MorphismNode(m.morphismId))
    ensures t.property.DctType? ==> !t.value.Profile?
    ensures t.property.Identifier? ==> t == Triple(MorphismNode(m.morphismId), Identifier, IdText(m.morphismId))
    ensures t.property.HasPart? <==> t == Triple(root, HasPart, MorphismNode(m.morphismId))
    ensures t.property.Notation? && t.subject.MorphismNode? ==>
              t == Triple(MorphismNode(m.morphismId), Notation, NotationOf(PhaseConcept(m.phase)))
  {
    assert MorphismHead(m) == MorphismConcepts(m) + MorphismTypes(m) + MorphismFacts(m);
  }

  lemma RootTriple(g: PossibilityGraph, t: Triple)
    requires t in RootTriples(g)
    ensures !t.property.ProvValue? && !t.property.HasPart?
    ensures t.property.RdfType? ==> !t.value.ProvActivity? && (t.value.ProvEntity? ==> t.subject == GraphNode(g))
    ensures t.property.DctType? ==> t == Triple(GraphNode(g), DctType, Profile)
    ensures t.property.Identifier? ==> t == Triple(GraphNode(g), Identifier, DigestText(g))
    ensures t.property.Notation? ==> t.subject == Profile
  {
  }

  // ---------------------------------------------------------------- the parts of a graph

  /** Graphs that can be united: a shared id carries one value. */
  ghost predicate Compatible(graphs: seq<PossibilityGraph>) {
    && GraphUnion.AllValid(graphs)
    && GraphUnion.ObjectsAgree(GraphUnion.AllObjects(graphs))
    && GraphUnion.MorphismsAgree(GraphUnion.AllMorphisms(graphs))
  }

  function ObjectPart(root: Term): PossibilityObject -> Triple {
    (o: PossibilityObject) => Triple(root, HasPart, ObjectNode(o.objectId))
  }

  function MorphismPart(root: Term): Morphism -> Triple {
    (m: Morphism) => Triple(root, HasPart, MorphismNode(m.morphismId))
  }

  ghost function PartTriples(g: PossibilityGraph): seq<Triple> {
    Map(ObjectPart(GraphNode(g)), g.objects) + Map(MorphismPart(GraphNode(g)), g.morphisms)
  }

  lemma OnlyTheMiddle(q: Triple -> bool, head: seq<Triple>, part: Triple, tail: seq<Triple>)
    requires forall t :: t in head || t in tail ==> !q(t)
    ensures Filter(q, head + [part] + tail) == if q(part) then [part] else []
  {
    hide Filter;
    FilterNone(q, head);
    FilterNone(q, tail);
    FilterOne(q, part);
    FilterAppend(q, head, [part]);
    FilterAppend(q, head + [part], tail);
  }

  lemma ObjectHasNoOtherPart(o: PossibilityObject)
    ensures forall t :: t in ObjectHead(o) || t in ObjectTail(o) ==> !t.property.HasPart?
  {
  }

  lemma MorphismHeadHasNoPart(m: Morphism)
    ensures forall t :: t in MorphismHead(m) ==> !t.property.HasPart?
  {
    assert forall t :: t in MorphismConcepts(m) ==> !t.property.HasPart?;
    assert forall t :: t in MorphismTypes(m) ==> !t.property.HasPart?;
    assert forall t :: t in MorphismFacts(m) ==> !t.property.HasPart?;
    hide MorphismConcepts;
    hide MorphismTypes;
    hide MorphismFacts;
  }

  lemma MorphismTailHasNoPart(m: Morphism)
    ensures forall t :: t in MorphismTail(m) ==> !t.property.HasPart?
  {
  }

  lemma ObjectPartOnly(g: PossibilityGraph, h: PossibilityGraph, o: PossibilityObject)
    ensures Filter(From(GraphNode(g), HasPart), ObjectTriples(GraphNode(h), o)) ==
            if g == h then [ObjectPart(GraphNode(h))(o)] else []
  {
    hide Filter;
    ObjectHasNoOtherPart(o);
    hide ObjectHead;
    hide ObjectTail;
    OnlyTheMiddle(From(GraphNode(g), HasPart), ObjectHead(o), ObjectPart(GraphNode(h))(o), ObjectTail(o));
  }

  lemma MorphismPartOnly(g: PossibilityGraph, h: PossibilityGraph, m: Morphism)
    ensures Filter(From(GraphNode(g), HasPart), MorphismTriples(GraphNode(h), m)) ==
            if g == h then [MorphismPart(GraphNode(h))(m)] else []
  {
    hide Filter;
    MorphismHeadHasNoPart(m);
    MorphismTailHasNoPart(m);
    hide MorphismHead;
    hide MorphismTail;
    OnlyTheMiddle(From(GraphNode(g), HasPart), MorphismHead(m), MorphismPart(GraphNode(h))(m), MorphismTail(m));
  }

  lemma ObjectPartsOnly(g: PossibilityGraph, h: PossibilityGraph)
    ensures Filter(From(GraphNode(g), HasPart), FlatMap(ObjectsOf(GraphNode(h)), h.objects)) ==
            if g == h then Map(ObjectPart(GraphNode(g)), g.objects) else []
  {
    hide Filter;
    hide FlatMap;
    hide ObjectTriples;
    hide MorphismTriples;
    var q, root := From(GraphNode(g), HasPart), GraphNode(h);
    var f := (o: PossibilityObject) => if g == h then [ObjectPart(root)(o)] else [];
    forall o | o in h.objects ensures Filter(q, ObjectsOf(root)(o)) == f(o) {
      ObjectPartOnly(g, h, o);
    }
    FilterFlatMap(q, ObjectsOf(root), f, h.objects);
    if g == h {
      FlatMapOfOnes(f, ObjectPart(root), h.objects);
    } else {
      FlatMapOfNothing(f, h.objects);
    }
  }

  lemma MorphismPartsOnly(g: PossibilityGraph, h: PossibilityGraph)
    ensures Filter(From(GraphNode(g), HasPart), FlatMap(MorphismsOf(GraphNode(h)), h.morphisms)) ==
            if g == h then Map(MorphismPart(GraphNode(g)), g.morphisms) else []
  {
    hide Filter;
    hide FlatMap;
    hide ObjectTriples;
    hide MorphismTriples;
    var q, root := From(GraphNode(g), HasPart), GraphNode(h);
    var f := (m: Morphism) => if g == h then [MorphismPart(root)(m)] else [];
    forall m | m in h.morphisms ensures Filter(q, MorphismsOf(root)(m)) == f(m) {
      MorphismPartOnly(g, h, m);
    }
    FilterFlatMap(q, MorphismsOf(root), f, h.morphisms);
    if g == h {
      FlatMapOfOnes(f, MorphismPart(root), h.morphisms);
    } else {
      FlatMapOfNothing(f, h.morphisms);
    }
  }

  /** Of everything projected for `h`, the parts of `g` are the part triples of `g` when `h` is `g`, and nothing otherwise. */
  lemma GraphPartsOnly(g: PossibilityGraph, h: PossibilityGraph)
    ensures Filter(From(GraphNode(g), HasPart), GraphTriples(h)) == if g == h then PartTriples(g) else []
  {
    hide Filter;
    hide FlatMap;
    var q, root := From(GraphNode(g), HasPart), GraphNode(h);
    FilterNone(q, RootTriples(h));
    hide RootTriples;
    hide From;
    hide ObjectsOf;
    hide MorphismsOf;
    hide ObjectPart;
    hide MorphismPart;
    var objects, morphisms := FlatMap(ObjectsOf(root), h.objects), FlatMap(MorphismsOf(root), h.morphisms);
    FilterAppend(q, RootTriples(h), objects);
    FilterAppend(q, RootTriples(h) + objects, morphisms);
    ObjectPartsOnly(g, h);
    MorphismPartsOnly(g, h);
    assert [] + Filter(q, objects) == Filter(q, objects);
  }

  lemma PartTriplesNoDup(g: PossibilityGraph)
    requires g.Valid()
    ensures NoDup(PartTriples(g))
  {
    NoDupConcat(Map(ObjectPart(GraphNode(g)), g.objects), Map(MorphismPart(GraphNode(g)), g.morphisms));
  }

  function CopiesOf(g: PossibilityGraph, ts: seq<Triple>): PossibilityGraph -> seq<Triple> {
    (h: PossibilityGraph) => if g == h then ts else []
  }

  /** Projecting a graph again adds nothing. */
  lemma {:induction false} CopiesCollapse(g: PossibilityGraph, ts: seq<Triple>, graphs: seq<PossibilityGraph>)
    requires NoDup(ts)
    ensures AddAll([], FlatMap(CopiesOf(g, ts), graphs)) == if g in graphs then ts else []
  {
    if graphs != [] {
      var front, last := graphs[..|graphs| - 1], graphs[|graphs| - 1];
      FrontAndLast(graphs);
      CopiesCollapse(g, ts, front);
      AddAllAppend([], FlatMap(CopiesOf(g, ts), front), CopiesOf(g, ts)(last));
      AddAllKnown(ts, ts);
      AddAllFresh(ts);
    }
  }

  /** The store lists the parts of each of its graphs in the graph's own order, objects first. */
  lemma PartsInOrder(graphs: seq<PossibilityGraph>, g: PossibilityGraph)
    requires g in graphs && g.Valid()
    ensures Objects(StoreOf(graphs), GraphNode(g), HasPart) == Map(ValueIn, PartTriples(g))
  {
    hide Filter;
    hide GraphTriples;
    hide PartTriples;
    var q := From(GraphNode(g), HasPart);
    forall h | h in graphs ensures Filter(q, GraphTriples(h)) == CopiesOf(g, PartTriples(g))(h) {
      GraphPartsOnly(g, h);
    }
    FilterFlatMap(q, GraphTriples, CopiesOf(g, PartTriples(g)), graphs);
    FilterNone(q, []);
    FilterAddAll(q, [], AllTriples(graphs));
    PartTriplesNoDup(g);
    CopiesCollapse(g, PartTriples(g), graphs);
  }

  // ---------------------------------------------------------------- reading the parts

  lemma ObjectKeyTriples(root: Term, o: PossibilityObject)
    ensures Triple(ObjectNode(o.objectId), ProvValue, ObjectJson(o)) in ObjectTriples(root, o)
    ensures Triple(ObjectNode(o.objectId), RdfType, ProvEntity) in ObjectTriples(root, o)
  {
    assert ObjectHead(o)[6] == Triple(ObjectNode(o.objectId), ProvValue, ObjectJson(o));
    assert ObjectHead(o)[2] == Triple(ObjectNode(o.objectId), RdfType, ProvEntity);
  }

  lemma MorphismKeyTriples(root: Term, m: Morphism)
    ensures var node := MorphismNode(m.morphismId);
            && Triple(node, ProvValue, MorphismJson(m)) in MorphismTriples(root, m)
            && Triple(node, RdfType, ProvActivity) in MorphismTriples(root, m)
            && Triple(node, Identifier, IdText(m.morphismId)) in MorphismTriples(root, m)
            && Triple(node, Notation, NotationOf(PhaseConcept(m.phase))) in MorphismTriples(root, m)
  {
    assert MorphismTypes(m)[0].property == RdfType && MorphismTypes(m)[1].property == Identifier;
    assert MorphismFacts(m)[0].property == Notation && MorphismFacts(m)[3].property == ProvValue;
  }

  lemma ObjectReads(graphs: seq<PossibilityGraph>, g: PossibilityGraph, o: PossibilityObject, read: Parts)
    requires Compatible(graphs) && g in graphs && o in g.objects
    ensures ReadPart(StoreOf(graphs), ObjectNode(o.objectId), read) == Success(read.(objects := read.objects + [o]))
  {
    hide StoreOf;
    var store, node := StoreOf(graphs), ObjectNode(o.objectId);
    ObjectKeyTriples(GraphNode(g), o);
    hide ObjectTriples;
    ObjectInStore(graphs, Triple(node, ProvValue, ObjectJson(o)), g, o);
    ObjectInStore(graphs, Triple(node, RdfType, ProvEntity), g, o);
    forall t | t in store && t.subject == node && t.property == ProvValue ensures t.value == ObjectJson(o) {
      ObjectValueIsItsOwn(graphs, g, o, t);
    }
    UniqueValue(store, node, ProvValue, ObjectJson(o));
    if Triple(node, RdfType, ProvActivity) in store {
      ActivityIsMorphism(graphs, Triple(node, RdfType, ProvActivity));
    }
  }

  lemma ObjectValueIsItsOwn(graphs: seq<PossibilityGraph>, g: PossibilityGraph, o: PossibilityObject, t: Triple)
    requires Compatible(graphs) && g in graphs && o in g.objects
    requires t in StoreOf(graphs) && t.subject == ObjectNode(o.objectId) && t.property == ProvValue
    ensures t.value == ObjectJson(o)
  {
    hide StoreOf;
    hide ObjectTriples;
    hide MorphismTriples;
    hide RootTriples;
    StoreSource(graphs, t);
    if h :| FromRoot(graphs, t, h) {
      RootTriple(h, t);
    } else if h, o' :| FromObject(graphs, t, h, o') {
      ObjectTriple(GraphNode(h), o', t);
      assert o in GraphUnion.AllObjects(graphs) && o' in GraphUnion.AllObjects(graphs);
    } else {
      var h, m :| FromMorphism(graphs, t, h, m);
      MorphismTriple(GraphNode(h), m, t);
    }
  }

  lemma MorphismValueIsItsOwn(graphs: seq<PossibilityGraph>, g: PossibilityGraph, m: Morphism, t: Triple)
    requires Compatible(graphs) && g in graphs && m in g.morphisms
    requires t in StoreOf(graphs) && t.subject == MorphismNode(m.morphismId) && t.property == ProvValue
    ensures t.value == MorphismJson(m)
  {
    hide StoreOf;
    hide ObjectTriples;
    hide MorphismTriples;
    hide RootTriples;
    StoreSource(graphs, t);
    if h :| FromRoot(graphs, t, h) {
      RootTriple(h, t);
    } else if h, o :| FromObject(graphs, t, h, o) {
      ObjectTriple(GraphNode(h), o, t);
    } else {
      var h, m' :| FromMorphism(graphs, t, h, m');
      MorphismTriple(GraphNode(h), m', t);
      assert m in GraphUnion.AllMorphisms(graphs) && m' in GraphUnion.AllMorphisms(graphs);
    }
  }

  lemma ActivityIsMorphism(graphs: seq<PossibilityGraph>, t: Triple)
    requires t in StoreOf(graphs) && t.property == RdfType && t.value == ProvActivity
    ensures t.subject.MorphismNode?
    ensures exists g, m :: g in graphs && m in g.morphisms && t.subject == MorphismNode(m.morphismId)
  {
    hide StoreOf;
    hide ObjectTriples;
    hide MorphismTriples;
    hide RootTriples;
    StoreSource(graphs, t);
    if g :| FromRoot(graphs, t, g) {
      RootTriple(g, t);
    } else if g, o :| FromObject(graphs, t, g, o) {
      ObjectTriple(GraphNode(g), o, t);
    } else {
      var g, m :| FromMorphism(graphs, t, g, m);
      MorphismTriple(GraphNode(g), m, t);
    }
  }

  lemma MorphismReads(graphs: seq<PossibilityGraph>, g: PossibilityGraph, m: Morphism, read: Parts)
    requires Compatible(graphs) && g in graphs && m in g.morphisms
    ensures ReadPart(StoreOf(graphs), MorphismNode(m.morphismId), read) ==
            Success(read.(morphisms := read.morphisms + [m]))
  {
    hide StoreOf;
    var store, node := StoreOf(graphs), MorphismNode(m.morphismId);
    MorphismKeyTriples(GraphNode(g), m);
    hide MorphismTriples;
    MorphismInStore(graphs, Triple(node, ProvValue, MorphismJson(m)), g, m);
    MorphismInStore(graphs, Triple(node, RdfType, ProvActivity), g, m);
    forall t | t in store && t.subject == node && t.property == ProvValue ensures t.value == MorphismJson(m) {
      MorphismValueIsItsOwn(graphs, g, m, t);
    }
    UniqueValue(store, node, ProvValue, MorphismJson(m));
  }

  function ObjectNodes(objects: seq<PossibilityObject>): seq<Term> {
    Map((o: PossibilityObject) => ObjectNode(o.objectId), objects)
  }

  function MorphismNodes(morphisms: seq<Morphism>): seq<Term> {
    Map((m: Morphism) => MorphismNode(m.morphismId), morphisms)
  }

  lemma NodesSnoc(morphisms: seq<Morphism>, m: Morphism)
    ensures MorphismNodes(morphisms + [m]) == MorphismNodes(morphisms) + [MorphismNode(m.morphismId)]
  {
  }

  lemma ReadSnoc(store: seq<Triple>, parts: seq<Term>, part: Term)
    requires ReadParts(store, parts).Success?
    ensures ReadParts(store, parts + [part]) == ReadPart(store, part, ReadParts(store, parts).value)
  {
    assert (parts + [part])[..|parts|] == parts;
  }

  lemma ObjectNodesSnoc(objects: seq<PossibilityObject>, o: PossibilityObject)
    ensures ObjectNodes(objects + [o]) == ObjectNodes(objects) + [ObjectNode(o.objectId)]
  {
  }

  lemma NothingReads(store: seq<Triple>)
    ensures ReadParts(store, ObjectNodes([])) == Success(Parts([], []))
  {
  }

  lemma {:induction false} ObjectsRead(graphs: seq<PossibilityGraph>, g: PossibilityGraph, n: nat)
    requires Compatible(graphs) && g in graphs && n <= |g.objects|
    ensures ReadParts(StoreOf(graphs), ObjectNodes(g.objects[..n])) == Success(Parts(g.objects[..n], []))
  {
    hide StoreOf;
    hide ReadPart;
    hide ReadParts;
    hide Compatible;
    hide ObjectNodes;
    if n == 0 {
      assert g.objects[..0] == [];
      NothingReads(StoreOf(graphs));
    } else {
      var front, o := g.objects[..n - 1], g.objects[n - 1];
      ObjectsRead(graphs, g, n - 1);
      assert g.objects[..n] == front + [o];
      ObjectNodesSnoc(front, o);
      ReadSnoc(StoreOf(graphs), ObjectNodes(front), ObjectNode(o.objectId));
      ObjectReads(graphs, g, o, Parts(front, []));
    }
  }

  lemma {:induction false} MorphismsRead(graphs: seq<PossibilityGraph>, g: PossibilityGraph, n: nat)
    requires Compatible(graphs) && g in graphs && n <= |g.morphisms|
    ensures ReadParts(StoreOf(graphs), ObjectNodes(g.objects) + MorphismNodes(g.morphisms[..n])) ==
            Success(Parts(g.objects, g.morphisms[..n]))
  {
    hide StoreOf;
    hide ReadPart;
    hide ReadParts;
    hide Compatible;
    var nodes := ObjectNodes(g.objects);
    if n == 0 {
      assert nodes + MorphismNodes(g.morphisms[..n]) == nodes && g.objects[..|g.objects|] == g.objects;
      ObjectsRead(graphs, g, |g.objects|);
    } else {
      var m := g.morphisms[n - 1];
      MorphismsRead(graphs, g, n - 1);
      assert g.morphisms[..n] == g.morphisms[..n - 1] + [m];
      var before := nodes + MorphismNodes(g.morphisms[..n - 1]);
      NodesSnoc(g.morphisms[..n - 1], m);
      AppendAssociative(nodes, MorphismNodes(g.morphisms[..n - 1]), [MorphismNode(m.morphismId)]);
      ReadSnoc(StoreOf(graphs), before, MorphismNode(m.morphismId));
      MorphismReads(graphs, g, m, Parts(g.objects, g.morphisms[..n - 1]));
    }
  }

  lemma PartsRead(graphs: seq<PossibilityGraph>, g: PossibilityGraph)
    requires Compatible(graphs) && g in graphs
    ensures ReadParts(StoreOf(graphs), Objects(StoreOf(graphs), GraphNode(g), HasPart)) ==
            Success(Parts(g.objects, g.morphisms))
  {
    hide StoreOf;
    hide ReadParts;
    PartsInOrder(graphs, g);
    assert Map(ValueIn, PartTriples(g)) == ObjectNodes(g.objects) + MorphismNodes(g.morphisms);
    assert g.morphisms[..|g.morphisms|] == g.morphisms;
    MorphismsRead(graphs, g, |g.morphisms|);
  }

  // ---------------------------------------------------------------- roots

  lemma RootsAre(graphs: seq<PossibilityGraph>, root: Term)
    ensures root in Subjects(StoreOf(graphs), DctType, Profile) <==> exists g :: g in graphs && root == GraphNode(g)
  {
    var store, t := StoreOf(graphs), Triple(root, DctType, Profile);
    var found := Filter(To(DctType, Profile), store);
    if t in store {
      SubjectFound(store, t);
      ProfileIsRoot(graphs, t);
    }
    if root in Subjects(store, DctType, Profile) {
      var i :| 0 <= i < |found| && SubjectOf(found[i]) == root;
      assert found[i] in found && found[i] == t;
    }
    if g :| g in graphs && root == GraphNode(g) {
      RootInStore(graphs, t, g);
    }
  }

  lemma ProfileIsRoot(graphs: seq<PossibilityGraph>, t: Triple)
    requires t in StoreOf(graphs) && t.property == DctType && t.value == Profile
    ensures exists g :: g in graphs && t.subject == GraphNode(g)
  {
    hide StoreOf;
    hide ObjectTriples;
    hide MorphismTriples;
    hide RootTriples;
    StoreSource(graphs, t);
    if g :| FromRoot(graphs, t, g) {
      RootTriple(g, t);
    } else if g, o :| FromObject(graphs, t, g, o) {
      ObjectTriple(GraphNode(g), o, t);
    } else {
      var g, m :| FromMorphism(graphs, t, g, m);
      MorphismTriple(GraphNode(g), m, t);
    }
  }

  lemma RootsNoDup(graphs: seq<PossibilityGraph>)
    ensures NoDup(Subjects(StoreOf(graphs), DctType, Profile))
  {
    var found := Filter(To(DctType, Profile), StoreOf(graphs));
    AddAllNoDup([], AllTriples(graphs));
    FilterNoDup(To(DctType, Profile), StoreOf(graphs));
    forall x, y | x in found && y in found && SubjectOf(x) == SubjectOf(y) ensures x == y {
    }
    MapNoDup(SubjectOf, found);
  }

  lemma IdentityRecorded(graphs: seq<PossibilityGraph>, g: PossibilityGraph)
    requires g in graphs
    ensures ValueOf(StoreOf(graphs), GraphNode(g), Identifier) == Some(DigestText(g))
  {
    RootInStore(graphs, Triple(GraphNode(g), Identifier, DigestText(g)), g);
    forall t | t in StoreOf(graphs) && t.subject == GraphNode(g) && t.property == Identifier
      ensures t.value == DigestText(g)
    {
      IdentifierIsOwn(graphs, g, t);
    }
    UniqueValue(StoreOf(graphs), GraphNode(g), Identifier, DigestText(g));
  }

  lemma IdentifierIsOwn(graphs: seq<PossibilityGraph>, g: PossibilityGraph, t: Triple)
    requires t in StoreOf(graphs) && t.subject == GraphNode(g) && t.property == Identifier
    ensures t.value == DigestText(g)
  {
    hide StoreOf;
    hide ObjectTriples;
    hide MorphismTriples;
    hide RootTriples;
    StoreSource(graphs, t);
    if h :| FromRoot(graphs, t, h) {
      RootTriple(h, t);
    } else if h, o :| FromObject(graphs, t, h, o) {
      ObjectTriple(GraphNode(h), o, t);
    } else {
      var h, m :| FromMorphism(graphs, t, h, m);
      MorphismTriple(GraphNode(h), m, t);
    }
  }

  // ---------------------------------------------------------------- the theorems

  /**
   Any number of valid graphs whose shared ids carry one value can be projected into one store, and
   each is read back from it unchanged, order included, by its digest.
   */
  lemma RoundTripByDigest(graphs: seq<PossibilityGraph>, g: PossibilityGraph)
    requires Compatible(graphs) && g in graphs
    ensures Reconstruct(StoreOf(graphs), Some(g)) == Success(g)
  {
    hide StoreOf;
    hide ReadParts;
    RootsAre(graphs, GraphNode(g));
    PartsRead(graphs, g);
    IdentityRecorded(graphs, g);
  }

  /** Without a digest the store is read exactly when it holds one graph. */
  lemma RoundTripWithoutDigest(graphs: seq<PossibilityGraph>, g: PossibilityGraph)
    requires Compatible(graphs) && g in graphs
    ensures Reconstruct(StoreOf(graphs), None) ==
            if forall h :: h in graphs ==> h == g then Success(g) else Failure(GraphRootAmbiguous)
  {
    hide StoreOf;
    hide ReadParts;
    hide Subjects;
    var roots := Subjects(StoreOf(graphs), DctType, Profile);
    RootsNoDup(graphs);
    RootsAre(graphs, GraphNode(g));
    var i :| 0 <= i < |roots| && roots[i] == GraphNode(g);
    if forall h :: h in graphs ==> h == g {
      RootsAre(graphs, roots[0]);
      if |roots| > 1 {
        RootsAre(graphs, roots[1]);
      }
      PartsRead(graphs, g);
      IdentityRecorded(graphs, g);
    } else {
      var h :| h in graphs && h != g;
      RootsAre(graphs, GraphNode(h));
      var j :| 0 <= j < |roots| && roots[j] == GraphNode(h);
    }
  }

  /** The round trip: the projection of a valid graph reads back as that graph. */
  lemma RoundTrip(g: PossibilityGraph)
    requires g.Valid()
    ensures Reconstruct(AddAll([], GraphTriples(g)), None) == Success(g)
  {
    hide Reconstruct;
    assert AllTriples([g]) == GraphTriples(g) by {
      FlatMapOne(GraphTriples, g);
    }
    OneIsCompatible(g);
    RoundTripWithoutDigest([g], g);
  }

  lemma OneIsCompatible(g: PossibilityGraph)
    requires g.Valid()
    ensures Compatible([g])
  {
    forall a, b | a in g.morphisms && b in g.morphisms && a.morphismId == b.morphismId ensures a == b {
      var i :| 0 <= i < |g.morphisms| && g.morphisms[i] == a;
      var j :| 0 <= j < |g.morphisms| && g.morphisms[j] == b;
    }
    forall a, b | a in g.objects && b in g.objects && a.objectId == b.objectId ensures a == b {
      var i :| 0 <= i < |g.objects| && g.objects[i] == a;
      var j :| 0 <= j < |g.objects| && g.objects[j] == b;
    }
  }

  /** Two graphs with one projection are one graph. */
  lemma ProjectionInjective(g: PossibilityGraph, h: PossibilityGraph)
    requires g.Valid() && h.Valid() && AddAll([], GraphTriples(g)) == AddAll([], GraphTriples(h))
    ensures g == h
  {
    hide Reconstruct;
    RoundTrip(g);
    RoundTrip(h);
  }

  lemma {:induction false} ReadMorphismsValid(store: seq<Triple>, parts: seq<Term>)
    requires ReadParts(store, parts).Success?
    ensures forall m :: m in ReadParts(store, parts).value.morphisms ==> ValidateMorphism(m).Success?
  {
    if parts != [] {
      ReadMorphismsValid(store, parts[..|parts| - 1]);
    }
  }

  /** Whatever the store, a graph that is accepted is valid and is the one its root's identifier records. */
  lemma AcceptedIsRecorded(store: seq<Triple>, expected: Option<PossibilityGraph>)
    requires Reconstruct(store, expected).Success?
    ensures var g := Reconstruct(store, expected).value;
            && g.Valid()
            && RootOf(store, expected).Success?
            && Triple(RootOf(store, expected).value, DctType, Profile) in store
            && Triple(RootOf(store, expected).value, Identifier, DigestText(g)) in store
  {
    hide ReadParts;
    hide ValueOf;
    var root := RootOf(store, expected).value;
    ReadMorphismsValid(store, Objects(store, root, HasPart));
    ValueInStore(store, root, Identifier);
    var found := Filter(To(DctType, Profile), store);
    var i :| 0 <= i < |found| && SubjectOf(found[i]) == root;
    assert found[i] in found;
  }

  /**
   Asking for a digest checks the root's name, not that the graph under it has that digest: the graph
   returned is the one asked for exactly when the root's own identifier says so.
   */
  lemma RequestedIdentityIff(store: seq<Triple>, asked: PossibilityGraph)
    requires Reconstruct(store, Some(asked)).Success?
    ensures Reconstruct(store, Some(asked)).value == asked <==>
            ValueOf(store, GraphNode(asked), Identifier) == Some(DigestText(asked))
  {
    hide ReadParts;
    hide ValueOf;
    hide Subjects;
  }

  /** A root named after one graph that records another: asking for the first returns the second. */
  lemma MislabelledRoot(asked: PossibilityGraph)
    requires asked != PossibilityGraph([], [])
    ensures var empty := PossibilityGraph([], []);
            var store := [Triple(GraphNode(asked), DctType, Profile), Triple(GraphNode(asked), Identifier, DigestText(empty))];
            Reconstruct(store, Some(asked)) == Success(empty)
  {
    var root, empty := GraphNode(asked), PossibilityGraph([], []);
    var a, b := Triple(root, DctType, Profile), Triple(root, Identifier, DigestText(empty));
    var store := [a, b];
    hide Subjects;
    hide Filter;
    SubjectFound(store, a);
    FilterNone(From(root, HasPart), store);
    assert Objects(store, root, HasPart) == [];
    hide Objects;
    hide ValueOf;
    assert store[1] == b;
    UniqueValue(store, root, Identifier, DigestText(empty));
    assert ReadParts(store, []) == Success(Parts([], []));
    assert ConstructGraph([], []) == Success(empty);
  }

  lemma SubjectFound(store: seq<Triple>, t: Triple)
    requires t in store
    ensures t.subject in Subjects(store, t.property, t.value)
  {
    var found := Filter(To(t.property, t.value), store);
    assert t in found;
    var i :| 0 <= i < |found| && found[i] == t;
    assert Subjects(store, t.property, t.value)[i] == t.subject;
  }

  /** A triple that gives the identifier of an activity noted as DO. */
  function DoRow(store: seq<Triple>): Triple -> bool {
    (t: Triple) =>
      && t.property == Identifier
      && Triple(t.subject, RdfType, ProvActivity) in store
      && Triple(t.subject, Notation, NotationOf(PhaseConcept(Do))) in store
  }

  function TextKey(text: Term -> string): Term -> Key {
    (id: Term) => [Codes(text(id))]
  }

  /** `query_do_frontier`: the identifiers of the activities noted as DO, ordered by their text. */
  function QueryDoFrontier(store: seq<Triple>, text: Term -> string): seq<Term> {
    SortBy(TextKey(text), Map(ValueIn, Filter(DoRow(store), store)))
  }

  lemma DoRowsAre(graphs: seq<PossibilityGraph>, t: Triple)
    requires Compatible(graphs) && t in StoreOf(graphs) && DoRow(StoreOf(graphs))(t)
    ensures t.subject.MorphismNode? && t.value == IdText(t.subject.morphismId)
    ensures exists g, m :: g in graphs && m in g.morphisms && m.phase.Do? && t.value == IdText(m.morphismId)
  {
    hide StoreOf;
    ActivityIsMorphism(graphs, Triple(t.subject, RdfType, ProvActivity));
    var g, m := MorphismNoted(graphs, Triple(t.subject, Notation, NotationOf(PhaseConcept(Do))));
    MorphismIdentified(graphs, t);
  }

  lemma DoMorphismHasRow(graphs: seq<PossibilityGraph>, g: PossibilityGraph, m: Morphism)
    requires g in graphs && m in g.morphisms && m.phase.Do?
    ensures var t := Triple(MorphismNode(m.morphismId), Identifier, IdText(m.morphismId));
            t in StoreOf(graphs) && DoRow(StoreOf(graphs))(t)
  {
    hide StoreOf;
    var node := MorphismNode(m.morphismId);
    MorphismKeyTriples(GraphNode(g), m);
    hide MorphismTriples;
    MorphismInStore(graphs, Triple(node, RdfType, ProvActivity), g, m);
    MorphismInStore(graphs, Triple(node, Notation, NotationOf(PhaseConcept(Do))), g, m);
    MorphismInStore(graphs, Triple(node, Identifier, IdText(m.morphismId)), g, m);
  }

  ghost function DoRows(graphs: seq<PossibilityGraph>): seq<Triple> {
    Filter(DoRow(StoreOf(graphs)), StoreOf(graphs))
  }

  lemma DoRowsNoDup(graphs: seq<PossibilityGraph>)
    requires Compatible(graphs)
    ensures NoDup(Map(ValueIn, DoRows(graphs)))
  {
    var store, rows := StoreOf(graphs), DoRows(graphs);
    AddAllNoDup([], AllTriples(graphs));
    hide StoreOf;
    FilterNoDup(DoRow(store), store);
    hide DoRow;
    hide Compatible;
    forall x, y | x in rows && y in rows && ValueIn(x) == ValueIn(y) ensures x == y {
      DoRowsAre(graphs, x);
      DoRowsAre(graphs, y);
      RowProperty(store, x);
      RowProperty(store, y);
    }
    MapNoDup(ValueIn, rows);
  }

  /** `id` is the identifier of a DO morphism of one of the graphs. */
  ghost predicate NamesDo(graphs: seq<PossibilityGraph>, id: Term) {
    exists g, m :: g in graphs && m in g.morphisms && m.phase.Do? && id == IdText(m.morphismId)
  }

  lemma DoRowValues(graphs: seq<PossibilityGraph>, id: Term)
    requires Compatible(graphs)
    ensures id in Map(ValueIn, DoRows(graphs)) <==> NamesDo(graphs, id)
  {
    hide StoreOf;
    hide DoRow;
    hide Compatible;
    var rows := DoRows(graphs);
    var values := Map(ValueIn, rows);
    if id in values {
      var i :| 0 <= i < |values| && values[i] == id;
      assert rows[i] in rows;
      DoRowsAre(graphs, rows[i]);
    }
    if g, m :| g in graphs && m in g.morphisms && m.phase.Do? && id == IdText(m.morphismId) {
      DoMorphismHasRow(graphs, g, m);
      var t := Triple(MorphismNode(m.morphismId), Identifier, id);
      assert t in rows;
      var i :| 0 <= i < |rows| && rows[i] == t;
      assert values[i] == id;
    }
  }

  lemma SortedCopy<T>(key: T -> Key, values: seq<T>)
    requires NoDup(values)
    ensures Sorted(key, SortBy(key, values)) && NoDup(SortBy(key, values))
    ensures forall x :: x in SortBy(key, values) <==> x in values
  {
    hide SortBy;
    hide Sorted;
    SortBySorts(key, values);
    SortByMembers(key, values);
    PermutationNoDup(values, SortBy(key, values));
  }

  /** The query lists exactly the DO morphisms of the graphs in the store, each once, in the order of their text. */
  lemma DoQueryExact(graphs: seq<PossibilityGraph>, text: Term -> string)
    requires Compatible(graphs)
    ensures var ids := QueryDoFrontier(StoreOf(graphs), text);
            && Sorted(TextKey(text), ids) && NoDup(ids)
            && forall id :: id in ids <==> NamesDo(graphs, id)
  {
    hide SortBy;
    hide Sorted;
    hide Filter;
    hide StoreOf;
    hide Compatible;
    hide NamesDo;
    hide TextKey;
    hide DoRow;
    var key, values := TextKey(text), Map(ValueIn, DoRows(graphs));
    DoRowsNoDup(graphs);
    SortedCopy(key, values);
    forall id ensures id in values <==> NamesDo(graphs, id) {
      DoRowValues(graphs, id);
    }
  }

  lemma RowProperty(store: seq<Triple>, t: Triple)
    requires DoRow(store)(t)
    ensures t.property == Identifier
  {
  }

  lemma MorphismNoted(graphs: seq<PossibilityGraph>, t: Triple) returns (g: PossibilityGraph, m: Morphism)
    requires t in StoreOf(graphs) && t.subject.MorphismNode? && t.property == Notation
    ensures g in graphs && m in g.morphisms && t.subject == MorphismNode(m.morphismId)
    ensures t.value == NotationOf(PhaseConcept(m.phase))
  {
    hide StoreOf;
    hide ObjectTriples;
    hide MorphismTriples;
    hide RootTriples;
    StoreSource(graphs, t);
    if h :| FromRoot(graphs, t, h) {
      RootTriple(h, t);
    } else if h, o :| FromObject(graphs, t, h, o) {
      ObjectTriple(GraphNode(h), o, t);
    } else {
      g, m :| FromMorphism(graphs, t, g, m);
      MorphismTriple(GraphNode(g), m, t);
    }
  }

  lemma MorphismIdentified(graphs: seq<PossibilityGraph>, t: Triple)
    requires t in StoreOf(graphs) && t.subject.MorphismNode? && t.property == Identifier
    ensures t.value == IdText(t.subject.morphismId)
  {
    hide StoreOf;
    hide ObjectTriples;
    hide MorphismTriples;
    hide RootTriples;
    StoreSource(graphs, t);
    if h :| FromRoot(graphs, t, h) {
      RootTriple(h, t);
    } else if h, o :| FromObject(graphs, t, h, o) {
      ObjectTriple(GraphNode(h), o, t);
    } else {
      var g, m :| FromMorphism(graphs, t, g, m);
      MorphismTriple(GraphNode(g), m, t);
    }
  }
}
