/**
 Growing a possibility graph (`PossibilityGraph.with_object`, `with_morphism` and `union` in
 `src/gymact/combinatorial.py`). The grown copies skip the graph validator, so that they satisfy
 the topology law has to be proved.
 */
module GraphUnion {
  import opened Outcomes
  import opened Sequences
  import opened Possibility
  import opened Exploration
  import opened Closure

  datatype Addition = Node(node: PossibilityObject) | Edge(edge: Morphism)

  /** One addition; an edge passes its own validator before the graph sees it. */
  function Add(g: PossibilityGraph, a: Addition): Result<PossibilityGraph, GraphError> {
    match a
    case Node(o) => g.WithObject(o)
    case Edge(m) => var valid :- ValidateMorphism(m); g.WithMorphism(valid)
  }

  function AddAll(g: PossibilityGraph, additions: seq<Addition>): Result<PossibilityGraph, GraphError> {
    if additions == [] then Success(g)
    else
      var before :- AddAll(g, additions[..|additions| - 1]);
      Add(before, additions[|additions| - 1])
  }

  function NodesOf(g: PossibilityGraph): seq<Addition> {
    seq(|g.objects|, i requires 0 <= i < |g.objects| => Node(g.objects[i]))
  }

  function EdgesOf(g: PossibilityGraph): seq<Addition> {
    seq(|g.morphisms|, i requires 0 <= i < |g.morphisms| => Edge(g.morphisms[i]))
  }

  function Parts(g: PossibilityGraph): seq<Addition> {
    NodesOf(g) + EdgesOf(g)
  }

  lemma AddStep(g: PossibilityGraph, additions: seq<Addition>, a: Addition)
    ensures AddAll(g, additions + [a]) ==
            var before := AddAll(g, additions); if before.Failure? then before else Add(before.value, a)
  {
    assert (additions + [a])[..|additions|] == additions;
  }

  /** A failed addition is never undone by later ones. */
  lemma {:induction false} AddAllAppend(g: PossibilityGraph, a: seq<Addition>, b: seq<Addition>)
    ensures AddAll(g, a + b) ==
            var before := AddAll(g, a); if before.Failure? then before else AddAll(before.value, b)
  {
    if b == [] {
      assert a + b == a;
    } else {
      var front := b[..|b| - 1];
      AddAllAppend(g, a, front);
      assert (a + b)[..|a + b| - 1] == a + front;
    }
  }

  /** Once an addition fails, the whole sequence of additions has failed. */
  lemma FailureStays(g: PossibilityGraph, additions: seq<Addition>, n: nat)
    requires n <= |additions| && AddAll(g, additions[..n]).Failure?
    ensures AddAll(g, additions) == AddAll(g, additions[..n])
  {
    AddAllAppend(g, additions[..n], additions[n..]);
    assert additions == additions[..n] + additions[n..];
  }

  lemma AddNext(g: PossibilityGraph, additions: seq<Addition>, n: nat)
    requires n < |additions|
    ensures AddAll(g, additions[..n + 1]) ==
            var before := AddAll(g, additions[..n]); if before.Failure? then before else Add(before.value, additions[n])
  {
    AddStep(g, additions[..n], additions[n]);
    assert additions[..n + 1] == additions[..n] + [additions[n]];
  }

  /** The two inner loops of `union`. */
  method AddGraph(g: PossibilityGraph, other: PossibilityGraph) returns (r: Result<PossibilityGraph, GraphError>)
    requires forall m :: m in other.morphisms ==> ValidateMorphism(m).Success?
    ensures r == AddAll(g, Parts(other))
  {
    var result := g;
    for j := 0 to |other.objects|
      invariant AddAll(g, NodesOf(other)[..j]) == Success(result)
    {
      AddNext(g, NodesOf(other), j);
      var step := result.WithObject(other.objects[j]);
      if step.Failure? {
        FailureStays(g, NodesOf(other), j + 1);
        AddAllAppend(g, NodesOf(other), EdgesOf(other));
        return step;
      }
      result := step.value;
    }
    assert NodesOf(other)[..|other.objects|] == NodesOf(other);
    AddAllAppend(g, NodesOf(other), EdgesOf(other));
    ghost var middle := result;
    for j := 0 to |other.morphisms|
      invariant AddAll(middle, EdgesOf(other)[..j]) == Success(result)
    {
      AddNext(middle, EdgesOf(other), j);
      var step := result.WithMorphism(other.morphisms[j]);
      if step.Failure? {
        FailureStays(middle, EdgesOf(other), j + 1);
        return step;
      }
      result := step.value;
    }
    assert EdgesOf(other)[..|other.morphisms|] == EdgesOf(other);
    return Success(result);
  }

  /** `union`: the parts of every other graph, its objects before its morphisms. */
  method Union(g: PossibilityGraph, others: seq<PossibilityGraph>)
    returns (r: Result<PossibilityGraph, GraphError>)
    requires forall other, m :: other in others && m in other.morphisms ==> ValidateMorphism(m).Success?
    ensures r == AddAll(g, FlatMap(Parts, others))
  {
    var result := g;
    for i := 0 to |others|
      invariant AddAll(g, FlatMap(Parts, others[..i])) == Success(result)
    {
      ghost var after := FlatMapSplit(Parts, others, i);
      AddAllAppend(g, FlatMap(Parts, others[..i]), Parts(others[i]));
      var step := AddGraph(result, others[i]);
      if step.Failure? {
        AddAllAppend(g, FlatMap(Parts, others[..i + 1]), after);
        return step;
      }
      result := step.value;
    }
    assert others[..|others|] == others;
    return Success(result);
  }

  // ---------------------------------------------------------------- what a union is

  /** Equal ids mean equal objects. */
  ghost predicate ObjectsAgree(objects: set<PossibilityObject>) {
    forall a, b :: a in objects && b in objects && a.objectId == b.objectId ==> a == b
  }

  ghost predicate MorphismsAgree(morphisms: set<Morphism>) {
    forall a, b :: a in morphisms && b in morphisms && a.morphismId == b.morphismId ==> a == b
  }

  ghost function AddedObjects(additions: seq<Addition>): set<PossibilityObject> {
    set a | a in additions && a.Node? :: a.node
  }

  ghost function AddedMorphisms(additions: seq<Addition>): set<Morphism> {
    set a | a in additions && a.Edge? :: a.edge
  }

  ghost predicate UniqueIds(g: PossibilityGraph) {
    g.UniqueObjectIds() && g.UniqueMorphismIds()
  }

  /** Additions that name one thing per id, and only edges their validator accepts. */
  ghost predicate Consistent(g: PossibilityGraph, additions: seq<Addition>) {
    && ObjectsAgree(ToSet(g.objects) + AddedObjects(additions))
    && MorphismsAgree(ToSet(g.morphisms) + AddedMorphisms(additions))
    && forall m :: m in AddedMorphisms(additions) ==> ValidateMorphism(m).Success?
  }

  lemma UniqueMeansAgree(g: PossibilityGraph)
    requires UniqueIds(g)
    ensures ObjectsAgree(ToSet(g.objects)) && MorphismsAgree(ToSet(g.morphisms))
  {
    forall a, b | a in g.objects && b in g.objects && a.objectId == b.objectId ensures a == b {
      var i :| 0 <= i < |g.objects| && g.objects[i] == a;
      var j :| 0 <= j < |g.objects| && g.objects[j] == b;
    }
    forall a, b | a in g.morphisms && b in g.morphisms && a.morphismId == b.morphismId ensures a == b {
      SameId(g.morphisms, a, b);
    }
  }

  /** One addition succeeds exactly when it clashes with nothing, and adds exactly its value. */
  lemma AddExact(g: PossibilityGraph, a: Addition)
    requires UniqueIds(g)
    ensures Add(g, a).Success? <==>
            match a
            case Node(o) => ObjectsAgree(ToSet(g.objects) + {o})
            case Edge(m) => MorphismsAgree(ToSet(g.morphisms) + {m}) && ValidateMorphism(m).Success?
    ensures Add(g, a).Success? ==>
            var r := Add(g, a).value;
            && UniqueIds(r)
            && ToSet(r.objects) == ToSet(g.objects) + (if a.Node? then {a.node} else {})
            && ToSet(r.morphisms) == ToSet(g.morphisms) + (if a.Edge? then {a.edge} else {})
  {
    UniqueMeansAgree(g);
    if a.Node? {
      if o :| o in g.objects && o.objectId == a.node.objectId && o != a.node {
        assert o in ToSet(g.objects) + {a.node} && a.node in ToSet(g.objects) + {a.node};
      }
    } else {
      if m :| m in g.morphisms && m.morphismId == a.edge.morphismId && m != a.edge {
        assert m in ToSet(g.morphisms) + {a.edge} && a.edge in ToSet(g.morphisms) + {a.edge};
      }
    }
  }

  lemma AddedSnoc(additions: seq<Addition>, a: Addition)
    ensures AddedObjects(additions + [a]) == AddedObjects(additions) + (if a.Node? then {a.node} else {})
    ensures AddedMorphisms(additions + [a]) == AddedMorphisms(additions) + (if a.Edge? then {a.edge} else {})
  {
  }

  /**
   Adding parts succeeds exactly when ids never name two different values; the result then holds
   exactly the old and the added values, each id once.
   */
  lemma {:induction false} AddAllExact(g: PossibilityGraph, additions: seq<Addition>)
    requires UniqueIds(g)
    ensures AddAll(g, additions).Success? <==> Consistent(g, additions)
    ensures AddAll(g, additions).Success? ==>
            var r := AddAll(g, additions).value;
            && UniqueIds(r)
            && ToSet(r.objects) == ToSet(g.objects) + AddedObjects(additions)
            && ToSet(r.morphisms) == ToSet(g.morphisms) + AddedMorphisms(additions)
  {
    if additions == [] {
      UniqueMeansAgree(g);
    } else {
      var front, last := additions[..|additions| - 1], additions[|additions| - 1];
      FrontAndLast(additions);
      AddAllExact(g, front);
      AddedSnoc(front, last);
      if AddAll(g, front).Success? {
        AddExact(AddAll(g, front).value, last);
        ConsistentSnoc(g, front, last);
      }
    }
  }

  lemma ConsistentSnoc(g: PossibilityGraph, front: seq<Addition>, last: Addition)
    requires Consistent(g, front)
    ensures Consistent(g, front + [last]) <==>
            match last
            case Node(o) => ObjectsAgree((ToSet(g.objects) + AddedObjects(front)) + {o})
            case Edge(m) => MorphismsAgree((ToSet(g.morphisms) + AddedMorphisms(front)) + {m})
                            && ValidateMorphism(m).Success?
  {
    AddedSnoc(front, last);
    assert ToSet(g.objects) + (AddedObjects(front) + (if last.Node? then {last.node} else {}))
        == (ToSet(g.objects) + AddedObjects(front)) + (if last.Node? then {last.node} else {});
    assert ToSet(g.morphisms) + (AddedMorphisms(front) + (if last.Edge? then {last.edge} else {}))
        == (ToSet(g.morphisms) + AddedMorphisms(front)) + (if last.Edge? then {last.edge} else {});
  }

  // ---------------------------------------------------------------- topology

  /** `with_object` keeps the topology law. */
  lemma WithObjectKeepsTopology(g: PossibilityGraph, o: PossibilityObject)
    requires g.Valid() && g.WithObject(o).Success?
    ensures g.WithObject(o).value.Valid()
  {
    AddExact(g, Node(o));
    var r := g.WithObject(o).value;
    forall id | g.HasObject(id) ensures r.HasObject(id) {
      var x :| x in g.objects && x.objectId == id;
      assert x in r.objects;
    }
  }

  /** `with_morphism` does not check endpoints: it keeps the topology law exactly when they are known. */
  lemma WithMorphismTopology(g: PossibilityGraph, m: Morphism)
    requires g.Valid() && ValidateMorphism(m).Success? && g.WithMorphism(m).Success?
    ensures g.WithMorphism(m).value.Valid() <==> g.HasObject(m.sourceId) && g.HasObject(m.targetId)
  {
    AddExact(g, Edge(m));
    var r := g.WithMorphism(m).value;
    assert forall id :: r.HasObject(id) <==> g.HasObject(id);
    assert m in r.morphisms;
    assert forall e :: e in r.morphisms ==> e in g.morphisms || e == m;
  }

  /** An edge to an object nobody added: the result breaks the law the validator would enforce. */
  lemma DanglingEdgeAccepted(m: Morphism)
    requires ValidateMorphism(m).Success?
    ensures PossibilityGraph([], []).Valid()
    ensures PossibilityGraph([], []).WithMorphism(m).Success?
    ensures !PossibilityGraph([], []).WithMorphism(m).value.Valid()
  {
    WithMorphismTopology(PossibilityGraph([], []), m);
  }

  // ---------------------------------------------------------------- the union law

  ghost function AllObjects(graphs: seq<PossibilityGraph>): set<PossibilityObject> {
    set g, o | g in graphs && o in g.objects :: o
  }

  ghost function AllMorphisms(graphs: seq<PossibilityGraph>): set<Morphism> {
    set g, m | g in graphs && m in g.morphisms :: m
  }

  ghost predicate AllValid(graphs: seq<PossibilityGraph>) {
    forall g :: g in graphs ==> g.Valid()
  }

  lemma PartsMembers(g: PossibilityGraph)
    ensures AddedObjects(Parts(g)) == ToSet(g.objects) && AddedMorphisms(Parts(g)) == ToSet(g.morphisms)
  {
    forall o | o in g.objects ensures Node(o) in Parts(g) {
      var i :| 0 <= i < |g.objects| && g.objects[i] == o;
      assert NodesOf(g)[i] == Node(o);
    }
    forall m | m in g.morphisms ensures Edge(m) in Parts(g) {
      var i :| 0 <= i < |g.morphisms| && g.morphisms[i] == m;
      assert EdgesOf(g)[i] == Edge(m);
    }
    forall a | a in Parts(g) ensures match a case Node(o) => o in g.objects case Edge(m) => m in g.morphisms {
    }
  }

  lemma {:induction false} AllPartsMembers(graphs: seq<PossibilityGraph>)
    ensures AddedObjects(FlatMap(Parts, graphs)) == AllObjects(graphs)
    ensures AddedMorphisms(FlatMap(Parts, graphs)) == AllMorphisms(graphs)
  {
    if graphs != [] {
      var front, last := graphs[..|graphs| - 1], graphs[|graphs| - 1];
      FrontAndLast(graphs);
      AllPartsMembers(front);
      PartsMembers(last);
      AllSnoc(front, last);
      AddedAppend(FlatMap(Parts, front), Parts(last));
    }
  }

  lemma AddedAppend(a: seq<Addition>, b: seq<Addition>)
    ensures AddedObjects(a + b) == AddedObjects(a) + AddedObjects(b)
    ensures AddedMorphisms(a + b) == AddedMorphisms(a) + AddedMorphisms(b)
  {
  }

  lemma AllSnoc(front: seq<PossibilityGraph>, last: PossibilityGraph)
    ensures AllObjects(front + [last]) == AllObjects(front) + ToSet(last.objects)
    ensures AllMorphisms(front + [last]) == AllMorphisms(front) + ToSet(last.morphisms)
  {
  }

  lemma AllCons(g: PossibilityGraph, others: seq<PossibilityGraph>)
    ensures AllObjects([g] + others) == ToSet(g.objects) + AllObjects(others)
    ensures AllMorphisms([g] + others) == ToSet(g.morphisms) + AllMorphisms(others)
  {
    assert g in [g] + others;
  }

  /**
   The union law: `union` succeeds exactly when no id names two different values among all the
   graphs; the result is valid, endpoints included, and holds exactly their objects and morphisms.
   */
  lemma UnionLaw(g: PossibilityGraph, others: seq<PossibilityGraph>)
    requires AllValid([g] + others)
    ensures var r := AddAll(g, FlatMap(Parts, others));
            && (r.Success? <==> ObjectsAgree(AllObjects([g] + others)) && MorphismsAgree(AllMorphisms([g] + others)))
            && (r.Success? ==>
                  && r.value.Valid()
                  && ToSet(r.value.objects) == AllObjects([g] + others)
                  && ToSet(r.value.morphisms) == AllMorphisms([g] + others))
  {
    assert g in [g] + others;
    AddAllExact(g, FlatMap(Parts, others));
    AllPartsMembers(others);
    AllCons(g, others);
    var r := AddAll(g, FlatMap(Parts, others));
    forall m | m in AllMorphisms(others) ensures ValidateMorphism(m).Success? {
      var h :| h in others && m in h.morphisms;
      assert h in [g] + others;
    }
    if r.Success? {
      forall m | m in r.value.morphisms
        ensures r.value.HasObject(m.sourceId) && r.value.HasObject(m.targetId) && ValidateMorphism(m).Success?
      {
        assert m in ToSet(r.value.morphisms);
        var h :| h in [g] + others && m in h.morphisms;
        EndpointsCarryOver(h, r.value, m, [g] + others);
      }
    }
  }

  lemma EndpointsCarryOver(h: PossibilityGraph, r: PossibilityGraph, m: Morphism, graphs: seq<PossibilityGraph>)
    requires h.Valid() && m in h.morphisms && h in graphs && ToSet(r.objects) == AllObjects(graphs)
    ensures r.HasObject(m.sourceId) && r.HasObject(m.targetId)
  {
    var a :| a in h.objects && a.objectId == m.sourceId;
    var b :| b in h.objects && b.objectId == m.targetId;
    assert a in ToSet(r.objects) && b in ToSet(r.objects);
  }

  /** The same objects and the same morphisms, in whatever order. */
  ghost predicate SameGraph(g: PossibilityGraph, h: PossibilityGraph) {
    ToSet(g.objects) == ToSet(h.objects) && ToSet(g.morphisms) == ToSet(h.morphisms)
  }

  /** Both fail, or both succeed with the same graph up to order. */
  ghost predicate SameOutcome(r: Result<PossibilityGraph, GraphError>,
                              r': Result<PossibilityGraph, GraphError>) {
    (r.Success? <==> r'.Success?) && (r.Success? ==> SameGraph(r.value, r'.value))
  }

  /** Union does not depend on the order or the repetition of its operands. */
  lemma UnionCommutes(g: PossibilityGraph, others: seq<PossibilityGraph>, h: PossibilityGraph, others': seq<PossibilityGraph>)
    requires AllValid([g] + others) && ToSet([g] + others) == ToSet([h] + others')
    ensures SameOutcome(AddAll(g, FlatMap(Parts, others)), AddAll(h, FlatMap(Parts, others')))
  {
    forall x ensures x in [g] + others <==> x in [h] + others' {
      assert x in ToSet([g] + others) <==> x in ToSet([h] + others');
    }
    UnionLaw(g, others);
    UnionLaw(h, others');
    assert AllObjects([g] + others) == AllObjects([h] + others');
    assert AllMorphisms([g] + others) == AllMorphisms([h] + others');
  }

  /** Union is associative: `a ∪ (b ∪ c)` and `(a ∪ b) ∪ c` both fail or both give `a ∪ b ∪ c`. */
  lemma UnionAssociates(a: PossibilityGraph, b: PossibilityGraph, c: PossibilityGraph)
    requires a.Valid() && b.Valid() && c.Valid()
    ensures var all := AddAll(a, FlatMap(Parts, [b, c]));
            var ab, bc := AddAll(a, FlatMap(Parts, [b])), AddAll(b, FlatMap(Parts, [c]));
            && (ab.Failure? ==> all.Failure?)
            && (ab.Success? ==> AddAll(ab.value, FlatMap(Parts, [c])) == all)
            && (bc.Failure? ==> all.Failure?)
            && (bc.Success? ==> SameOutcome(AddAll(a, FlatMap(Parts, [bc.value])), all))
  {
    FlatMapOne(Parts, b);
    FlatMapOne(Parts, c);
    FlatMapAppend(Parts, [b], [c]);
    assert [b, c] == [b] + [c];
    AddAllAppend(a, Parts(b), Parts(c));
    UnionLaw(a, [b, c]);
    UnionLaw(b, [c]);
    var bc := AddAll(b, FlatMap(Parts, [c]));
    assert AllObjects([b] + [c]) <= AllObjects([a] + [b, c]);
    assert AllMorphisms([b] + [c]) <= AllMorphisms([a] + [b, c]);
    if bc.Success? {
      UnionLaw(a, [bc.value]);
      AllCons(a, [bc.value]);
      AllCons(a, [b, c]);
      OneGraph(bc.value);
      assert [b] + [c] == [b, c];
    }
  }

  lemma OneGraph(g: PossibilityGraph)
    ensures AllObjects([g]) == ToSet(g.objects) && AllMorphisms([g]) == ToSet(g.morphisms)
  {
    assert g in [g];
  }

  // ---------------------------------------------------------------- order, errors, validity

  /** Additions go to the end: what is there keeps its place, and what is added stands in the order it was first added. */
  lemma {:induction false} AdditionsKeepOrder(g: PossibilityGraph, additions: seq<Addition>, n: nat)
    requires AddAll(g, additions).Success? && n <= |additions|
    ensures AddAll(g, additions[..n]).Success?
    ensures var before, after := AddAll(g, additions[..n]).value, AddAll(g, additions).value;
            before.objects <= after.objects && before.morphisms <= after.morphisms
  {
    if n == |additions| {
      assert additions[..n] == additions;
    } else {
      AdditionsKeepOrder(g, additions[..|additions| - 1], n);
      assert additions[..|additions| - 1][..n] == additions[..n];
    }
  }

  /** A failing run of additions reports its first clash: an id with another value, or an edge its validator refuses. */
  lemma {:induction false} FirstClashReported(g: PossibilityGraph, additions: seq<Addition>) returns (n: nat)
    requires AddAll(g, additions).Failure?
    ensures n < |additions| && AddAll(g, additions[..n]).Success?
    ensures var before, error := AddAll(g, additions[..n]).value, AddAll(g, additions).error;
            match additions[n]
            case Node(o) =>
              error == ObjectIdentityConflict && exists x :: x in before.objects && x.objectId == o.objectId && x != o
            case Edge(m) =>
              if ValidateMorphism(m).Failure? then error == ValidateMorphism(m).error
              else error == MorphismIdentityConflict && exists x :: x in before.morphisms && x.morphismId == m.morphismId && x != m
  {
    var last := |additions| - 1;
    if AddAll(g, additions[..last]).Failure? {
      n := FirstClashReported(g, additions[..last]);
      assert additions[..last][..n] == additions[..n];
    } else {
      n := last;
    }
  }

  function ObjectId(o: PossibilityObject): string {
    o.objectId
  }

  function IdOf(m: Morphism): MorphismId {
    m.morphismId
  }

  /**
   A valid graph: as many object ids as objects and edge ids as edges, every edge between objects of the
   graph, every actuation a DO edge, and a grant required of exactly the DO edges.
   */
  lemma ValidGraphMeans(g: PossibilityGraph)
    ensures g.Valid() <==>
            && |ToSet(Map(ObjectId, g.objects))| == |g.objects| && |ToSet(Map(IdOf, g.morphisms))| == |g.morphisms|
            && forall m :: m in g.morphisms ==>
                 && (exists o :: o in g.objects && o.objectId == m.sourceId)
                 && (exists o :: o in g.objects && o.objectId == m.targetId)
                 && (m.kind.Actuate? ==> m.phase.Do?) && (m.requirements.executionGrantRequired <==> m.phase.Do?)
  {
    var objects, edges := Map(ObjectId, g.objects), Map(IdOf, g.morphisms);
    SizeOfToSet(objects);
    SizeOfToSet(edges);
    if |ToSet(objects)| == |objects| {
      FullSizeNoDup(objects);
    }
    if |ToSet(edges)| == |edges| {
      FullSizeNoDup(edges);
    }
    assert NoDup(objects) <==> g.UniqueObjectIds();
    assert NoDup(edges) <==> g.UniqueMorphismIds();
  }

  // ---------------------------------------------------------------- union and closure

  /** A larger graph has every lawful walk of the smaller one. */
  lemma LargerGraphKeepsClosure(s: Search, u: PossibilityGraph, starts: seq<string>, q: Path)
    requires InClosure(s, starts, q) && ToSet(s.graph.morphisms) <= ToSet(u.morphisms)
    ensures InClosure(s.(graph := u), starts, q)
  {
    var start, edges :| start in starts && edges != [] && ClosureWalk(s, start, edges) && Records(q, start, edges);
    forall e | e in edges ensures e in u.morphisms {
      assert e in ToSet(s.graph.morphisms);
    }
    assert ClosureWalk(s.(graph := u), start, edges);
  }

  /**
   Monotone closure: with the same starts, verdicts and bounds, every path and every frontier edge
   of an untruncated exploration of `g` is in an untruncated exploration of `g` united with others.
   */
  lemma UnionKeepsClosure(s: Search, others: seq<PossibilityGraph>, starts: seq<string>)
    requires AllValid([s.graph] + others) && AddAll(s.graph, FlatMap(Parts, others)).Success?
    requires !Explored(s, starts).truncated
    requires var u := s.(graph := AddAll(s.graph, FlatMap(Parts, others)).value);
             !Explored(u, starts).truncated
    ensures var u := s.(graph := AddAll(s.graph, FlatMap(Parts, others)).value);
            && (forall q :: q in Explored(s, starts).paths ==> q in Explored(u, starts).paths)
            && (forall f :: f in Explored(s, starts).irreversibleFrontier ==>
                            f in Explored(u, starts).irreversibleFrontier)
  {
    var u := AddAll(s.graph, FlatMap(Parts, others)).value;
    assert s.graph in [s.graph] + others;
    UnionLaw(s.graph, others);
    AllCons(s.graph, others);
    hide Explored;
    LargerGraphKeepsPaths(s, u, starts);
    LargerGraphKeepsFrontier(s, u, starts);
  }

  lemma LargerGraphKeepsPaths(s: Search, u: PossibilityGraph, starts: seq<string>)
    requires s.graph.UniqueMorphismIds() && u.UniqueMorphismIds() && ToSet(s.graph.morphisms) <= ToSet(u.morphisms)
    requires !Explored(s, starts).truncated && !Explored(s.(graph := u), starts).truncated
    ensures forall q :: q in Explored(s, starts).paths ==> q in Explored(s.(graph := u), starts).paths
  {
    hide Explored;
    hide InClosure;
    ClosureExactness(s, starts);
    ClosureExactness(s.(graph := u), starts);
    forall q | q in Explored(s, starts).paths ensures q in Explored(s.(graph := u), starts).paths {
      LargerGraphKeepsClosure(s, u, starts, q);
    }
  }

  lemma LargerGraphKeepsFrontier(s: Search, u: PossibilityGraph, starts: seq<string>)
    requires s.graph.UniqueMorphismIds() && u.UniqueMorphismIds() && ToSet(s.graph.morphisms) <= ToSet(u.morphisms)
    requires !Explored(s, starts).truncated && !Explored(s.(graph := u), starts).truncated
    ensures forall f :: f in Explored(s, starts).irreversibleFrontier ==>
                        f in Explored(s.(graph := u), starts).irreversibleFrontier
  {
    hide Explored;
    var larger := s.(graph := u);
    LargerGraphKeepsPaths(s, u, starts);
    FrontierExactness(s, starts);
    FrontierExactness(larger, starts);
    forall f | f in Explored(s, starts).irreversibleFrontier
      ensures f in Explored(larger, starts).irreversibleFrontier
    {
      var p, e :| StartOrEmitted(s, starts, p) && e in s.graph.Outgoing(Last(p)) && e.phase.Do?
                  && f == FrontierEdge(p, e.morphismId, e.targetId, s.verdict(e).standing, s.verdict(e).admitted,
                                       s.verdict(e).reason);
      assert larger.verdict(e) == s.verdict(e);
      assert e in ToSet(s.graph.morphisms) && e in ToSet(u.morphisms);
      assert StartOrEmitted(larger, starts, p) && e in larger.graph.Outgoing(Last(p));
    }
  }
}
