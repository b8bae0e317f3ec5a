/** What a completion frontier and its cut say, in terms of the items alone. */
module CompletionMeaning {
  import opened Outcomes
  import opened Sequences
  import opened CartesianProduct
  import opened Ordering
  import opened Completion
  import opened CompletionKernel
  import opened CompletionLaws

  // ---------------------------------------------------------------- items

  ghost predicate Unfinished(x: Item) {
    x.standing != Alive && x.standing != Unsupported && x.standing != Refused
  }

  /** The dependency names an item that stands ALIVE. */
  ghost predicate Satisfied(items: seq<Item>, dependency: string) {
    exists y :: y in items && y.itemId == dependency && y.standing == Alive
  }

  /** Every dependency is satisfied, and there is a lawful move. */
  ghost predicate Movable(items: seq<Item>, x: Item) {
    (forall d :: d in x.dependencies ==> Satisfied(items, d)) && exists m :: LawfulMoveOf(x, m)
  }

  /** An item of that id is waiting to be finished and can be moved. */
  ghost predicate Moving(items: seq<Item>, id: string) {
    exists x :: x in items && x.itemId == id && Unfinished(x) && Movable(items, x)
  }

  /** An item of that id is waiting to be finished and cannot be moved. */
  ghost predicate Stuck(items: seq<Item>, id: string) {
    exists x :: x in items && x.itemId == id && Unfinished(x) && !Movable(items, x)
  }

  lemma ReadyMeans(items: seq<Item>, x: Item)
    requires UniqueItems(items)
    ensures Ready(items, x) <==> forall d :: d in x.dependencies ==> Satisfied(items, d)
  {
    forall d ensures Find(items, d).Some? && Find(items, d).value.standing.Alive? <==> Satisfied(items, d) {
      FindExact(items, d);
      if y :| y in items && y.itemId == d && y.standing == Alive {
        FindThis(items, y);
      }
    }
    hide Satisfied;
    hide Find;
  }

  lemma MovableMeans(items: seq<Item>, x: Item)
    requires UniqueItems(items)
    ensures Movable(items, x) <==> Ready(items, x) && ReversibleMoves(x) != []
  {
    ReadyMeans(items, x);
    ReversibleMovesMembers(x);
    hide Ready;
    hide ReversibleMoves;
    hide Satisfied;
    if ReversibleMoves(x) != [] {
      assert LawfulMoveOf(x, ReversibleMoves(x)[0]);
    }
  }

  lemma ActionableMeans(items: seq<Item>)
    requires UniqueItems(items)
    ensures forall x :: x in Actionable(items) <==> x in items && Unfinished(x) && Movable(items, x)
  {
    ActionableMembers(items);
    forall x ensures Movable(items, x) <==> Ready(items, x) && ReversibleMoves(x) != [] {
      MovableMeans(items, x);
    }
    hide Movable;
    hide Ready;
    hide Actionable;
    hide ReversibleMoves;
  }

  lemma MapMembers<A, B>(f: A -> B, s: seq<A>, y: B)
    ensures y in Map(f, s) <==> exists x :: x in s && f(x) == y
  {
    if y in Map(f, s) {
      var i :| 0 <= i < |s| && Map(f, s)[i] == y;
      assert s[i] in s;
    }
    if x :| x in s && f(x) == y {
      var i :| 0 <= i < |s| && s[i] == x;
      assert Map(f, s)[i] == y;
    }
  }

  lemma ActionableIds(items: seq<Item>, id: string)
    requires UniqueItems(items)
    ensures id in Map(IdOf, Actionable(items)) <==> Moving(items, id)
  {
    ActionableMeans(items);
    hide Actionable;
    hide Movable;
    MapMembers(IdOf, Actionable(items), id);
  }

  // ---------------------------------------------------------------- what the frontier lists

  ghost predicate InTextOrder(ids: seq<string>) {
    forall i, j :: 0 <= i < j < |ids| ==> TextAtMost(ids[i], ids[j])
  }

  /** The unresolved items are exactly the unfinished ones, each once, ordered by id. */
  lemma UnresolvedExact(items: seq<Item>)
    requires ValidItems(items)
    ensures var ids := Map(IdOf, Unresolved(items));
            && (forall id :: id in ids <==> exists x :: x in items && x.itemId == id && Unfinished(x))
            && NoDup(ids) && InTextOrder(ids)
  {
    hide SortBy;
    var listed := Unresolved(items);
    UnresolvedMembers(items);
    UniqueMeansNoDup(items);
    SortBySorts(ItemKey, items);
    PermutationNoDup(items, Source(items));
    FilterNoDup(Pending, Source(items));
    FilterSorted(Pending, ItemKey, Source(items));
    hide Filter;
    forall id ensures id in Map(IdOf, listed) <==> exists x :: x in items && x.itemId == id && Unfinished(x) {
      MapMembers(IdOf, listed, id);
    }
    forall x, y | x in listed && y in listed && IdOf(x) == IdOf(y) ensures x == y {
      SameItem(items, x, y);
    }
    MapNoDup(IdOf, listed);
    forall i, j | 0 <= i < j < |listed| ensures TextAtMost(Map(IdOf, listed)[i], Map(IdOf, listed)[j]) {
      TextKeyOrder(listed[i].itemId, listed[j].itemId);
    }
  }

  /** The blocked items are exactly the unfinished ones that cannot be moved, each once, ordered by id. */
  lemma BlockedExact(items: seq<Item>)
    requires ValidItems(items)
    ensures var ids := BlockedIds(items);
            && (forall id :: id in ids <==> Stuck(items, id)) && NoDup(ids) && InTextOrder(ids)
  {
    hide SortBy;
    hide Filter;
    hide ReversibleMoves;
    hide Ready;
    var blocked := Filter(IsBlocked(items), Unresolved(items));
    var ids := Map(IdOf, blocked);
    UnresolvedMembers(items);
    BlockedMembers(items);
    BlockedNoDup(items);
    SortBySorts(IdKey, ids);
    SortByMembers(IdKey, ids);
    PermutationNoDup(ids, BlockedIds(items));
    forall id ensures id in ids <==> Stuck(items, id) {
      MapMembers(IdOf, blocked, id);
    }
    var sorted := BlockedIds(items);
    forall i, j | 0 <= i < j < |sorted| ensures TextAtMost(sorted[i], sorted[j]) {
      TextKeyOrder(sorted[i], sorted[j]);
    }
  }

  lemma BlockedMembers(items: seq<Item>)
    requires UniqueItems(items)
    ensures forall x :: x in Filter(IsBlocked(items), Unresolved(items)) <==> x in items && Unfinished(x) && !Movable(items, x)
  {
    UnresolvedMembers(items);
    hide Unresolved;
    forall x ensures IsBlocked(items)(x) <==> !Movable(items, x) {
      MovableMeans(items, x);
    }
    hide Movable;
    hide Ready;
    hide ReversibleMoves;
  }

  lemma BlockedNoDup(items: seq<Item>)
    requires ValidItems(items)
    ensures NoDup(Map(IdOf, Filter(IsBlocked(items), Unresolved(items))))
  {
    hide SortBy;
    var blocked := Filter(IsBlocked(items), Unresolved(items));
    UniqueMeansNoDup(items);
    SortBySorts(ItemKey, items);
    PermutationNoDup(items, Source(items));
    FilterNoDup(Pending, Source(items));
    FilterNoDup(IsBlocked(items), Unresolved(items));
    UnresolvedMembers(items);
    hide Filter;
    forall x, y | x in blocked && y in blocked && IdOf(x) == IdOf(y) ensures x == y {
      SameItem(items, x, y);
    }
    MapNoDup(IdOf, blocked);
  }

  /** An id is in a plan exactly when its item is unfinished, its dependencies stand ALIVE, and it has a lawful move. */
  lemma PlannedExact(subject: string, items: seq<Item>, maxPlans: nat, plan: Plan, id: string)
    requires ValidItems(items) && plan in FrontierOf(subject, items, maxPlans).plans
    ensures id in plan.itemIds <==> Moving(items, id)
  {
    hide Plans;
    hide BlockedIds;
    hide TotalCardinality;
    PlansAreLawful(items, maxPlans, plan);
    ActionableIds(items, id);
    hide Actionable;
    SameMembers(plan.itemIds, Map(IdOf, Actionable(items)));
  }

  // ---------------------------------------------------------------- how many plans there are

  /** The product over the items, in any order, of what each contributes. */
  ghost function ProductOf(f: Item -> nat, items: seq<Item>): nat {
    if items == [] then 1 else ProductOf(f, items[..|items| - 1]) * f(items[|items| - 1])
  }

  lemma {:induction false} ProductOfAppend(f: Item -> nat, a: seq<Item>, b: seq<Item>)
    ensures ProductOf(f, a + b) == ProductOf(f, a) * ProductOf(f, b)
  {
    if b == [] {
      assert a + b == a;
    } else {
      var front, last := b[..|b| - 1], b[|b| - 1];
      assert (a + b)[..|a + b| - 1] == a + front;
      ProductOfAppend(f, a, front);
      Associative(ProductOf(f, a), ProductOf(f, front), f(last));
    }
  }

  lemma Associative(a: nat, b: nat, c: nat)
    ensures (a * b) * c == a * (b * c)
  {
  }

  lemma Commutative(a: nat, b: nat, c: nat)
    ensures (a * b) * c == (a * c) * b
  {
  }

  lemma ProductOfOne(f: Item -> nat, x: Item)
    ensures ProductOf(f, [x]) == f(x)
  {
    assert [x][..0] == [];
  }

  lemma {:induction false} ProductOfPermuted(f: Item -> nat, a: seq<Item>, b: seq<Item>)
    requires multiset(a) == multiset(b)
    ensures ProductOf(f, a) == ProductOf(f, b)
    decreases |a|
  {
    if a == [] {
      assert |multiset(b)| == |b|;
    } else {
      var front, x := a[..|a| - 1], a[|a| - 1];
      FrontMultiset(a);
      var before, after := WithoutOne(b, x);
      ProductOfPermuted(f, front, before + after);
      ProductOfAppend(f, before, after);
      ProductOfAppend(f, before + [x], after);
      ProductOfAppend(f, before, [x]);
      ProductOfOne(f, x);
      Commutative(ProductOf(f, before), f(x), ProductOf(f, after));
    }
  }

  lemma {:induction false} ProductOfFiltered(f: Item -> nat, p: Item -> bool, all: Item -> nat, s: seq<Item>)
    requires forall x :: x in s ==> all(x) == if p(x) then f(x) else 1
    ensures ProductOf(f, Filter(p, s)) == ProductOf(all, s)
  {
    if s != [] {
      var front, last := s[..|s| - 1], s[|s| - 1];
      ProductOfFiltered(f, p, all, front);
      var kept := Filter(p, front);
      assert p(last) ==> (kept + [last])[..|kept|] == kept;
      assert kept + [] == kept;
    }
  }

  lemma {:induction false} CardinalityIsProduct(f: Item -> nat, items: seq<Item>)
    requires forall x :: x in items ==> f(x) == |ReversibleMoves(x)|
    ensures Cardinality(Map(ReversibleMoves, items)) == ProductOf(f, items)
  {
    hide ReversibleMoves;
    if items != [] {
      var front, last := items[..|items| - 1], items[|items| - 1];
      CardinalityIsProduct(f, front);
      var sets := Map(ReversibleMoves, items);
      assert sets[..|items| - 1] == Map(ReversibleMoves, front);
    }
  }

  /** The ids of an item's lawful moves. */
  ghost function LawfulIds(x: Item): set<string> {
    set m | m in x.moves && LawfulMoveOf(x, m) :: m.moveId
  }

  /** How many ways an item leaves open: as many as it has lawful moves if it is unfinished and movable, else one. */
  ghost function Ways(items: seq<Item>): Item -> nat {
    (x: Item) => if Unfinished(x) && Movable(items, x) then |LawfulIds(x)| else 1
  }

  lemma LawfulCount(items: seq<Item>, x: Item)
    requires ValidItems(items) && x in items
    ensures |LawfulIds(x)| == |ReversibleMoves(x)|
  {
    hide ReversibleMoves;
    hide ValidItems;
    var moves := ReversibleMoves(x);
    var ids := Map(MoveIdOf, moves);
    MovesNoDup(items, x);
    ReversibleMovesMembers(x);
    forall m, n | m in moves && n in moves && MoveIdOf(m) == MoveIdOf(n) ensures m == n {
      SameMove(items, x, m, x, n);
    }
    MapNoDup(MoveIdOf, moves);
    SizeOfToSet(ids);
    forall id ensures id in ToSet(ids) <==> id in LawfulIds(x) {
      MapMembers(MoveIdOf, moves, id);
    }
    assert ToSet(ids) == LawfulIds(x);
  }

  /** `total_cardinality` is the product, over the items, of the number of lawful moves of those that can be moved; none, if none can. */
  lemma TotalExact(items: seq<Item>)
    requires ValidItems(items)
    ensures TotalCardinality(items) ==
            if exists x :: x in items && Unfinished(x) && Movable(items, x) then ProductOf(Ways(items), items) else 0
  {
    ActionableMeans(items);
    if x :| x in items && Unfinished(x) && Movable(items, x) {
      assert x in Actionable(items);
    }
    if Actionable(items) != [] {
      assert Actionable(items)[0] in Actionable(items);
      CountIsProduct(items);
    }
    hide Movable;
  }

  lemma CountIsProduct(items: seq<Item>)
    requires ValidItems(items)
    ensures Cardinality(MoveSets(items)) == ProductOf(Ways(items), items)
  {
    hide SortBy;
    hide ReversibleMoves;
    hide ProductOf;
    var ways, pending, actionable := Ways(items), Unresolved(items), Actionable(items);
    var all := Source(items);
    SortBySorts(ItemKey, items);
    ActionableMeans(items);
    UnresolvedMembers(items);
    forall x | x in actionable ensures ways(x) == |ReversibleMoves(x)| {
      LawfulCount(items, x);
    }
    CardinalityIsProduct(ways, actionable);
    forall x | x in pending ensures ways(x) == if IsActionable(items)(x) then ways(x) else 1 {
      MovableMeans(items, x);
    }
    ProductOfFiltered(ways, IsActionable(items), ways, pending);
    forall x | x in all ensures ways(x) == if Pending(x) then ways(x) else 1 {
    }
    ProductOfFiltered(ways, Pending, ways, all);
    ProductOfPermuted(ways, all, items);
  }

  // ---------------------------------------------------------------- the frontier

  /**
   What a frontier says of valid items: which are unresolved and which blocked; its standing; how many plans
   there are in all and whether they were cut off; whose plans they are; and that its digest covers all of it.
   */
  lemma FrontierMeans(subject: string, items: seq<Item>, maxPlans: nat)
    requires ValidItems(items)
    ensures var f := FrontierOf(subject, items, maxPlans);
            && f.subjectRef == subject
            && (forall id :: id in f.unresolvedItems <==> exists x :: x in items && x.itemId == id && Unfinished(x))
            && NoDup(f.unresolvedItems) && InTextOrder(f.unresolvedItems)
            && (forall id :: id in f.blockedItems <==> Stuck(items, id)) && NoDup(f.blockedItems) && InTextOrder(f.blockedItems)
            && (f.standing == Alive <==> !exists x :: x in items && Unfinished(x))
            && (f.standing == Blocked <==> exists id :: Stuck(items, id))
            && (f.standing != Alive && f.standing != Blocked ==> f.standing == PartialAlive)
            && f.totalCardinality ==
                 (if exists x :: x in items && Unfinished(x) && Movable(items, x) then ProductOf(Ways(items), items) else 0)
            && (f.truncated <==> f.totalCardinality > maxPlans)
            && |f.plans| == (if f.totalCardinality > maxPlans then maxPlans else f.totalCardinality)
            && f.frontierDigest == FrontierPayload(subject, f.sourceDigest, f.standing, f.unresolvedItems, f.blockedItems,
                                                   f.totalCardinality, f.truncated, f.plans)
  {
    UnresolvedExact(items);
    BlockedExact(items);
    TotalExact(items);
    PlansCounted(items, maxPlans);
    StandingMeans(items);
    hide Unresolved;
    hide BlockedIds;
    hide Plans;
    hide Actionable;
    hide ValidItems;
    hide MoveSets;
    hide StandingOf;
    hide Stuck;
    hide Movable;
    hide InTextOrder;
  }

  lemma StandingMeans(items: seq<Item>)
    requires ValidItems(items)
    ensures StandingOf(items) == Alive <==> !exists x :: x in items && Unfinished(x)
    ensures StandingOf(items) == Blocked <==> exists id :: Stuck(items, id)
    ensures StandingOf(items) in {Alive, Blocked, PartialAlive}
  {
    UnresolvedMembers(items);
    BlockedExact(items);
    var unresolved, blocked := Unresolved(items), BlockedIds(items);
    hide Unresolved;
    hide BlockedIds;
    if unresolved != [] {
      assert unresolved[0] in unresolved;
    }
    if blocked != [] {
      assert blocked[0] in blocked;
    }
    hide Movable;
  }

  /** Two lists of valid items have one source identity exactly when they are the same items in some order. */
  lemma SourceIdentity(a: seq<Item>, b: seq<Item>)
    requires ValidItems(a)
    ensures Source(a) == Source(b) <==> multiset(a) == multiset(b)
  {
    hide SortBy;
    SortBySorts(ItemKey, a);
    SortBySorts(ItemKey, b);
    if multiset(a) == multiset(b) {
      PermutedItemsValid(a, b);
    }
  }

  // ---------------------------------------------------------------- plans

  /** The place of a kind's name among the names, in alphabetical order. */
  function Alphabetical(kind: MoveKind): nat {
    match kind
    case Adapt => 0 case Compose => 1 case Construct => 2 case Do => 3 case Inspect => 4
    case Preserve => 5 case Publish => 6 case Verify => 7
  }

  /** Cheaper first; among equals by the kind's name, then by the move's id. */
  ghost predicate MoveAtMost(a: Move, b: Move) {
    || a.cost < b.cost
    || (a.cost == b.cost && Alphabetical(a.kind) < Alphabetical(b.kind))
    || (a.cost == b.cost && a.kind == b.kind && TextAtMost(a.moveId, b.moveId))
  }

  lemma KindOrder(a: MoveKind, b: MoveKind)
    requires a != b
    ensures Codes(KindName(a)) != Codes(KindName(b))
    ensures WordLeq(Codes(KindName(a)), Codes(KindName(b)), 0) <==> Alphabetical(a) < Alphabetical(b)
  {
    var x, y := Codes(KindName(a)), Codes(KindName(b));
    var i: nat := if {a, b} == {Compose, Construct} then 2
                  else if {a, b} == {Preserve, Publish} then 1 else 0;
    forall k | 0 <= k < i ensures x[k] == y[k] {
    }
    assert x[i] != y[i];
    assert x[i] < y[i] <==> Alphabetical(a) < Alphabetical(b);
    FirstDifference(x, y, i);
  }

  lemma FirstDifference(a: seq<int>, b: seq<int>, i: nat)
    requires i < |a| && i < |b| && a[i] != b[i] && forall k :: 0 <= k < i ==> a[k] == b[k]
    ensures WordLeq(a, b, 0) <==> a[i] < b[i]
  {
    WordLeqMeans(a, b, 0);
    if a[i] < b[i] {
      assert WordDiffersAt(a, b, i);
    }
    if WordLeq(a, b, 0) {
      var j: nat :| WordDiffersAt(a, b, j);
      assert j == i;
    }
  }

  lemma MoveOrder(a: Move, b: Move)
    ensures KeyLeq(MoveKey(a), MoveKey(b)) <==> MoveAtMost(a, b)
  {
    var x, y := MoveKey(a), MoveKey(b);
    assert x[0] == [a.cost] && y[0] == [b.cost];
    assert KeyLeq(x, y) == if x[0] == y[0] then KeyLeqFrom(x, y, 1) else WordLeq(x[0], y[0], 0);
    assert x[0] == y[0] <==> a.cost == b.cost by {
      assert x[0][0] == a.cost && y[0][0] == b.cost;
    }
    assert a.cost != b.cost ==> (WordLeq(x[0], y[0], 0) <==> a.cost < b.cost);
    assert KeyLeqFrom(x, y, 1) == if x[1] == y[1] then KeyLeqFrom(x, y, 2) else WordLeq(x[1], y[1], 0);
    if a.kind != b.kind {
      KindOrder(a.kind, b.kind);
    } else {
      TextTail(x, y, a.moveId, b.moveId);
    }
  }

  lemma TextTail(x: Key, y: Key, a: string, b: string)
    requires |x| == |y| == 3 && x[2] == Codes(a) && y[2] == Codes(b)
    ensures KeyLeqFrom(x, y, 2) <==> TextAtMost(a, b)
  {
    WordLeqMeans(x[2], y[2], 0);
    CodesOrder(a, b);
    assert WordLeq(x[2], y[2], 0) <==> WordAtMost(x[2], y[2]);
    if x[2] == y[2] {
      CodesInjective(a, b);
      assert TextDiffersAt(a, b, |a|);
      assert KeyLeqFrom(x, y, 3);
    }
  }

  /**
   The enumeration behind a truncated frontier: factors are the movable items in the order of their ids, and
   their lawful moves by cost, kind and id; the plans are made of the first `maxPlans` choices of the product.
   */
  lemma EnumerationOrder(items: seq<Item>, maxPlans: nat)
    requires ValidItems(items)
    ensures var movable, sets := Actionable(items), MoveSets(items);
            && |sets| == |movable| && InTextOrder(Map(IdOf, movable))
            && (forall x :: x in movable <==> x in items && Unfinished(x) && Movable(items, x))
            && (forall i :: 0 <= i < |sets| ==>
                  && (forall m :: m in sets[i] <==> LawfulMoveOf(movable[i], m))
                  && forall j, k :: 0 <= j < k < |sets[i]| ==> MoveAtMost(sets[i][j], sets[i][k]))
            && (movable != [] ==>
                  multiset(Plans(items, maxPlans)) == multiset(Map(PlanOf, Combinations.Slice(Product(sets), maxPlans))))
  {
    hide SortBy;
    ActionableMeans(items);
    SortBySorts(ItemKey, items);
    FilterSorted(Pending, ItemKey, Source(items));
    FilterSorted(IsActionable(items), ItemKey, Unresolved(items));
    SortBySorts(PlanKey, Map(PlanOf, Enumerated(items, maxPlans)));
    hide Filter;
    hide PlanOf;
    hide Movable;
    var movable := Actionable(items);
    forall i, j | 0 <= i < j < |movable| ensures TextAtMost(Map(IdOf, movable)[i], Map(IdOf, movable)[j]) {
      TextKeyOrder(movable[i].itemId, movable[j].itemId);
    }
    forall i | 0 <= i < |movable|
      ensures forall m :: m in MoveSets(items)[i] <==> LawfulMoveOf(movable[i], m)
      ensures forall j, k :: 0 <= j < k < |MoveSets(items)[i]| ==> MoveAtMost(MoveSets(items)[i][j], MoveSets(items)[i][k])
    {
      ReversibleMovesMembers(movable[i]);
      MovesInOrder(movable[i]);
    }
  }

  lemma MovesInOrder(item: Item)
    ensures forall j, k :: 0 <= j < k < |ReversibleMoves(item)| ==> MoveAtMost(ReversibleMoves(item)[j], ReversibleMoves(item)[k])
  {
    hide SortBy;
    hide KeyLeq;
    hide MoveKey;
    var moves := ReversibleMoves(item);
    SortBySorts(MoveKey, Filter(Lawful, item.moves));
    forall j, k | 0 <= j < k < |moves| ensures MoveAtMost(moves[j], moves[k]) {
      MoveOrder(moves[j], moves[k]);
    }
  }

  /** Cheaper first; among equals, by the first move id that differs. */
  ghost predicate PlanAtMost(a: Plan, b: Plan) {
    || a.totalCost < b.totalCost
    || (a.totalCost == b.totalCost && exists n: nat :: IdsDifferAt(a.moveIds, b.moveIds, n))
  }

  ghost predicate IdsDifferAt(a: seq<string>, b: seq<string>, n: nat) {
    && n <= |a| && n <= |b| && (forall k :: 0 <= k < n ==> a[k] == b[k])
    && (n == |a| || (n < |b| && a[n] != b[n] && TextAtMost(a[n], b[n])))
  }

  lemma PlanOrder(a: Plan, b: Plan)
    requires KeyLeq(PlanKey(a), PlanKey(b))
    ensures PlanAtMost(a, b)
  {
    var x, y := PlanKey(a), PlanKey(b);
    KeyLeqMeans(x, y);
    var i: nat :| KeyDiffersAt(x, y, i);
    if i == 0 {
      var n: nat :| WordDiffersAt([a.totalCost], [b.totalCost], n);
      assert n == 0;
    } else {
      assert x[0][0] == y[0][0];
      forall k | 0 <= k < i - 1 ensures a.moveIds[k] == b.moveIds[k] {
        assert x[k + 1] == y[k + 1];
        CodesInjective(a.moveIds[k], b.moveIds[k]);
      }
      if i < |x| {
        CodesOrder(a.moveIds[i - 1], b.moveIds[i - 1]);
      }
      assert IdsDifferAt(a.moveIds, b.moveIds, i - 1);
    }
  }

  /** The plans of a frontier come by cost, then by the ids of their moves. */
  lemma PlansInOrder(subject: string, items: seq<Item>, maxPlans: nat, i: nat, j: nat)
    requires i < j < |FrontierOf(subject, items, maxPlans).plans|
    ensures PlanAtMost(FrontierOf(subject, items, maxPlans).plans[i], FrontierOf(subject, items, maxPlans).plans[j])
  {
    hide SortBy;
    hide PlanKey;
    hide KeyLeq;
    hide Enumerated;
    hide PlanAtMost;
    var plans := Plans(items, maxPlans);
    SortBySorts(PlanKey, Map(PlanOf, Enumerated(items, maxPlans)));
    PlanOrder(plans[i], plans[j]);
  }

  /** A move of the item that the plan names at `k`. */
  ghost predicate PlansMove(items: seq<Item>, plan: Plan, k: nat, m: Move)
    requires k < |plan.itemIds| && k < |plan.moveIds|
  {
    NamesMove(items, plan.itemIds[k], plan.moveIds[k], m)
  }

  /** A plan names, in the order of the move ids, one lawful move of each movable item, and states the sum of their costs. */
  lemma PlanMeans(subject: string, items: seq<Item>, maxPlans: nat, plan: Plan) returns (moves: seq<Move>)
    requires ValidItems(items) && plan in FrontierOf(subject, items, maxPlans).plans
    ensures |plan.itemIds| == |plan.moveIds| == |moves| && NoDup(plan.itemIds) && InTextOrder(plan.moveIds)
    ensures forall id :: id in plan.itemIds <==> Moving(items, id)
    ensures forall k :: 0 <= k < |moves| ==> PlansMove(items, plan, k, moves[k])
    ensures plan.totalCost == Cost(moves)
  {
    hide SortBy;
    hide Actionable;
    hide BlockedIds;
    hide TotalCardinality;
    hide Plans;
    forall id ensures id in plan.itemIds <==> Moving(items, id) {
      PlannedExact(subject, items, maxPlans, plan, id);
    }
    PlansAreLawful(items, maxPlans, plan);
    var choice :| OneLawfulMoveEach(items, choice) && plan == PlanOf(choice);
    moves := SortBy(MoveIdKey, choice);
    PlanMoves(items, choice);
    SortBySorts(MoveIdKey, choice);
    forall i, j | 0 <= i < j < |plan.moveIds| ensures TextAtMost(plan.moveIds[i], plan.moveIds[j]) {
      TextKeyOrder(moves[i].moveId, moves[j].moveId);
    }
    forall k | 0 <= k < |moves| ensures PlansMove(items, plan, k, moves[k]) {
      var i :| 0 <= i < |choice| && choice[i] == moves[k];
      ChosenMoveOwner(items, choice, i);
      assert LawfulMoveOf(Actionable(items)[i], choice[i]);
    }
  }

  // ---------------------------------------------------------------- the cut

  /** The verdict of a cut made from valid items, its selection, and what its digest covers. */
  lemma CutMeans(subject: string, items: seq<Item>, maxPlans: nat)
    requires ValidItems(items) && maxPlans >= 1
    ensures var f := FrontierOf(subject, items, maxPlans); var cut := SelectCut(f);
            && cut.subjectRef == subject && cut.sourceDigest == f.sourceDigest && cut.frontierDigest == f.frontierDigest
            && (if !(exists x :: x in items && Unfinished(x)) then cut.standing == Alive && cut.reason == SubjectAlreadyAlive
                else if exists id :: Stuck(items, id) then cut.standing == Blocked && cut.reason == BlockedItems(f.blockedItems)
                else cut.standing == PartialAlive && cut.reason == ReversibleCutSelected)
            && (cut.selected.Some? <==> exists id :: Moving(items, id))
            && (cut.selected.Some? ==> f.plans != [] && cut.selected.value == f.plans[0])
            && cut.cutDigest == Some(CutPayload(cut.subjectRef, cut.sourceDigest, cut.frontierDigest, cut.standing,
                                                cut.selected, cut.reason))
  {
    var f := FrontierOf(subject, items, maxPlans);
    StandingMeans(items);
    BlockedExact(items);
    AlwaysAPlanWhenUnblocked(subject, items, maxPlans);
    SomethingMoves(items);
    hide StandingOf;
    hide BlockedIds;
    hide Plans;
    hide Unresolved;
    hide Actionable;
    hide TotalCardinality;
    hide Stuck;
    hide Moving;
    if BlockedIds(items) != [] {
      assert BlockedIds(items)[0] in BlockedIds(items);
    }
    hide ValidItems;
  }

  /** A cut of any frontier, one the kernel did not make included, says it has no plan exactly when that is so. */
  lemma CutWithoutPlan(f: Frontier)
    ensures var cut := SelectCut(f);
            && (cut.reason.NoReversibleCompletionPlan? <==> !f.standing.Alive? && f.blockedItems == [] && f.plans == [])
            && (cut.reason.NoReversibleCompletionPlan? ==> cut.standing == Blocked && cut.selected.None?)
  {
  }

  lemma SomethingMoves(items: seq<Item>)
    requires ValidItems(items)
    ensures Actionable(items) != [] <==> exists id :: Moving(items, id)
  {
    hide ValidItems;
    ActionableMeans(items) by {
      assert UniqueItems(items) by { UniqueOf(items); }
    }
    hide Actionable;
    hide Movable;
    if Actionable(items) != [] {
      assert Actionable(items)[0] in Actionable(items);
      assert Moving(items, Actionable(items)[0].itemId);
    }
  }

  lemma UniqueOf(items: seq<Item>)
    requires ValidItems(items)
    ensures UniqueItems(items)
  {
  }

  // ---------------------------------------------------------------- refusals

  /** Why the fence refuses what a plan names at one place. */
  ghost predicate Refuses(items: seq<Item>, itemId: string, moveId: string, error: CompletionError) {
    match error
    case UnknownItem(id) => id == itemId && !exists x :: x in items && x.itemId == itemId
    case UnknownMove(id, move) =>
      && id == itemId && move == moveId && (exists x :: x in items && x.itemId == itemId)
      && !exists m :: OnItem(items, itemId, moveId, m)
    case DoRequiresBrce(move) => move == moveId && exists m :: OnItem(items, itemId, moveId, m) && m.kind == Do
    case IrreversibleMove(move) =>
      move == moveId && exists m :: OnItem(items, itemId, moveId, m) && m.kind != Do && !m.reversible
    case AuthorityRequired(move) =>
      move == moveId && exists m :: OnItem(items, itemId, moveId, m) && m.kind != Do && m.reversible && m.requiresAuthority
    case _ => false
  }

  ghost predicate OnItem(items: seq<Item>, itemId: string, moveId: string, m: Move) {
    exists x :: x in items && x.itemId == itemId && m in x.moves && m.moveId == moveId
  }

  lemma CheckRefuses(items: seq<Item>, itemId: string, moveId: string)
    requires ValidItems(items) && CheckMove(items, itemId, moveId).Failure?
    ensures Refuses(items, itemId, moveId, CheckMove(items, itemId, moveId).error)
  {
    FindExact(items, itemId);
    var found := Find(items, itemId);
    if found.Some? {
      forall x | x in items && x.itemId == itemId ensures x == found.value {
        SameItem(items, x, found.value);
      }
      var move := FindMove(found.value.moves, moveId);
      assert move.Some? ==> OnItem(items, itemId, moveId, move.value);
    }
  }

  lemma {:induction false} ChecksFailAt(items: seq<Item>, plan: Plan, k: nat, n: nat)
    requires k < n <= |plan.itemIds| && n <= |plan.moveIds|
    requires CheckMoves(items, plan, k).Success? && CheckMove(items, plan.itemIds[k], plan.moveIds[k]).Failure?
    ensures CheckMoves(items, plan, n) == Failure(CheckMove(items, plan.itemIds[k], plan.moveIds[k]).error)
  {
    hide CheckMove;
    if n > k + 1 {
      ChecksFailAt(items, plan, k, n - 1);
    }
  }

  /** The checks of the fence that concern the cut as a whole come first, in this order. */
  lemma FenceRefusesFirst(cut: Cut, items: seq<Item>)
    ensures Source(items) != cut.sourceDigest ==> Admission(cut, items) == Failure(SourceIdentityMismatch)
    ensures Source(items) == cut.sourceDigest &&
            cut.cutDigest != Some(CutPayload(cut.subjectRef, cut.sourceDigest, cut.frontierDigest, cut.standing,
                                             cut.selected, cut.reason)) ==>
            Admission(cut, items) == Failure(CutDigestMismatch)
    ensures Intact(cut, items) && cut.selected.None? ==>
            Admission(cut, items) == if cut.standing == Alive then Success(cut) else Failure(NoSelectedCut(cut.reason))
    ensures Intact(cut, items) && cut.selected.Some? && !NoDup(cut.selected.value.itemIds) ==>
            Admission(cut, items) == Failure(DuplicateSelectedItem)
  {
    hide Source;
    hide CheckMoves;
  }

  ghost predicate Intact(cut: Cut, items: seq<Item>) {
    && Source(items) == cut.sourceDigest
    && cut.cutDigest == Some(CutPayload(cut.subjectRef, cut.sourceDigest, cut.frontierDigest, cut.standing, cut.selected, cut.reason))
  }

  /** Then the first place at which the plan does not name a lawful move decides, and says why. */
  lemma FenceRefusesAt(cut: Cut, items: seq<Item>, k: nat, moves: seq<Move>)
    requires ValidItems(items) && Intact(cut, items) && cut.selected.Some? && NoDup(cut.selected.value.itemIds)
    requires var plan := cut.selected.value;
             && k < |plan.itemIds| && k < |plan.moveIds| && |moves| == k
             && (forall j :: 0 <= j < k ==> NamesMove(items, plan.itemIds[j], plan.moveIds[j], moves[j]))
             && !exists m :: NamesMove(items, plan.itemIds[k], plan.moveIds[k], m)
    ensures Admission(cut, items).Failure?
    ensures Refuses(items, cut.selected.value.itemIds[k], cut.selected.value.moveIds[k], Admission(cut, items).error)
  {
    hide Source;
    hide NamesMove;
    hide Refuses;
    var plan := cut.selected.value;
    UniqueOf(items);
    EarlierPass(items, plan, moves, k);
    if CheckMove(items, plan.itemIds[k], plan.moveIds[k]).Success? {
      var m := CheckedMove(items, plan.itemIds[k], plan.moveIds[k]);
      assert false;
    }
    CheckRefuses(items, plan.itemIds[k], plan.moveIds[k]);
    ChecksFailAt(items, plan, k, Shorter(plan));
    hide CheckMove;
    hide CheckMoves;
    hide ValidItems;
  }

  lemma {:induction false} EarlierPass(items: seq<Item>, plan: Plan, moves: seq<Move>, n: nat)
    requires ValidItems(items) && n <= |plan.itemIds| && n <= |plan.moveIds| && n <= |moves|
    requires forall j :: 0 <= j < n ==> NamesMove(items, plan.itemIds[j], plan.moveIds[j], moves[j])
    ensures CheckMoves(items, plan, n).Success?
  {
    hide CheckMove;
    hide NamesMove;
    hide ValidItems;
    if n > 0 {
      EarlierPass(items, plan, moves, n - 1);
      CheckMoveIff(items, plan.itemIds[n - 1], plan.moveIds[n - 1], moves[n - 1]);
    }
  }

  /** A plan of lawful moves is refused for its shape or its cost only. */
  lemma FenceRefusesLast(cut: Cut, items: seq<Item>, moves: seq<Move>)
    requires ValidItems(items) && Intact(cut, items) && cut.selected.Some? && NoDup(cut.selected.value.itemIds)
    requires var plan := cut.selected.value;
             && |moves| == Shorter(plan)
             && forall j :: 0 <= j < |moves| ==> NamesMove(items, plan.itemIds[j], plan.moveIds[j], moves[j])
    ensures var plan := cut.selected.value;
            Admission(cut, items) ==
            if |plan.itemIds| != |plan.moveIds| then Failure(UnevenSelection)
            else if Cost(moves) != plan.totalCost then Failure(SelectedCostMismatch(plan.totalCost, Cost(moves)))
            else Success(cut)
  {
    hide Source;
    var plan := cut.selected.value;
    var short := plan.(itemIds := plan.itemIds[..|moves|], moveIds := plan.moveIds[..|moves|]);
    NamedMovesPass(items, short, moves, |moves|);
    SameChecks(items, plan, short, |moves|);
    assert moves[..|moves|] == moves;
    hide CheckMoves;
    hide NamesMove;
    hide ValidItems;
  }

  lemma {:induction false} SameChecks(items: seq<Item>, a: Plan, b: Plan, n: nat)
    requires n <= |a.itemIds| && n <= |a.moveIds| && n <= |b.itemIds| && n <= |b.moveIds|
    requires a.itemIds[..n] == b.itemIds[..n] && a.moveIds[..n] == b.moveIds[..n]
    ensures CheckMoves(items, a, n) == CheckMoves(items, b, n)
  {
    hide CheckMove;
    if n > 0 {
      assert a.itemIds[..n][n - 1] == a.itemIds[n - 1] && b.itemIds[..n][n - 1] == b.itemIds[n - 1];
      assert a.moveIds[..n][n - 1] == a.moveIds[n - 1] && b.moveIds[..n][n - 1] == b.moveIds[n - 1];
      assert a.itemIds[..n - 1] == a.itemIds[..n][..n - 1] && b.itemIds[..n - 1] == b.itemIds[..n][..n - 1];
      assert a.moveIds[..n - 1] == a.moveIds[..n][..n - 1] && b.moveIds[..n - 1] == b.moveIds[..n][..n - 1];
      SameChecks(items, a, b, n - 1);
    }
  }

  // ---------------------------------------------------------------- the first problem

  /** Move `j` of item `i` comes before move `k` of item `n` in the order of the loops. */
  ghost predicate EarlierMove(items: seq<Item>, i: nat, j: nat, n: nat, k: nat) {
    i < |items| && j < |items[i].moves| && (i < n || (i == n && j < k))
  }

  /** What is wrong with move `k` of item `n`; of several things the first. */
  ghost predicate WrongMove(items: seq<Item>, n: nat, k: nat, problem: ItemProblem) {
    && n < |items| && k < |items[n].moves|
    && var move := items[n].moves[k];
       if move.itemId != items[n].itemId then problem == MoveItemMismatch(move.moveId, move.itemId, items[n].itemId)
       else if exists i: nat, j: nat :: EarlierMove(items, i, j, n, k) && items[i].moves[j].moveId == move.moveId then
         problem == DuplicateMove(move.moveId)
       else move.cost < 0 && problem == NegativeCost(move.moveId, move.cost)
  }

  ghost predicate WrongItem(items: seq<Item>, n: nat, problem: ItemProblem) {
    && n < |items| && problem == DuplicateItem(items[n].itemId)
    && exists i :: 0 <= i < n && items[i].itemId == items[n].itemId
  }

  /** Nothing is wrong with the items before `n`, nor with the first `k` moves of item `n`. */
  ghost predicate FineBefore(items: seq<Item>, n: nat, k: nat) {
    && (forall i: nat, p :: i < n ==> !WrongItem(items, i, p))
    && (forall i: nat, j: nat, p :: i < n || (i == n && j < k) ==> !WrongMove(items, i, j, p))
  }

  lemma SeenBefore(items: seq<Item>, n: nat, k: nat, id: string)
    requires n < |items| && k <= |items[n].moves|
    ensures id in AllMoveIds(items[..n]) + MoveIds(items[n])[..k] <==>
            exists i: nat, j: nat :: EarlierMove(items, i, j, n, k) && items[i].moves[j].moveId == id
  {
    hide FlatMap;
    var front := items[..n];
    if id in AllMoveIds(front) {
      var i := FlatMapSource(MoveIds, front, id);
      var j :| 0 <= j < |MoveIds(front[i])| && MoveIds(front[i])[j] == id;
      assert EarlierMove(items, i, j, n, k);
    } else if id in MoveIds(items[n])[..k] {
      var j :| 0 <= j < k && MoveIds(items[n])[j] == id;
      assert EarlierMove(items, n, j, n, k);
    }
    if i: nat, j: nat :| EarlierMove(items, i, j, n, k) && items[i].moves[j].moveId == id {
      assert MoveIds(items[i])[j] == id;
      if i < n {
        assert front[i] == items[i];
        FlatMapTarget(MoveIds, front, i, id);
      } else {
        assert MoveIds(items[n])[..k][j] == id;
      }
    }
  }

  lemma MoveProblemMeans(items: seq<Item>, n: nat, k: nat)
    requires n < |items| && k < |items[n].moves|
    ensures var problem := MoveProblem(items[n], k, AllMoveIds(items[..n]));
            if problem.Some? then WrongMove(items, n, k, problem.value) else forall p :: !WrongMove(items, n, k, p)
  {
    SeenBefore(items, n, k, items[n].moves[k].moveId);
    hide EarlierMove;
    hide MoveIds;
    hide AllMoveIds;
  }

  lemma {:induction false} MovesProblemMeans(items: seq<Item>, n: nat, k: nat) returns (at: nat)
    requires n < |items| && k <= |items[n].moves|
    ensures var problem := MovesProblem(items[n], k, AllMoveIds(items[..n]));
            && at <= k
            && (forall j: nat, p :: j < at ==> !WrongMove(items, n, j, p))
            && (if problem.Some? then at < k && WrongMove(items, n, at, problem.value) else at == k)
  {
    hide WrongMove;
    hide MoveProblem;
    if k == 0 {
      at := 0;
    } else {
      at := MovesProblemMeans(items, n, k - 1);
      MoveProblemMeans(items, n, k - 1);
      if MovesProblem(items[n], k, AllMoveIds(items[..n])).None? {
        at := k;
      }
    }
  }

  lemma ItemProblemMeans(items: seq<Item>, n: nat)
    requires n < |items|
    ensures items[n].itemId in ItemIds(items[..n]) <==> WrongItem(items, n, DuplicateItem(items[n].itemId))
  {
    if i :| 0 <= i < n && items[i].itemId == items[n].itemId {
      assert items[..n][i].itemId == items[n].itemId;
    }
  }

  lemma {:induction false} ItemsProblemMeans(items: seq<Item>, n: nat) returns (i: nat, k: nat)
    requires n <= |items|
    ensures var problem := ItemsProblem(items, n);
            && i <= n && FineBefore(items, i, k)
            && (if problem.Some? then
                  i < n && (if problem.value.DuplicateItem? then k == 0 && WrongItem(items, i, problem.value)
                            else WrongMove(items, i, k, problem.value) && forall p :: !WrongItem(items, i, p))
                else i == n && k == 0)
  {
    hide WrongMove;
    hide MovesProblem;
    if n == 0 {
      i, k := 0, 0;
    } else {
      i, k := ItemsProblemMeans(items, n - 1);
      if ItemsProblem(items, n - 1).None? {
        ItemProblemMeans(items, n - 1);
        if items[n - 1].itemId !in ItemIds(items[..n - 1]) {
          var at := MovesProblemMeans(items, n - 1, |items[n - 1].moves|);
          NoWrongMovePast(items, n - 1);
          if ItemsProblem(items, n).Some? {
            MoveProblemIsNoDuplicateItem(items, n - 1, at, ItemsProblem(items, n).value);
            k := at;
          } else {
            i, k := n, 0;
          }
        }
      }
    }
  }

  lemma NoWrongMovePast(items: seq<Item>, n: nat)
    requires n < |items|
    ensures forall j: nat, p :: j >= |items[n].moves| ==> !WrongMove(items, n, j, p)
  {
  }

  lemma MoveProblemIsNoDuplicateItem(items: seq<Item>, n: nat, k: nat, problem: ItemProblem)
    requires WrongMove(items, n, k, problem)
    ensures !problem.DuplicateItem? && !problem.UnknownDependency?
  {
  }

  /** Items and moves are looked at in order; the problem reported is the first of the first item or move that has one. */
  lemma FirstProblemIsFirst(items: seq<Item>) returns (n: nat, k: nat)
    requires FirstProblem(items).Some? && !FirstProblem(items).value.UnknownDependency?
    ensures FineBefore(items, n, k)
    ensures var problem := FirstProblem(items).value;
            if problem.DuplicateItem? then k == 0 && WrongItem(items, n, problem)
            else WrongMove(items, n, k, problem) && forall p :: !WrongItem(items, n, p)
  {
    n, k := ItemsProblemMeans(items, |items|);
    hide ItemsProblem;
    hide FineBefore;
    hide WrongItem;
    hide WrongMove;
    if ItemsProblem(items, |items|).None? {
      DependencyProblemKind(items, |items|);
    }
  }

  lemma {:induction false} DependencyProblemKind(items: seq<Item>, n: nat)
    requires n <= |items|
    ensures DependencyProblem(items, n).Some? ==>
              exists i :: 0 <= i < n && UnknownBehind(items, i, DependencyProblem(items, n).value) && NoneUnknown(items, i)
    ensures DependencyProblem(items, n).None? ==> NoneUnknown(items, n)
    ensures DependencyProblem(items, n).Some? ==> DependencyProblem(items, n).value.UnknownDependency?
  {
    hide ItemIds;
    if n > 0 {
      DependencyProblemKind(items, n - 1);
      var unknown := UnknownDependencies(items, items[n - 1]);
      if unknown != {} {
        assert UnknownBehind(items, n - 1, UnknownDependency(items[n - 1].itemId, unknown));
      } else {
        forall d | d in items[n - 1].dependencies ensures d in ItemIds(items) {
          assert d !in unknown;
        }
      }
    }
  }

  /** The problem names item `i` and exactly those of its dependencies that name no item. */
  ghost predicate UnknownBehind(items: seq<Item>, i: nat, problem: ItemProblem) {
    && i < |items| && problem.UnknownDependency? && problem.itemId == items[i].itemId
    && problem.unknown != {} && forall d :: d in problem.unknown <==> d in items[i].dependencies && d !in ItemIds(items)
  }

  ghost predicate NoneUnknown(items: seq<Item>, n: nat) {
    forall i, d :: 0 <= i < n && i < |items| && d in items[i].dependencies ==> d in ItemIds(items)
  }

  /** Dependencies are looked at last, and the first item with an unknown one is reported, with all its unknown ones. */
  lemma UnknownDependencyIsFirst(items: seq<Item>)
    requires FirstProblem(items).Some? && FirstProblem(items).value.UnknownDependency?
    ensures FineBefore(items, |items|, 0)
    ensures exists i :: 0 <= i < |items| && UnknownBehind(items, i, FirstProblem(items).value) && NoneUnknown(items, i)
  {
    var n, k := ItemsProblemMeans(items, |items|);
    if ItemsProblem(items, |items|).Some? {
      if !ItemsProblem(items, |items|).value.DuplicateItem? {
        MoveProblemIsNoDuplicateItem(items, n, k, ItemsProblem(items, |items|).value);
      }
      assert false;
    }
    DependencyProblemKind(items, |items|);
  }

  // ---------------------------------------------------------------- blank subjects

  /** White space, by code point. */
  const WHITE_SPACE: set<int> := {
    0x09, 0x0A, 0x0B, 0x0C, 0x0D, 0x1C, 0x1D, 0x1E, 0x1F, 0x20, 0x85, 0xA0, 0x1680, 0x2000, 0x2001, 0x2002, 0x2003,
    0x2004, 0x2005, 0x2006, 0x2007, 0x2008, 0x2009, 0x200A, 0x2028, 0x2029, 0x202F, 0x205F, 0x3000
  }

  lemma BlankMeans(text: string)
    ensures Blank(text) <==> !exists c :: c in text && c as int !in WHITE_SPACE
  {
  }
}
