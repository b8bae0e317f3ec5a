/** What the completion kernel guarantees of its plans, its cut and its fence. */
module CompletionLaws {
  import opened Outcomes
  import opened Sequences
  import opened CartesianProduct
  import opened Ordering
  import opened Completion
  import opened CompletionKernel

  // ---------------------------------------------------------------- keys and ids

  lemma ItemKeysTellApart(items: seq<Item>)
    requires UniqueItems(items)
    ensures TellsApart(ItemKey, items)
  {
    forall x, y | x in items && y in items && ItemKey(x) == ItemKey(y) ensures x == y {
      assert ItemKey(x)[0] == ItemKey(y)[0];
      CodesInjective(x.itemId, y.itemId);
      SameItem(items, x, y);
    }
  }

  lemma SameItem(items: seq<Item>, x: Item, y: Item)
    requires UniqueItems(items) && x in items && y in items && x.itemId == y.itemId
    ensures x == y
  {
    var i :| 0 <= i < |items| && items[i] == x;
    var j :| 0 <= j < |items| && items[j] == y;
  }

  lemma {:induction false} FindExact(items: seq<Item>, id: string)
    requires UniqueItems(items)
    ensures Find(items, id).None? ==> forall x :: x in items ==> x.itemId != id
    ensures Find(items, id).Some? ==> Find(items, id).value in items && Find(items, id).value.itemId == id
  {
    if items != [] && items[|items| - 1].itemId != id {
      FindExact(items[..|items| - 1], id);
    }
  }

  lemma FindThis(items: seq<Item>, x: Item)
    requires UniqueItems(items) && x in items
    ensures Find(items, x.itemId) == Some(x)
  {
    FindExact(items, x.itemId);
    SameItem(items, x, Find(items, x.itemId).value);
  }

  /** Two moves of one id are the same move of the same item. */
  lemma SameMove(items: seq<Item>, x: Item, m: Move, y: Item, n: Move)
    requires ValidItems(items) && x in items && y in items && m in x.moves && n in y.moves && m.moveId == n.moveId
    ensures x == y && m == n
  {
    hide FlatMap;
    var i :| 0 <= i < |items| && items[i] == x;
    var j :| 0 <= j < |items| && items[j] == y;
    var k :| 0 <= k < |x.moves| && x.moves[k] == m;
    var l :| 0 <= l < |y.moves| && y.moves[l] == n;
    assert MoveIds(x)[k] == m.moveId && MoveIds(y)[l] == n.moveId;
    if i < j {
      TwoPlaces(items, i, j, m.moveId);
    } else if j < i {
      TwoPlaces(items, j, i, m.moveId);
    } else {
      PieceNoDup(items, i);
      assert MoveIds(x)[k] == MoveIds(x)[l];
    }
  }

  lemma PieceNoDup(items: seq<Item>, i: nat)
    requires i < |items| && NoDup(AllMoveIds(items))
    ensures NoDup(MoveIds(items[i]))
  {
    hide FlatMap;
    hide MoveIds;
    var after := FlatMapSplit(MoveIds, items, i);
    var before, piece := FlatMap(MoveIds, items[..i]), MoveIds(items[i]);
    forall a, b | 0 <= a < b < |piece| ensures piece[a] != piece[b] {
      assert AllMoveIds(items)[|before| + a] == piece[a] && AllMoveIds(items)[|before| + b] == piece[b];
    }
  }

  lemma TwoPlaces(items: seq<Item>, i: nat, j: nat, id: string)
    requires i < j < |items| && id in MoveIds(items[i]) && id in MoveIds(items[j])
    ensures !NoDup(AllMoveIds(items))
  {
    hide FlatMap;
    hide MoveIds;
    var after := FlatMapSplit(MoveIds, items, j);
    var before := FlatMap(MoveIds, items[..j]);
    FlatMapTarget(MoveIds, items[..j], i, id);
    var a :| 0 <= a < |before| && before[a] == id;
    var b :| 0 <= b < |MoveIds(items[j])| && MoveIds(items[j])[b] == id;
    assert AllMoveIds(items)[a] == id && AllMoveIds(items)[|before| + b] == id;
  }

  lemma UnresolvedMembers(items: seq<Item>)
    ensures forall x :: x in Unresolved(items) <==> x in items && Pending(x)
  {
    SortByMembers(ItemKey, items);
  }

  lemma ActionableMembers(items: seq<Item>)
    ensures forall x :: x in Actionable(items) <==>
              x in items && Pending(x) && Ready(items, x) && ReversibleMoves(x) != []
  {
    UnresolvedMembers(items);
    assert forall x :: IsActionable(items)(x) == (Ready(items, x) && ReversibleMoves(x) != []);
  }

  lemma UniqueMeansNoDup(items: seq<Item>)
    requires UniqueItems(items)
    ensures NoDup(items)
  {
  }

  lemma ActionableNoDup(items: seq<Item>)
    requires UniqueItems(items)
    ensures NoDup(Actionable(items)) && NoDup(Map(IdOf, Actionable(items)))
  {
    hide SortBy;
    hide Filter;
    UniqueMeansNoDup(items);
    SortBySorts(ItemKey, items);
    PermutationNoDup(items, Source(items));
    FilterNoDup(Pending, Source(items));
    FilterNoDup(IsActionable(items), Unresolved(items));
    ActionableMembers(items);
    forall x, y | x in Actionable(items) && y in Actionable(items) && IdOf(x) == IdOf(y) ensures x == y {
      SameItem(items, x, y);
    }
    MapNoDup(IdOf, Actionable(items));
  }

  // ---------------------------------------------------------------- choices

  /** One lawful move of each actionable item. */
  ghost predicate OneLawfulMoveEach(items: seq<Item>, choice: seq<Move>) {
    && |choice| == |Actionable(items)|
    && forall i :: 0 <= i < |choice| ==> LawfulMoveOf(Actionable(items)[i], choice[i])
  }

  ghost predicate LawfulMoveOf(item: Item, move: Move) {
    move in item.moves && move.reversible && !move.requiresAuthority && move.kind != Do
  }

  lemma ReversibleMovesMembers(item: Item)
    ensures forall m :: m in ReversibleMoves(item) <==> LawfulMoveOf(item, m)
  {
    SortByMembers(MoveKey, Filter(Lawful, item.moves));
  }

  /** The product of the move sets lists exactly those choices. */
  lemma ChoicesExact(items: seq<Item>, choice: seq<Move>)
    ensures choice in Product(MoveSets(items)) <==> OneLawfulMoveEach(items, choice)
  {
    hide ReversibleMoves;
    hide Actionable;
    ProductExact(MoveSets(items), choice);
    forall i | 0 <= i < |Actionable(items)| && |choice| == |Actionable(items)|
      ensures choice[i] in MoveSets(items)[i] <==> LawfulMoveOf(Actionable(items)[i], choice[i])
    {
      ReversibleMovesMembers(Actionable(items)[i]);
    }
  }

  // ---------------------------------------------------------------- costs

  lemma {:induction false} CostAppend(a: seq<Move>, m: Move)
    ensures Cost(a + [m]) == Cost(a) + m.cost
  {
    assert (a + [m])[..|a|] == a;
  }

  lemma {:induction false} InsertCost(key: Move -> Key, s: seq<Move>, m: Move)
    ensures Cost(Insert(key, s, m)) == Cost(s) + m.cost
  {
    if s == [] || KeyLeq(key(s[|s| - 1]), key(m)) {
      CostAppend(s, m);
    } else {
      InsertCost(key, s[..|s| - 1], m);
      CostAppend(Insert(key, s[..|s| - 1], m), s[|s| - 1]);
    }
  }

  lemma {:induction false} SortCost(key: Move -> Key, s: seq<Move>)
    ensures Cost(SortBy(key, s)) == Cost(s)
  {
    if s != [] {
      SortCost(key, s[..|s| - 1]);
      InsertCost(key, SortBy(key, s[..|s| - 1]), s[|s| - 1]);
    }
  }

  lemma PlanCost(choice: seq<Move>)
    ensures PlanOf(choice).totalCost == Cost(choice)
  {
    SortCost(MoveIdKey, choice);
  }

  /** The least cost among some moves. */
  function MinCost(moves: seq<Move>): (least: int)
    requires moves != []
    ensures forall m :: m in moves ==> least <= m.cost
    ensures exists m :: m in moves && m.cost == least
  {
    var last := moves[|moves| - 1];
    if |moves| == 1 then
      assert moves == [last];
      last.cost
    else
      var front := MinCost(moves[..|moves| - 1]);
      FrontAndLast(moves);
      if front <= last.cost then front else last.cost
  }

  /** The sum of the items' cheapest moves. */
  function SumOfMinima(sets: seq<seq<Move>>): int
    requires NoneEmpty(sets)
  {
    if sets == [] then 0 else SumOfMinima(sets[..|sets| - 1]) + MinCost(sets[|sets| - 1])
  }

  lemma {:induction false} NoChoiceIsCheaper(sets: seq<seq<Move>>, choice: seq<Move>)
    requires NoneEmpty(sets) && IsChoice(choice, sets)
    ensures SumOfMinima(sets) <= Cost(choice)
  {
    if sets != [] {
      NoChoiceIsCheaper(sets[..|sets| - 1], choice[..|choice| - 1]);
      assert choice[|choice| - 1] in sets[|sets| - 1];
    }
  }

  ghost predicate CheapestFirst(sets: seq<seq<Move>>) {
    forall i :: 0 <= i < |sets| ==> sets[i] != [] && sets[i][0].cost == MinCost(sets[i])
  }

  /** The first enumerated choice takes the first move of every set. */
  lemma {:induction false} FirstChoiceIsCheapest(sets: seq<seq<Move>>)
    requires CheapestFirst(sets) && NoneEmpty(sets)
    ensures Cost(Decode(sets, 0)) == SumOfMinima(sets)
  {
    if sets != [] {
      var front, last := sets[..|sets| - 1], sets[|sets| - 1];
      assert CheapestFirst(front);
      FirstChoiceIsCheapest(front);
      CostAppend(Decode(front, 0), last[0]);
      assert 0 / |last| == 0 && 0 % |last| == 0;
    }
  }

  lemma KeyHeadLeq(a: Key, b: Key, x: int, y: int)
    requires |a| > 0 && |b| > 0 && a[0] == [x] && b[0] == [y] && KeyLeq(a, b)
    ensures x <= y
  {
    assert WordLeq([x], [y], 0) ==> x <= y;
  }

  /** Sorting by cost first puts a cheapest move first. */
  lemma MoveSetsCheapestFirst(items: seq<Item>)
    ensures NoneEmpty(MoveSets(items)) && CheapestFirst(MoveSets(items))
  {
    hide SortBy;
    hide KeyLeq;
    forall i | 0 <= i < |Actionable(items)|
      ensures MoveSets(items)[i] != [] && MoveSets(items)[i][0].cost == MinCost(MoveSets(items)[i])
    {
      var item := Actionable(items)[i];
      assert item in Actionable(items);
      ActionableMembers(items);
      CheapestMoveFirst(item);
    }
  }

  lemma CheapestMoveFirst(item: Item)
    requires ReversibleMoves(item) != []
    ensures ReversibleMoves(item)[0].cost == MinCost(ReversibleMoves(item))
  {
    hide SortBy;
    hide KeyLeq;
    var moves := ReversibleMoves(item);
    SortBySorts(MoveKey, Filter(Lawful, item.moves));
    var least := MinCost(moves);
    var m :| m in moves && m.cost == least;
    SortedFirst(MoveKey, moves, m);
    KeyHeadLeq(MoveKey(moves[0]), MoveKey(m), moves[0].cost, m.cost);
  }

  // ---------------------------------------------------------------- enumeration

  lemma EnumeratedLength(items: seq<Item>, maxPlans: nat)
    ensures |Enumerated(items, maxPlans)| ==
            if Actionable(items) == [] then 0
            else if Cardinality(MoveSets(items)) <= maxPlans then Cardinality(MoveSets(items)) else maxPlans
  {
    ProductLength(MoveSets(items));
  }

  lemma EnumeratedLawful(items: seq<Item>, maxPlans: nat, choice: seq<Move>)
    requires choice in Enumerated(items, maxPlans)
    ensures OneLawfulMoveEach(items, choice) && Actionable(items) != []
  {
    ChoicesExact(items, choice);
  }

  /** Which choice a plan of the frontier comes from. */
  lemma PlanSource(items: seq<Item>, maxPlans: nat, plan: Plan) returns (choice: seq<Move>)
    requires plan in Plans(items, maxPlans)
    ensures choice in Enumerated(items, maxPlans) && plan == PlanOf(choice)
  {
    hide SortBy;
    hide PlanOf;
    hide Enumerated;
    SortByMembers(PlanKey, Map(PlanOf, Enumerated(items, maxPlans)));
    var i :| 0 <= i < |Enumerated(items, maxPlans)| && Map(PlanOf, Enumerated(items, maxPlans))[i] == plan;
    choice := Enumerated(items, maxPlans)[i];
  }

  /** The moves a plan names, each with its item. */
  lemma PlanMoves(items: seq<Item>, choice: seq<Move>)
    requires ValidItems(items) && OneLawfulMoveEach(items, choice)
    ensures var plan := PlanOf(choice); var canonical := SortBy(MoveIdKey, choice);
            && |plan.moveIds| == |plan.itemIds| == |canonical| == |choice|
            && forall k :: 0 <= k < |canonical| ==>
                 && canonical[k] in choice && plan.moveIds[k] == canonical[k].moveId
                 && plan.itemIds[k] == canonical[k].itemId
  {
    SortBySorts(MoveIdKey, choice);
    SortByMembers(MoveIdKey, choice);
  }

  /** In valid items a chosen move belongs to the item it names. */
  lemma ChosenMoveOwner(items: seq<Item>, choice: seq<Move>, i: nat)
    requires ValidItems(items) && OneLawfulMoveEach(items, choice) && i < |choice|
    ensures var item := Actionable(items)[i];
            item in items && item in Actionable(items) && choice[i].itemId == item.itemId && choice[i] in item.moves
  {
    var item := Actionable(items)[i];
    assert item in Actionable(items);
    ActionableMembers(items);
    assert LawfulMoveOf(item, choice[i]);
    var n :| 0 <= n < |items| && items[n] == item;
    var k :| 0 <= k < |item.moves| && item.moves[k] == choice[i];
    assert OwnMoves(items[n]) && OwnMove(items[n], items[n].moves[k]);
  }

  lemma ChosenItemIds(items: seq<Item>, choice: seq<Move>)
    requires ValidItems(items) && OneLawfulMoveEach(items, choice)
    ensures Map(ItemIdOf, choice) == Map(IdOf, Actionable(items))
  {
    forall i | 0 <= i < |choice| ensures Map(ItemIdOf, choice)[i] == Map(IdOf, Actionable(items))[i] {
      ChosenMoveOwner(items, choice, i);
    }
  }

  lemma MapConcat<A, B>(f: A -> B, a: seq<A>, b: seq<A>)
    ensures Map(f, a + b) == Map(f, a) + Map(f, b)
  {
  }

  lemma WithoutOne<T>(s: seq<T>, x: T) returns (before: seq<T>, after: seq<T>)
    requires x in multiset(s)
    ensures s == before + [x] + after && multiset(before + after) == multiset(s) - multiset{x}
  {
    InMultiset(s, x);
    var i :| 0 <= i < |s| && s[i] == x;
    before, after := s[..i], s[i + 1..];
    assert s == before + [x] + after;
  }

  lemma {:induction false} MapMultiset<A, B>(f: A -> B, a: seq<A>, b: seq<A>)
    requires multiset(a) == multiset(b)
    ensures multiset(Map(f, a)) == multiset(Map(f, b))
    decreases |a|
  {
    hide Map;
    if a == [] {
      assert |multiset(b)| == |b|;
    } else {
      var front, x := a[..|a| - 1], a[|a| - 1];
      FrontMultiset(a);
      FrontAndLast(a);
      var before, after := WithoutOne(b, x);
      MapMultiset(f, front, before + after);
      MapConcat(f, front, [x]);
      MapConcat(f, before, after);
      MapConcat(f, before, [x]);
      MapConcat(f, before + [x], after);
    }
  }

  /** Each plan covers exactly the actionable items, each once. */
  lemma PlanCoversActionable(items: seq<Item>, choice: seq<Move>)
    requires ValidItems(items) && OneLawfulMoveEach(items, choice)
    ensures multiset(PlanOf(choice).itemIds) == multiset(Map(IdOf, Actionable(items)))
    ensures NoDup(PlanOf(choice).itemIds)
  {
    hide SortBy;
    hide Actionable;
    SortBySorts(MoveIdKey, choice);
    MapMultiset(ItemIdOf, SortBy(MoveIdKey, choice), choice);
    ChosenItemIds(items, choice);
    ActionableNoDup(items);
    PermutationNoDup(Map(IdOf, Actionable(items)), PlanOf(choice).itemIds);
  }

  /** Different choices make different plans. */
  lemma PlanOfInjective(items: seq<Item>, a: seq<Move>, b: seq<Move>)
    requires ValidItems(items) && OneLawfulMoveEach(items, a) && OneLawfulMoveEach(items, b)
    requires PlanOf(a).moveIds == PlanOf(b).moveIds
    ensures a == b
  {
    hide SortBy;
    hide Actionable;
    PlanMoves(items, a);
    PlanMoves(items, b);
    SortByMembers(MoveIdKey, a);
    forall i | 0 <= i < |a| ensures a[i] == b[i] {
      var ca, cb := SortBy(MoveIdKey, a), SortBy(MoveIdKey, b);
      assert a[i] in ca;
      var k :| 0 <= k < |ca| && ca[k] == a[i];
      assert PlanOf(a).moveIds[k] == PlanOf(b).moveIds[k];
      var j :| 0 <= j < |b| && b[j] == cb[k];
      ChosenMoveOwner(items, a, i);
      ChosenMoveOwner(items, b, j);
      SameMove(items, Actionable(items)[i], a[i], Actionable(items)[j], b[j]);
      ActionableNoDup(items);
      assert i == j;
    }
  }

  // ---------------------------------------------------------------- main results

  /**
   Completion enumeration: there are as many plans as lawful choices, up to the bound, and none
   when nothing is actionable; they are pairwise distinct.
   */
  lemma PlansCounted(items: seq<Item>, maxPlans: nat)
    requires ValidItems(items)
    ensures |Plans(items, maxPlans)| ==
            if Actionable(items) == [] then 0
            else if Cardinality(MoveSets(items)) <= maxPlans then Cardinality(MoveSets(items)) else maxPlans
    ensures NoDup(Plans(items, maxPlans))
  {
    hide SortBy;
    hide Enumerated;
    hide PlanOf;
    var choices := Enumerated(items, maxPlans);
    EnumeratedLength(items, maxPlans);
    SortBySorts(PlanKey, Map(PlanOf, choices));
    EnumeratedNoDup(items, maxPlans);
    forall a, b | a in choices && b in choices && PlanOf(a) == PlanOf(b) ensures a == b {
      EnumeratedLawful(items, maxPlans, a);
      EnumeratedLawful(items, maxPlans, b);
      PlanOfInjective(items, a, b);
    }
    MapNoDup(PlanOf, choices);
    PermutationNoDup(Map(PlanOf, choices), Plans(items, maxPlans));
  }

  lemma EnumeratedNoDup(items: seq<Item>, maxPlans: nat)
    requires ValidItems(items)
    ensures NoDup(Enumerated(items, maxPlans))
  {
    hide ReversibleMoves;
    hide Product;
    forall f | f in MoveSets(items) ensures NoDup(f) {
      var i :| 0 <= i < |Actionable(items)| && MoveSets(items)[i] == f;
      assert Actionable(items)[i] in Actionable(items);
      ActionableMembers(items);
      MovesNoDup(items, Actionable(items)[i]);
    }
    ProductNoDup(MoveSets(items));
    NoDupPrefix(Product(MoveSets(items)), |Combinations.Slice(Product(MoveSets(items)), maxPlans)|);
  }

  lemma MovesNoDup(items: seq<Item>, item: Item)
    requires ValidItems(items) && item in items
    ensures NoDup(ReversibleMoves(item))
  {
    hide SortBy;
    var n :| 0 <= n < |items| && items[n] == item;
    PieceNoDup(items, n);
    forall i, j | 0 <= i < j < |item.moves| ensures item.moves[i] != item.moves[j] {
      assert MoveIds(item)[i] != MoveIds(item)[j];
    }
    FilterNoDup(Lawful, item.moves);
    SortBySorts(MoveKey, Filter(Lawful, item.moves));
    PermutationNoDup(Filter(Lawful, item.moves), ReversibleMoves(item));
  }

  /** Every plan takes one reversible, authority-free, non-DO move of exactly each actionable item. */
  lemma PlansAreLawful(items: seq<Item>, maxPlans: nat, plan: Plan)
    requires ValidItems(items) && plan in Plans(items, maxPlans)
    ensures |plan.moveIds| == |plan.itemIds| && NoDup(plan.itemIds)
    ensures multiset(plan.itemIds) == multiset(Map(IdOf, Actionable(items)))
    ensures exists choice :: OneLawfulMoveEach(items, choice) && plan == PlanOf(choice)
  {
    var choice := PlanSource(items, maxPlans, plan);
    EnumeratedLawful(items, maxPlans, choice);
    PlanMoves(items, choice);
    PlanCoversActionable(items, choice);
  }

  /**
   Optimality survives truncation: however few plans are enumerated, the first of them costs the
   sum of the per-item minima, and no choice of one lawful move per actionable item costs less.
   */
  lemma OptimalDespiteTruncation(items: seq<Item>, maxPlans: nat)
    requires ValidItems(items) && maxPlans >= 1 && Actionable(items) != []
    ensures Plans(items, maxPlans) != [] && NoneEmpty(MoveSets(items))
    ensures Plans(items, maxPlans)[0].totalCost == SumOfMinima(MoveSets(items))
    ensures forall choice :: OneLawfulMoveEach(items, choice) ==> Plans(items, maxPlans)[0].totalCost <= Cost(choice)
  {
    hide SortBy;
    hide MoveSets;
    hide PlanOf;
    var sets, plans := MoveSets(items), Plans(items, maxPlans);
    MoveSetsCheapestFirst(items);
    FirstPlanAtMost(items, maxPlans);
    var source := PlanSource(items, maxPlans, plans[0]);
    EnumeratedLawful(items, maxPlans, source);
    PlanCost(source);
    forall choice | OneLawfulMoveEach(items, choice) ensures SumOfMinima(sets) <= Cost(choice) {
      ChoicesExact(items, choice);
      ProductExact(sets, choice);
      NoChoiceIsCheaper(sets, choice);
    }
  }

  /** The enumeration starts with a cheapest choice, so sorting leaves nothing dearer in front. */
  lemma FirstPlanAtMost(items: seq<Item>, maxPlans: nat)
    requires maxPlans >= 1 && Actionable(items) != []
    ensures Plans(items, maxPlans) != [] && NoneEmpty(MoveSets(items))
    ensures Plans(items, maxPlans)[0].totalCost <= SumOfMinima(MoveSets(items))
  {
    hide SortBy;
    hide MoveSets;
    hide PlanOf;
    hide KeyLeq;
    var sets, choices := MoveSets(items), Enumerated(items, maxPlans);
    MoveSetsCheapestFirst(items);
    CardinalityPositive(sets);
    ProductIsMixedRadix(sets, 0);
    FirstChoiceIsCheapest(sets);
    var cheapest := Map(PlanOf, choices)[0];
    PlanCost(choices[0]);
    SortBySorts(PlanKey, Map(PlanOf, choices));
    SortByMembers(PlanKey, Map(PlanOf, choices));
    var plans := Plans(items, maxPlans);
    assert cheapest in plans;
    SortedFirst(PlanKey, plans, cheapest);
    KeyHeadLeq(PlanKey(plans[0]), PlanKey(cheapest), plans[0].totalCost, cheapest.totalCost);
  }

  /** Unresolved items none of which is actionable are blocked ones. */
  lemma BlockedWhenStuck(items: seq<Item>)
    requires Unresolved(items) != [] && Actionable(items) == []
    ensures BlockedIds(items) != []
  {
    hide SortBy;
    hide ReversibleMoves;
    hide Ready;
    var x := Unresolved(items)[0];
    assert x in Unresolved(items);
    assert x !in Actionable(items);
    assert x in Filter(IsBlocked(items), Unresolved(items));
    SortBySorts(IdKey, Map(IdOf, Filter(IsBlocked(items), Unresolved(items))));
  }

  /** `NO_REVERSIBLE_COMPLETION_PLAN` is never reached. */
  lemma AlwaysAPlanWhenUnblocked(subject: string, items: seq<Item>, maxPlans: nat)
    requires ValidItems(items) && maxPlans >= 1
    ensures SelectCut(FrontierOf(subject, items, maxPlans)).reason != NoReversibleCompletionPlan
    ensures Actionable(items) != [] <==> SelectCut(FrontierOf(subject, items, maxPlans)).selected.Some?
  {
    hide SortBy;
    hide Filter;
    hide Plans;
    hide MoveSets;
    hide ValidItems;
    PlansCounted(items, maxPlans);
    if Actionable(items) != [] {
      MoveSetsCheapestFirst(items);
      CardinalityPositive(MoveSets(items));
    } else if Unresolved(items) != [] {
      BlockedWhenStuck(items);
    }
  }

  lemma FindMoveThis(item: Item, items: seq<Item>, m: Move)
    requires ValidItems(items) && item in items && m in item.moves
    ensures FindMove(item.moves, m.moveId) == Some(m)
  {
    var found := FindMove(item.moves, m.moveId);
    SameMove(items, item, found.value, item, m);
  }

  /** The fence lets every lawful chosen move through, at its own cost. */
  lemma CheckChosen(items: seq<Item>, choice: seq<Move>, m: Move)
    requires ValidItems(items) && OneLawfulMoveEach(items, choice) && m in choice
    ensures CheckMove(items, m.itemId, m.moveId) == Success(m.cost)
  {
    var i :| 0 <= i < |choice| && choice[i] == m;
    var item := Actionable(items)[i];
    ChosenMoveOwner(items, choice, i);
    FindThis(items, item);
    FindMoveThis(item, items, m);
    assert LawfulMoveOf(item, choice[i]);
  }

  lemma {:induction false} CheckPlan(items: seq<Item>, choice: seq<Move>, n: nat)
    requires ValidItems(items) && OneLawfulMoveEach(items, choice) && n <= |choice|
    ensures var plan := PlanOf(choice); var canonical := SortBy(MoveIdKey, choice);
            && |plan.moveIds| == |plan.itemIds| == |canonical| == |choice|
            && CheckMoves(items, plan, n) == Success(Cost(canonical[..n]))
  {
    hide SortBy;
    hide CheckMove;
    hide OneLawfulMoveEach;
    hide ValidItems;
    var canonical := SortBy(MoveIdKey, choice);
    PlanMoves(items, choice);
    if n != 0 {
      CheckPlan(items, choice, n - 1);
      CheckChosen(items, choice, canonical[n - 1]);
      CostAppend(canonical[..n - 1], canonical[n - 1]);
      assert canonical[..n] == canonical[..n - 1] + [canonical[n - 1]];
    }
  }

  /** The pipeline never refuses its own cut: what is selected from valid items is admitted. */
  lemma OwnCutIsAdmitted(subject: string, items: seq<Item>, maxPlans: nat)
    requires ValidItems(items) && maxPlans >= 1
    ensures var cut := SelectCut(FrontierOf(subject, items, maxPlans));
            cut.selected.Some? || cut.standing.Alive? ==> Admission(cut, items) == Success(cut)
  {
    hide SortBy;
    hide CheckMoves;
    hide ValidItems;
    hide Ready;
    hide Filter;
    hide BlockedIds;
    hide TotalCardinality;
    var cut := SelectCut(FrontierOf(subject, items, maxPlans));
    if cut.selected.Some? {
      var plan := cut.selected.value;
      assert plan in Plans(items, maxPlans);
      var choice := PlanSource(items, maxPlans, plan);
      EnumeratedLawful(items, maxPlans, choice);
      CheckPlan(items, choice, |choice|);
      assert SortBy(MoveIdKey, choice)[..|choice|] == SortBy(MoveIdKey, choice);
      PlanCoversActionable(items, choice);
    }
  }

  // ---------------------------------------------------------------- the order of the items

  lemma {:induction false} InsertMoveIds(items: seq<Item>, x: Item)
    ensures multiset(FlatMap(MoveIds, Insert(ItemKey, items, x))) == multiset(FlatMap(MoveIds, items)) + multiset(MoveIds(x))
  {
    if items == [] || KeyLeq(ItemKey(items[|items| - 1]), ItemKey(x)) {
      FlatMapSnoc(MoveIds, items, x);
    } else {
      var front, last := items[..|items| - 1], items[|items| - 1];
      InsertMoveIds(front, x);
      FlatMapSnoc(MoveIds, Insert(ItemKey, front, x), last);
    }
  }

  lemma {:induction false} SourceMoveIds(items: seq<Item>)
    ensures multiset(AllMoveIds(Source(items))) == multiset(AllMoveIds(items))
  {
    if items != [] {
      SourceMoveIds(items[..|items| - 1]);
      InsertMoveIds(Source(items[..|items| - 1]), items[|items| - 1]);
    }
  }

  lemma PermutedItemsValid(a: seq<Item>, b: seq<Item>)
    requires ValidItems(a) && multiset(a) == multiset(b)
    ensures ValidItems(b) && Source(a) == Source(b)
  {
    hide SortBy;
    hide FlatMap;
    ItemKeysTellApart(a);
    SortForgetsOrder(ItemKey, a, b);
    SourceMoveIds(a);
    SourceMoveIds(b);
    PermutationNoDup(AllMoveIds(a), AllMoveIds(b));
    SameMembers(a, b);
    UniqueMeansNoDup(a);
    PermutationNoDup(a, b);
    forall i, j | 0 <= i < j < |b| ensures b[i].itemId != b[j].itemId {
      assert b[i] in b && b[j] in b && b[i] != b[j];
      if b[i].itemId == b[j].itemId {
        SameItem(a, b[i], b[j]);
      }
    }
    forall i | 0 <= i < |b| ensures OwnMoves(b[i]) {
      assert b[i] in b;
      var k :| 0 <= k < |a| && a[k] == b[i];
    }
    forall i, d | 0 <= i < |b| && d in b[i].dependencies ensures d in ItemIds(b) {
      assert b[i] in b;
      var k :| 0 <= k < |a| && a[k] == b[i];
      assert d in ItemIds(a);
      var n :| 0 <= n < |a| && a[n].itemId == d;
      assert a[n] in a;
      var m :| 0 <= m < |b| && b[m] == a[n];
    }
  }

  lemma SameMembers<T>(a: seq<T>, b: seq<T>)
    requires multiset(a) == multiset(b)
    ensures forall x :: x in a <==> x in b
  {
    forall x ensures x in a <==> x in b {
      InMultiset(a, x);
      InMultiset(b, x);
    }
  }

  lemma FindForgetsOrder(a: seq<Item>, b: seq<Item>, id: string)
    requires UniqueItems(a) && UniqueItems(b) && multiset(a) == multiset(b)
    ensures Find(a, id) == Find(b, id)
  {
    SameMembers(a, b);
    FindExact(a, id);
    FindExact(b, id);
    if Find(a, id).Some? && Find(b, id).Some? {
      SameItem(a, Find(a, id).value, Find(b, id).value);
    }
  }

  lemma {:induction false} CheckForgetsOrder(a: seq<Item>, b: seq<Item>, plan: Plan, n: nat)
    requires UniqueItems(a) && UniqueItems(b) && multiset(a) == multiset(b)
    requires n <= |plan.itemIds| && n <= |plan.moveIds|
    ensures CheckMoves(a, plan, n) == CheckMoves(b, plan, n)
  {
    if n != 0 {
      CheckForgetsOrder(a, b, plan, n - 1);
      FindForgetsOrder(a, b, plan.itemIds[n - 1]);
    }
  }

  /** Admission of any cut, tampered with or not, ignores the order of valid items. */
  lemma AdmissionForgetsOrder(cut: Cut, a: seq<Item>, b: seq<Item>)
    requires ValidItems(a) && multiset(a) == multiset(b)
    ensures ValidItems(b) && Admission(cut, a) == Admission(cut, b)
  {
    hide CheckMoves;
    hide Source;
    PermutedItemsValid(a, b);
    if cut.selected.Some? {
      CheckForgetsOrder(a, b, cut.selected.value, Shorter(cut.selected.value));
    }
  }

  lemma ActionableForgetsOrder(a: seq<Item>, b: seq<Item>)
    requires ValidItems(a) && multiset(a) == multiset(b)
    ensures ValidItems(b) && Source(a) == Source(b) && Actionable(a) == Actionable(b) && BlockedIds(a) == BlockedIds(b)
  {
    hide SortBy;
    PermutedItemsValid(a, b);
    hide Find;
    forall item ensures IsActionable(a)(item) == IsActionable(b)(item) && IsBlocked(a)(item) == IsBlocked(b)(item) {
      forall d | d in item.dependencies ensures Find(a, d) == Find(b, d) {
        FindForgetsOrder(a, b, d);
      }
    }
    FilterAgrees(IsActionable(a), IsActionable(b), Unresolved(a));
    FilterAgrees(IsBlocked(a), IsBlocked(b), Unresolved(a));
  }

  /** The whole pipeline ignores the order of valid items: they have one frontier, plans and digest included, and one cut. */
  lemma FrontierForgetsOrder(subject: string, a: seq<Item>, b: seq<Item>, maxPlans: nat)
    requires ValidItems(a) && multiset(a) == multiset(b)
    ensures ValidItems(b) && FrontierOf(subject, a, maxPlans) == FrontierOf(subject, b, maxPlans)
    ensures SelectCut(FrontierOf(subject, a, maxPlans)) == SelectCut(FrontierOf(subject, b, maxPlans))
  {
    ActionableForgetsOrder(a, b);
    hide Actionable;
    hide BlockedIds;
    hide Source;
  }

  ghost predicate NamesMove(items: seq<Item>, itemId: string, moveId: string, m: Move) {
    exists item :: item in items && item.itemId == itemId && LawfulMoveOf(item, m) && m.moveId == moveId
  }

  /** `moves` are the lawful moves the plan names, each on the item it names. */
  ghost predicate NamesMoves(items: seq<Item>, plan: Plan, moves: seq<Move>) {
    && |plan.itemIds| == |plan.moveIds| == |moves|
    && forall k :: 0 <= k < |moves| ==> NamesMove(items, plan.itemIds[k], plan.moveIds[k], moves[k])
  }

  lemma CheckMoveIff(items: seq<Item>, itemId: string, moveId: string, m: Move)
    requires ValidItems(items)
    ensures NamesMove(items, itemId, moveId, m) ==> CheckMove(items, itemId, moveId) == Success(m.cost)
  {
    if NamesMove(items, itemId, moveId, m) {
      var item :| item in items && item.itemId == itemId && LawfulMoveOf(item, m) && m.moveId == moveId;
      FindThis(items, item);
      FindMoveThis(item, items, m);
    }
  }

  lemma CheckedMove(items: seq<Item>, itemId: string, moveId: string) returns (m: Move)
    requires UniqueItems(items) && CheckMove(items, itemId, moveId).Success?
    ensures NamesMove(items, itemId, moveId, m) && m.cost == CheckMove(items, itemId, moveId).value
  {
    FindExact(items, itemId);
    var item := Find(items, itemId).value;
    m := FindMove(item.moves, moveId).value;
    assert LawfulMoveOf(item, m);
  }

  /** The moves the fence let through. */
  lemma {:induction false} CheckedMoves(items: seq<Item>, plan: Plan, n: nat) returns (moves: seq<Move>)
    requires UniqueItems(items) && n <= |plan.itemIds| && n <= |plan.moveIds| && CheckMoves(items, plan, n).Success?
    ensures |moves| == n && Cost(moves) == CheckMoves(items, plan, n).value
    ensures forall k :: 0 <= k < n ==> NamesMove(items, plan.itemIds[k], plan.moveIds[k], moves[k])
  {
    hide CheckMove;
    hide NamesMove;
    if n == 0 {
      moves := [];
    } else {
      var front := CheckedMoves(items, plan, n - 1);
      var last := CheckedMove(items, plan.itemIds[n - 1], plan.moveIds[n - 1]);
      CostAppend(front, last);
      moves := front + [last];
    }
  }

  lemma {:induction false} NamedMovesPass(items: seq<Item>, plan: Plan, moves: seq<Move>, n: nat)
    requires ValidItems(items) && NamesMoves(items, plan, moves) && n <= |moves|
    ensures CheckMoves(items, plan, n) == Success(Cost(moves[..n]))
  {
    hide CheckMove;
    hide ValidItems;
    if n > 0 {
      NamedMovesPass(items, plan, moves, n - 1);
      CheckMoveIff(items, plan.itemIds[n - 1], plan.moveIds[n - 1], moves[n - 1]);
      assert moves[..n] == moves[..n - 1] + [moves[n - 1]];
      CostAppend(moves[..n - 1], moves[n - 1]);
    }
  }

  /**
   The authority fence, exactly: a cut with a selection is admitted if and only if it was made from
   these very items, was not altered since, names no item twice, and names lawful moves on their own
   items whose costs add up to the cost it states. Who made the cut does not matter.
   */
  lemma FenceHolds(cut: Cut, items: seq<Item>)
    requires ValidItems(items) && cut.selected.Some?
    ensures var plan := cut.selected.value;
            Admission(cut, items).Success? <==>
            && Source(items) == cut.sourceDigest
            && cut.cutDigest == Some(CutPayload(cut.subjectRef, cut.sourceDigest, cut.frontierDigest, cut.standing,
                                                cut.selected, cut.reason))
            && NoDup(plan.itemIds)
            && exists moves :: NamesMoves(items, plan, moves) && Cost(moves) == plan.totalCost
  {
    hide Source;
    hide NamesMove;
    assert UniqueItems(items);
    hide ValidItems;
    hide UniqueItems;
    hide CheckMoves;
    var plan := cut.selected.value;
    if Admission(cut, items).Success? {
      var moves := CheckedMoves(items, plan, Shorter(plan));
      assert NamesMoves(items, plan, moves);
    }
    if moves :| NamesMoves(items, plan, moves) && Cost(moves) == plan.totalCost {
      NamedMovesPass(items, plan, moves, |moves|);
      assert moves[..|moves|] == moves;
    }
  }
}
