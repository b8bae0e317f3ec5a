/**
 The completion kernel (`src/gymact/dfcm_finish.py`): validation of work items, the bounded
 product of their lawful moves, the selected cut, and the fence that re-admits it. Digests are
 injective, so each is the value it is taken of.
 */
module Completion {
  import opened Outcomes
  import opened Sequences

  datatype Standing = Unknown | PartialAlive | Alive | Blocked | BuildBroken | Unsupported | Refused

  datatype MoveKind = Preserve | Inspect | Adapt | Compose | Construct | Verify | Publish | Do

  datatype Move = Move(
    moveId: string, itemId: string, kind: MoveKind, reversible: bool, cost: int,
    requiresAuthority: bool, evidenceRefs: seq<string>)

  datatype Item = Item(
    itemId: string, standing: Standing, dependencies: seq<string>, evidenceRefs: seq<string>,
    moves: seq<Move>)

  datatype Plan = Plan(moveIds: seq<string>, itemIds: seq<string>, totalCost: int)

  datatype FrontierPayload = FrontierPayload(
    subjectRef: string, source: seq<Item>, standing: Standing, unresolved: seq<string>,
    blocked: seq<string>, totalCardinality: nat, truncated: bool, plans: seq<Plan>)

  datatype Frontier = Frontier(
    subjectRef: string, standing: Standing, unresolvedItems: seq<string>, blockedItems: seq<string>,
    totalCardinality: nat, truncated: bool, plans: seq<Plan>, sourceDigest: seq<Item>,
    frontierDigest: FrontierPayload)

  datatype CutReason =
    | SubjectAlreadyAlive | BlockedItems(ids: seq<string>) | NoReversibleCompletionPlan
    | ReversibleCutSelected

  datatype CutPayload = CutPayload(
    subjectRef: string, source: seq<Item>, frontier: FrontierPayload, standing: Standing,
    selected: Option<Plan>, reason: CutReason)

  /** `cutDigest` is `None` while the cut is provisional. */
  datatype Cut = Cut(
    subjectRef: string, standing: Standing, selected: Option<Plan>, reason: CutReason,
    sourceDigest: seq<Item>, frontierDigest: FrontierPayload, cutDigest: Option<CutPayload>)

  datatype ItemProblem =
    | DuplicateItem(itemId: string)
    | MoveItemMismatch(moveId: string, claimed: string, itemId: string)
    | DuplicateMove(moveId: string)
    | NegativeCost(moveId: string, cost: int)
    | UnknownDependency(itemId: string, unknown: set<string>)

  datatype CompletionError =
    | EmptySubject | MaxPlansTooSmall | InvalidItems(problem: ItemProblem)
    | SourceIdentityMismatch | CutDigestMismatch | NoSelectedCut(reason: CutReason)
    | DuplicateSelectedItem | UnknownItem(itemId: string) | UnknownMove(itemId: string, moveId: string)
    | DoRequiresBrce(moveId: string) | IrreversibleMove(moveId: string) | AuthorityRequired(moveId: string)
    | UnevenSelection | SelectedCostMismatch(claimed: int, observed: int)

  // ---------------------------------------------------------------- validation

  ghost predicate UniqueItems(items: seq<Item>) {
    forall i, j :: 0 <= i < j < |items| ==> items[i].itemId != items[j].itemId
  }

  function MoveIds(item: Item): seq<string> {
    seq(|item.moves|, i requires 0 <= i < |item.moves| => item.moves[i].moveId)
  }

  function AllMoveIds(items: seq<Item>): seq<string> {
    FlatMap(MoveIds, items)
  }

  function ItemIds(items: seq<Item>): set<string> {
    set i | 0 <= i < |items| :: items[i].itemId
  }

  ghost predicate OwnMove(item: Item, move: Move) {
    move.itemId == item.itemId && move.cost >= 0
  }

  ghost predicate OwnMoves(item: Item) {
    forall k :: 0 <= k < |item.moves| ==> OwnMove(item, item.moves[k])
  }

  /** Ids name one item and one move each, moves belong to their item, costs and dependencies are sound. */
  ghost predicate ValidItems(items: seq<Item>) {
    && UniqueItems(items)
    && NoDup(AllMoveIds(items))
    && (forall i :: 0 <= i < |items| ==> OwnMoves(items[i]))
    && forall i, d :: 0 <= i < |items| && d in items[i].dependencies ==> d in ItemIds(items)
  }

  /** A problem that is there. */
  ghost predicate IsProblem(items: seq<Item>, problem: ItemProblem) {
    match problem
    case DuplicateItem(id) => exists i, j :: 0 <= i < j < |items| && items[i].itemId == id && items[j].itemId == id
    case MoveItemMismatch(m, claimed, id) =>
      exists i, k :: && 0 <= i < |items| && 0 <= k < |items[i].moves| && items[i].itemId == id
                     && items[i].moves[k].moveId == m && items[i].moves[k].itemId == claimed && claimed != id
    case DuplicateMove(m) => !NoDup(AllMoveIds(items)) && m in AllMoveIds(items)
    case NegativeCost(m, cost) =>
      cost < 0 && exists i, k :: 0 <= i < |items| && 0 <= k < |items[i].moves|
                                 && items[i].moves[k].moveId == m && items[i].moves[k].cost == cost
    case UnknownDependency(id, unknown) =>
      unknown != {} && exists i :: 0 <= i < |items| && items[i].itemId == id
                                   && unknown == (set d | d in items[i].dependencies) - ItemIds(items)
  }

  /** What the loop over one item's moves finds wrong with move `k`, given the move ids of earlier items. */
  function MoveProblem(item: Item, k: nat, before: seq<string>): Option<ItemProblem>
    requires k < |item.moves|
  {
    var move := item.moves[k];
    if move.itemId != item.itemId then Some(MoveItemMismatch(move.moveId, move.itemId, item.itemId))
    else if move.moveId in before + MoveIds(item)[..k] then Some(DuplicateMove(move.moveId))
    else if move.cost < 0 then Some(NegativeCost(move.moveId, move.cost))
    else None
  }

  /** The first problem among the first `n` moves. */
  function MovesProblem(item: Item, n: nat, before: seq<string>): Option<ItemProblem>
    requires n <= |item.moves|
  {
    if n == 0 then None
    else
      var earlier := MovesProblem(item, n - 1, before);
      if earlier.Some? then earlier else MoveProblem(item, n - 1, before)
  }

  /** The first problem among the first `n` items and their moves. */
  function ItemsProblem(items: seq<Item>, n: nat): Option<ItemProblem>
    requires n <= |items|
  {
    if n == 0 then None
    else
      var earlier, item := ItemsProblem(items, n - 1), items[n - 1];
      if earlier.Some? then earlier
      else if item.itemId in ItemIds(items[..n - 1]) then Some(DuplicateItem(item.itemId))
      else MovesProblem(item, |item.moves|, AllMoveIds(items[..n - 1]))
  }

  function UnknownDependencies(items: seq<Item>, item: Item): set<string> {
    (set d | d in item.dependencies) - ItemIds(items)
  }

  /** The first of the first `n` items that depends on an item that is not there. */
  function DependencyProblem(items: seq<Item>, n: nat): Option<ItemProblem>
    requires n <= |items|
  {
    if n == 0 then None
    else
      var earlier, unknown := DependencyProblem(items, n - 1), UnknownDependencies(items, items[n - 1]);
      if earlier.Some? then earlier
      else if unknown != {} then Some(UnknownDependency(items[n - 1].itemId, unknown))
      else None
  }

  /** The problem `_validate_items` raises: items and moves in order first, then dependencies. */
  function FirstProblem(items: seq<Item>): Option<ItemProblem> {
    var problem := ItemsProblem(items, |items|);
    if problem.Some? then problem else DependencyProblem(items, |items|)
  }

  lemma {:induction false} MovesProblemStays(item: Item, k: nat, n: nat, before: seq<string>)
    requires k <= n <= |item.moves| && MovesProblem(item, k, before).Some?
    ensures MovesProblem(item, n, before) == MovesProblem(item, k, before)
  {
    if k < n {
      MovesProblemStays(item, k, n - 1, before);
    }
  }

  lemma {:induction false} ItemsProblemStays(items: seq<Item>, k: nat, n: nat)
    requires k <= n <= |items| && ItemsProblem(items, k).Some?
    ensures ItemsProblem(items, n) == ItemsProblem(items, k)
  {
    if k < n {
      ItemsProblemStays(items, k, n - 1);
    }
  }

  lemma {:induction false} DependencyProblemStays(items: seq<Item>, k: nat, n: nat)
    requires k <= n <= |items| && DependencyProblem(items, k).Some?
    ensures DependencyProblem(items, n) == DependencyProblem(items, k)
  {
    if k < n {
      DependencyProblemStays(items, k, n - 1);
    }
  }

  lemma NotNoDupAppend<T>(a: seq<T>, x: T, b: seq<T>)
    requires x in a
    ensures !NoDup(a + [x] + b)
  {
    var i :| 0 <= i < |a| && a[i] == x;
    var s := a + [x] + b;
    assert s[i] == x && s[|a|] == x;
  }

  /** The moves of one item, against the move ids seen before it. */
  method ValidateMoves(item: Item, seen: set<string>, ghost before: seq<string>)
    returns (problem: Option<ItemProblem>, seen': set<string>)
    requires NoDup(before) && seen == ToSet(before)
    ensures problem == MovesProblem(item, |item.moves|, before)
    ensures problem.None? ==> seen' == ToSet(before + MoveIds(item)) && NoDup(before + MoveIds(item))
    ensures problem.None? ==> OwnMoves(item)
    ensures problem.Some? ==>
      match problem.value
      case MoveItemMismatch(m, claimed, id) =>
        exists k :: 0 <= k < |item.moves| && id == item.itemId != claimed
                    && item.moves[k].moveId == m && item.moves[k].itemId == claimed
      case DuplicateMove(m) => m in MoveIds(item) && !NoDup(before + MoveIds(item))
      case NegativeCost(m, cost) =>
        exists k :: 0 <= k < |item.moves| && cost < 0 && item.moves[k].moveId == m && item.moves[k].cost == cost
      case _ => false
  {
    seen' := seen;
    ghost var ids := MoveIds(item);
    for k := 0 to |item.moves|
      invariant MovesProblem(item, k, before).None?
      invariant NoDup(before + ids[..k]) && seen' == ToSet(before + ids[..k])
      invariant forall i :: 0 <= i < k ==> OwnMove(item, item.moves[i])
    {
      var move := item.moves[k];
      assert before + ids[..k + 1] == before + ids[..k] + [move.moveId];
      if MovesProblem(item, k + 1, before).Some? {
        MovesProblemStays(item, k + 1, |item.moves|, before);
      }
      if move.itemId != item.itemId {
        return Some(MoveItemMismatch(move.moveId, move.itemId, item.itemId)), seen';
      }
      if move.moveId in seen' {
        NotNoDupAppend(before + ids[..k], ids[k], ids[k + 1..]);
        assert before + ids[..k] + [ids[k]] + ids[k + 1..] == before + ids;
        assert ids[k] in ids;
        return Some(DuplicateMove(move.moveId)), seen';
      }
      seen' := seen' + {move.moveId};
      NoDupConcat(before + ids[..k], [move.moveId]);
      if move.cost < 0 {
        return Some(NegativeCost(move.moveId, move.cost)), seen';
      }
    }
    assert ids[..|item.moves|] == ids;
    return None, seen';
  }

  lemma PrefixProblem(items: seq<Item>, n: nat)
    requires n < |items| && !NoDup(AllMoveIds(items[..n]) + MoveIds(items[n]))
    ensures !NoDup(AllMoveIds(items))
    ensures forall m :: m in MoveIds(items[n]) ==> m in AllMoveIds(items)
  {
    hide FlatMap;
    hide MoveIds;
    var after := FlatMapSplit(MoveIds, items, n);
    var before := AllMoveIds(items[..n]) + MoveIds(items[n]);
    var i, j :| 0 <= i < j < |before| && before[i] == before[j];
    assert AllMoveIds(items)[i] == AllMoveIds(items)[j];
  }

  /** `_validate_items`: `None` exactly for valid items, and otherwise the first problem, which is there. */
  method ValidateItems(items: seq<Item>) returns (problem: Option<ItemProblem>)
    ensures problem == FirstProblem(items)
    ensures problem.None? <==> ValidItems(items)
    ensures problem.Some? ==> IsProblem(items, problem.value)
  {
    hide FlatMap;
    hide MoveIds;
    hide MovesProblem;
    var ids: set<string>, moveIds: set<string> := {}, {};
    NoMoves();
    for n := 0 to |items|
      invariant ItemsProblem(items, n).None?
      invariant ids == ItemIds(items[..n]) && UniqueItems(items[..n])
      invariant NoDup(AllMoveIds(items[..n])) && moveIds == ToSet(AllMoveIds(items[..n]))
      invariant forall i :: 0 <= i < n ==> OwnMoves(items[i])
    {
      var item := items[n];
      IdsSnoc(items, n);
      if ItemsProblem(items, n + 1).Some? {
        ItemsProblemStays(items, n + 1, |items|);
      }
      if item.itemId in ids {
        var i :| 0 <= i < n && items[i].itemId == item.itemId;
        return Some(DuplicateItem(item.itemId));
      }
      ids := ids + {item.itemId};
      var after := FlatMapSplit(MoveIds, items, n);
      var inner;
      inner, moveIds := ValidateMoves(item, moveIds, AllMoveIds(items[..n]));
      if inner.Some? {
        if inner.value.DuplicateMove? {
          PrefixProblem(items, n);
        } else {
          NotOwn(items, n, inner.value);
        }
        return inner;
      }
    }
    assert items[..|items|] == items;
    for n := 0 to |items|
      invariant DependencyProblem(items, n).None?
      invariant forall i, d :: 0 <= i < n && d in items[i].dependencies ==> d in ids
    {
      var unknown := (set d | d in items[n].dependencies) - ids;
      if DependencyProblem(items, n + 1).Some? {
        DependencyProblemStays(items, n + 1, |items|);
      }
      if unknown != {} {
        var d :| d in unknown;
        return Some(UnknownDependency(items[n].itemId, unknown));
      }
      assert forall d :: d in items[n].dependencies ==> d !in unknown;
    }
    return None;
  }

  lemma NoMoves()
    ensures AllMoveIds([]) == []
  {
  }

  lemma IdsSnoc(items: seq<Item>, n: nat)
    requires n < |items|
    ensures ItemIds(items[..n + 1]) == ItemIds(items[..n]) + {items[n].itemId}
    ensures items[n].itemId in ItemIds(items[..n]) ==> exists i :: 0 <= i < n && items[i].itemId == items[n].itemId
    ensures UniqueItems(items[..n]) && items[n].itemId !in ItemIds(items[..n]) ==> UniqueItems(items[..n + 1])
  {
    var longer := items[..n + 1];
    forall x ensures x in ItemIds(longer) <==> x in ItemIds(items[..n]) + {items[n].itemId} {
      if x in ItemIds(items[..n]) {
        var i :| 0 <= i < n && items[..n][i].itemId == x;
        assert longer[i].itemId == x;
      }
      if x == items[n].itemId {
        assert longer[n].itemId == x;
      }
      if x in ItemIds(longer) {
        var i :| 0 <= i < n + 1 && longer[i].itemId == x;
        if i < n {
          assert items[..n][i].itemId == x;
        }
      }
    }
    if UniqueItems(items[..n]) && items[n].itemId !in ItemIds(items[..n]) {
      forall i, j | 0 <= i < j < n + 1 ensures longer[i].itemId != longer[j].itemId {
        if j < n {
          assert items[..n][i].itemId != items[..n][j].itemId;
        } else {
          assert items[..n][i].itemId in ItemIds(items[..n]);
        }
      }
    }
  }

  lemma NotOwn(items: seq<Item>, n: nat, problem: ItemProblem)
    requires n < |items|
    requires match problem
             case MoveItemMismatch(m, claimed, id) =>
               exists k :: 0 <= k < |items[n].moves| && id == items[n].itemId != claimed
                           && items[n].moves[k].moveId == m && items[n].moves[k].itemId == claimed
             case NegativeCost(m, cost) =>
               exists k :: 0 <= k < |items[n].moves| && cost < 0 && items[n].moves[k].moveId == m
                           && items[n].moves[k].cost == cost
             case _ => false
    ensures IsProblem(items, problem) && !OwnMoves(items[n])
  {
    match problem
    case MoveItemMismatch(m, claimed, id) =>
      var k :| 0 <= k < |items[n].moves| && id == items[n].itemId != claimed
               && items[n].moves[k].moveId == m && items[n].moves[k].itemId == claimed;
      assert !OwnMove(items[n], items[n].moves[k]);
    case NegativeCost(m, cost) =>
      var k :| 0 <= k < |items[n].moves| && cost < 0 && items[n].moves[k].moveId == m && items[n].moves[k].cost == cost;
      assert !OwnMove(items[n], items[n].moves[k]);
    case _ =>
  }
}
