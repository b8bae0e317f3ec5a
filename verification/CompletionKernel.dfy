/**
 The completion frontier, the selected cut and its admission (`src/gymact/dfcm_finish.py`).
 */
module CompletionKernel {
  import opened Outcomes
  import opened Sequences
  import opened CartesianProduct
  import opened Ordering
  import opened Completion
  import Combinations

  // ---------------------------------------------------------------- sort keys

  function KindName(kind: MoveKind): string {
    match kind
    case Preserve => "PRESERVE" case Inspect => "INSPECT" case Adapt => "ADAPT"
    case Compose => "COMPOSE" case Construct => "CONSTRUCT" case Verify => "VERIFY"
    case Publish => "PUBLISH" case Do => "DO"
  }

  function ItemKey(item: Item): Key {
    [Codes(item.itemId)]
  }

  function MoveKey(move: Move): Key {
    [[move.cost], Codes(KindName(move.kind)), Codes(move.moveId)]
  }

  function MoveIdKey(move: Move): Key {
    [Codes(move.moveId)]
  }

  function PlanKey(plan: Plan): Key {
    [[plan.totalCost]] + Map(Codes, plan.moveIds)
  }

  function IdKey(id: string): Key {
    [Codes(id)]
  }

  // ---------------------------------------------------------------- the frontier of valid items

  /** `str.isspace`, character by character. */
  predicate IsSpace(c: char) {
    var code := c as int;
    || 0x09 <= code <= 0x0D || 0x1C <= code <= 0x20 || code == 0x85 || code == 0xA0 || code == 0x1680
    || 0x2000 <= code <= 0x200A || code == 0x2028 || code == 0x2029 || code == 0x202F || code == 0x205F
    || code == 0x3000
  }

  /** Nothing is left of the text once it is stripped. */
  predicate Blank(text: string) {
    forall c :: c in text ==> IsSpace(c)
  }

  function Source(items: seq<Item>): seq<Item> {
    SortBy(ItemKey, items)
  }

  predicate Pending(item: Item) {
    !item.standing.Alive? && !item.standing.Unsupported? && !item.standing.Refused?
  }

  function Unresolved(items: seq<Item>): seq<Item> {
    Filter(Pending, Source(items))
  }

  /** The item of that id; ids are unique in valid items. */
  function Find(items: seq<Item>, id: string): Option<Item> {
    if items == [] then None
    else if items[|items| - 1].itemId == id then Some(items[|items| - 1])
    else Find(items[..|items| - 1], id)
  }

  /** Only observed ALIVE standing satisfies a dependency. */
  predicate Ready(items: seq<Item>, item: Item) {
    forall d :: d in item.dependencies ==> Find(items, d).Some? && Find(items, d).value.standing.Alive?
  }

  predicate Lawful(move: Move) {
    move.reversible && !move.requiresAuthority && !move.kind.Do?
  }

  function ReversibleMoves(item: Item): seq<Move> {
    SortBy(MoveKey, Filter(Lawful, item.moves))
  }

  function IsActionable(items: seq<Item>): Item -> bool {
    (item: Item) => Ready(items, item) && ReversibleMoves(item) != []
  }

  function IsBlocked(items: seq<Item>): Item -> bool {
    (item: Item) => !(Ready(items, item) && ReversibleMoves(item) != [])
  }

  function IdOf(item: Item): string {
    item.itemId
  }

  function Actionable(items: seq<Item>): seq<Item> {
    Filter(IsActionable(items), Unresolved(items))
  }

  function BlockedIds(items: seq<Item>): seq<string> {
    SortBy(IdKey, Map(IdOf, Filter(IsBlocked(items), Unresolved(items))))
  }

  function MoveSets(items: seq<Item>): seq<seq<Move>> {
    Map(ReversibleMoves, Actionable(items))
  }

  function Cost(moves: seq<Move>): int {
    if moves == [] then 0 else Cost(moves[..|moves| - 1]) + moves[|moves| - 1].cost
  }

  function MoveIdOf(move: Move): string {
    move.moveId
  }

  function ItemIdOf(move: Move): string {
    move.itemId
  }

  /** One branch: its moves in the order of their ids. */
  function PlanOf(choice: seq<Move>): Plan {
    var canonical := SortBy(MoveIdKey, choice);
    Plan(Map(MoveIdOf, canonical), Map(ItemIdOf, canonical), Cost(canonical))
  }

  function Enumerated(items: seq<Item>, maxPlans: nat): seq<seq<Move>> {
    if Actionable(items) == [] then [] else Combinations.Slice(Product(MoveSets(items)), maxPlans)
  }

  function Plans(items: seq<Item>, maxPlans: nat): seq<Plan> {
    SortBy(PlanKey, Map(PlanOf, Enumerated(items, maxPlans)))
  }

  function TotalCardinality(items: seq<Item>): nat {
    if Actionable(items) == [] then 0 else Cardinality(MoveSets(items))
  }

  function StandingOf(items: seq<Item>): Standing {
    if Unresolved(items) == [] then Alive else if BlockedIds(items) != [] then Blocked else PartialAlive
  }

  function FrontierOf(subject: string, items: seq<Item>, maxPlans: nat): Frontier {
    var unresolved, blocked := Map(IdOf, Unresolved(items)), BlockedIds(items);
    var total, plans := TotalCardinality(items), Plans(items, maxPlans);
    var payload := FrontierPayload(subject, Source(items), StandingOf(items), unresolved, blocked, total,
                                   total > maxPlans, plans);
    Frontier(subject, StandingOf(items), unresolved, blocked, total, total > maxPlans, plans, Source(items), payload)
  }

  // ---------------------------------------------------------------- the kernel's operations

  /** The loop over the unresolved items. */
  method Partition(items: seq<Item>)
    returns (actionable: seq<Item>, moveSets: seq<seq<Move>>, blocked: seq<Item>)
    ensures actionable == Actionable(items) && moveSets == MoveSets(items)
    ensures blocked == Filter(IsBlocked(items), Unresolved(items))
  {
    hide Filter;
    hide Ready;
    hide ReversibleMoves;
    hide Unresolved;
    var unresolved := Unresolved(items);
    actionable, moveSets, blocked := [], [], [];
    for n := 0 to |unresolved|
      invariant actionable == Filter(IsActionable(items), unresolved[..n])
      invariant moveSets == Map(ReversibleMoves, actionable)
      invariant blocked == Filter(IsBlocked(items), unresolved[..n])
    {
      var item := unresolved[n];
      FilterNext(IsActionable(items), unresolved, n);
      FilterNext(IsBlocked(items), unresolved, n);
      if !Ready(items, item) {
        blocked := blocked + [item];
        continue;
      }
      var moves := ReversibleMoves(item);
      if moves == [] {
        blocked := blocked + [item];
        continue;
      }
      actionable := actionable + [item];
      moveSets := moveSets + [moves];
    }
    assert unresolved[..|unresolved|] == unresolved;
  }

  /** The loop over the enumerated combinations. */
  method BuildPlans(combinations: seq<seq<Move>>) returns (plans: seq<Plan>)
    ensures plans == Map(PlanOf, combinations)
  {
    hide PlanOf;
    plans := [];
    for n := 0 to |combinations|
      invariant plans == Map(PlanOf, combinations)[..n]
    {
      plans := plans + [PlanOf(combinations[n])];
    }
  }

  /** `manufacture_completion_frontier`. */
  method ManufactureFrontier(subject: string, items: seq<Item>, maxPlans: int)
    returns (r: Result<Frontier, CompletionError>)
    ensures Blank(subject) ==> r == Failure(EmptySubject)
    ensures !Blank(subject) && maxPlans < 1 ==> r == Failure(MaxPlansTooSmall)
    ensures !Blank(subject) && maxPlans >= 1 && ValidItems(items) ==> r == Success(FrontierOf(subject, items, maxPlans))
    ensures !Blank(subject) && maxPlans >= 1 && !ValidItems(items) ==>
              FirstProblem(items).Some? && r == Failure(InvalidItems(FirstProblem(items).value))
  {
    hide SortBy;
    hide Product;
    hide Filter;
    if Blank(subject) {
      return Failure(EmptySubject);
    }
    if maxPlans < 1 {
      return Failure(MaxPlansTooSmall);
    }
    var problem := ValidateItems(items);
    if problem.Some? {
      return Failure(InvalidItems(problem.value));
    }
    var actionable, moveSets, blocked := Partition(items);
    var total := if actionable == [] then 0 else Cardinality(moveSets);
    var plans: seq<Plan> := [];
    if actionable != [] {
      plans := BuildPlans(Combinations.Slice(Product(moveSets), maxPlans));
    }
    plans := SortBy(PlanKey, plans);
    assert plans == Plans(items, maxPlans);
    var unresolved, blockedIds := Map(IdOf, Unresolved(items)), SortBy(IdKey, Map(IdOf, blocked));
    var standing := if unresolved == [] then Alive else if blockedIds != [] then Blocked else PartialAlive;
    assert standing == StandingOf(items);
    var payload := FrontierPayload(subject, Source(items), standing, unresolved, blockedIds, total, total > maxPlans, plans);
    return Success(Frontier(subject, standing, unresolved, blockedIds, total, total > maxPlans, plans, Source(items), payload));
  }

  function PayloadOf(cut: Cut): CutPayload {
    CutPayload(cut.subjectRef, cut.sourceDigest, cut.frontierDigest, cut.standing, cut.selected, cut.reason)
  }

  /** `select_completion_cut`: the first plan, which is the cheapest. */
  function SelectCut(f: Frontier): Cut {
    var selected := if f.plans != [] then Some(f.plans[0]) else None;
    var verdict :=
      if f.standing.Alive? then (Alive, SubjectAlreadyAlive)
      else if f.blockedItems != [] then (Blocked, BlockedItems(f.blockedItems))
      else if selected.None? then (Blocked, NoReversibleCompletionPlan)
      else (PartialAlive, ReversibleCutSelected);
    var provisional := Cut(f.subjectRef, verdict.0, selected, verdict.1, f.sourceDigest, f.frontierDigest, None);
    provisional.(cutDigest := Some(PayloadOf(provisional)))
  }

  function FindMove(moves: seq<Move>, id: string): (r: Option<Move>)
    ensures r.Some? ==> r.value in moves && r.value.moveId == id
    ensures r.None? ==> forall m :: m in moves ==> m.moveId != id
    decreases |moves|
  {
    if moves == [] then None
    else
      var earlier := FindMove(moves[..|moves| - 1], id);
      if earlier.Some? then earlier
      else if moves[|moves| - 1].moveId == id then Some(moves[|moves| - 1])
      else None
  }

  /** The fence in front of one selected move. */
  function CheckMove(items: seq<Item>, itemId: string, moveId: string): Result<int, CompletionError> {
    var item := Find(items, itemId);
    if item.None? then Failure(UnknownItem(itemId))
    else
      var move := FindMove(item.value.moves, moveId);
      if move.None? then Failure(UnknownMove(itemId, moveId))
      else if move.value.kind.Do? then Failure(DoRequiresBrce(moveId))
      else if !move.value.reversible then Failure(IrreversibleMove(moveId))
      else if move.value.requiresAuthority then Failure(AuthorityRequired(moveId))
      else Success(move.value.cost)
  }

  /** The cost of the first `n` selected moves, once the fence has let each of them through. */
  function CheckMoves(items: seq<Item>, plan: Plan, n: nat): Result<int, CompletionError>
    requires n <= |plan.itemIds| && n <= |plan.moveIds|
  {
    if n == 0 then Success(0)
    else
      var before :- CheckMoves(items, plan, n - 1);
      var cost :- CheckMove(items, plan.itemIds[n - 1], plan.moveIds[n - 1]);
      Success(before + cost)
  }

  function Shorter(plan: Plan): nat {
    if |plan.itemIds| <= |plan.moveIds| then |plan.itemIds| else |plan.moveIds|
  }

  function Admission(cut: Cut, items: seq<Item>): Result<Cut, CompletionError> {
    if Source(items) != cut.sourceDigest then Failure(SourceIdentityMismatch)
    else if cut.cutDigest != Some(PayloadOf(cut)) then Failure(CutDigestMismatch)
    else if cut.selected.None? then
      if cut.standing.Alive? then Success(cut) else Failure(NoSelectedCut(cut.reason))
    else
      var plan := cut.selected.value;
      if Combinations.Repeats(plan.itemIds) then Failure(DuplicateSelectedItem)
      else
        var cost :- CheckMoves(items, plan, Shorter(plan));
        if |plan.itemIds| != |plan.moveIds| then Failure(UnevenSelection)
        else if cost != plan.totalCost then Failure(SelectedCostMismatch(plan.totalCost, cost))
        else Success(cut)
  }

  lemma {:induction false} CheckFailureStays(items: seq<Item>, plan: Plan, n: nat, m: nat)
    requires n <= m <= |plan.itemIds| && m <= |plan.moveIds| && CheckMoves(items, plan, n).Failure?
    ensures CheckMoves(items, plan, m) == CheckMoves(items, plan, n)
  {
    if n < m {
      CheckFailureStays(items, plan, n, m - 1);
    }
  }

  /** `admit_completion_cut`. */
  method AdmitCut(cut: Cut, items: seq<Item>) returns (r: Result<Cut, CompletionError>)
    ensures ValidItems(items) ==> r == Admission(cut, items)
    ensures !ValidItems(items) ==> FirstProblem(items).Some? && r == Failure(InvalidItems(FirstProblem(items).value))
  {
    hide Source;
    hide CheckMove;
    var problem := ValidateItems(items);
    if problem.Some? {
      return Failure(InvalidItems(problem.value));
    }
    if Source(items) != cut.sourceDigest {
      return Failure(SourceIdentityMismatch);
    }
    if cut.cutDigest != Some(PayloadOf(cut)) {
      return Failure(CutDigestMismatch);
    }
    if cut.selected.None? {
      return if cut.standing.Alive? then Success(cut) else Failure(NoSelectedCut(cut.reason));
    }
    var plan := cut.selected.value;
    if Combinations.Repeats(plan.itemIds) {
      return Failure(DuplicateSelectedItem);
    }
    var observed := 0;
    for n := 0 to Shorter(plan)
      invariant CheckMoves(items, plan, n) == Success(observed)
    {
      var check := CheckMove(items, plan.itemIds[n], plan.moveIds[n]);
      if check.Failure? {
        CheckFailureStays(items, plan, n + 1, Shorter(plan));
        return Failure(check.error);
      }
      observed := observed + check.value;
    }
    if |plan.itemIds| != |plan.moveIds| {
      return Failure(UnevenSelection);
    }
    if observed != plan.totalCost {
      return Failure(SelectedCostMismatch(plan.totalCost, observed));
    }
    return Success(cut);
  }
}
