/**
 Black-box procedure discovery: the probe of `src/gymact/discovery.py`, which replays a prefix in
 a fresh episode and then acts, and the breadth-first plan search `_discover` of
 `scripts/run_opaque_procedure_episode.py` on top of it.
 */
module Discovery {
  import opened Outcomes
  import opened Sequences
  import opened Ordering

  type Facts = set<string>

  datatype Standing = Alive | Blocked | Refused | Unsupported | OtherStanding

  /** A refused action leaves the facts as they were. */
  datatype Effect = Accepted(after: Facts) | Rejected(standing: Standing)

  /**
   A world as the prober meets it: materialized anew with the same initial facts, answering each
   action as a function of the facts it is in. An accepted action stands ALIVE.
   */
  datatype World = World(initial: Facts, actions: seq<string>, act: (Facts, string) -> Effect)

  datatype ProbeEvidence = ProbeEvidence(
    actionId: string, prefix: seq<string>, accepted: bool, standing: Standing, beforeFacts: Facts, afterFacts: Facts)

  datatype DiscoveryError =
    | PrefixReplayFailed(action: string) | UnexpectedStanding(prefix: seq<string>, action: string)
    | GoalNotDiscovered

  /** The facts after a sequence of actions, if each is accepted. */
  function Run(w: World, plan: seq<string>): Option<Facts> {
    if plan == [] then Some(w.initial)
    else
      var before := Run(w, plan[..|plan| - 1]);
      if before.None? then None
      else
        match w.act(before.value, plan[|plan| - 1])
        case Accepted(after) => Some(after)
        case Rejected(_) => None
  }

  lemma RunSnoc(w: World, plan: seq<string>, action: string)
    requires Run(w, plan).Some?
    ensures Run(w, plan + [action]) ==
            match w.act(Run(w, plan).value, action) case Accepted(after) => Some(after) case Rejected(_) => None
  {
    assert (plan + [action])[..|plan|] == plan;
  }

  lemma {:induction false} RunPrefix(w: World, plan: seq<string>, n: nat)
    requires n <= |plan| && Run(w, plan[..n]).None?
    ensures Run(w, plan).None?
  {
    if n == |plan| {
      assert plan[..n] == plan;
    } else {
      assert plan[..|plan| - 1][..n] == plan[..n];
      RunPrefix(w, plan[..|plan| - 1], n);
    }
  }

  /** `probe`: replays the prefix in a fresh episode, then acts once. */
  method Probe(w: World, prefix: seq<string>, actionId: string) returns (r: Result<ProbeEvidence, DiscoveryError>)
    ensures r.Success? <==> Run(w, prefix).Some?
    ensures r.Success? ==>
              var before := Run(w, prefix).value;
              r.value == match w.act(before, actionId)
                         case Accepted(after) => ProbeEvidence(actionId, prefix, true, Alive, before, after)
                         case Rejected(standing) => ProbeEvidence(actionId, prefix, false, standing, before, before)
    ensures r.Failure? ==>
              exists i :: && 0 <= i < |prefix| && r.error == PrefixReplayFailed(prefix[i])
                          && Run(w, prefix[..i]).Some? && Run(w, prefix[..i + 1]).None?
  {
    var facts := w.initial;
    for i := 0 to |prefix|
      invariant Run(w, prefix[..i]) == Some(facts)
    {
      assert prefix[..i + 1] == prefix[..i] + [prefix[i]];
      RunSnoc(w, prefix[..i], prefix[i]);
      match w.act(facts, prefix[i]) {
        case Accepted(after) => facts := after;
        case Rejected(_) =>
          RunPrefix(w, prefix, i + 1);
          return Failure(PrefixReplayFailed(prefix[i]));
      }
    }
    assert prefix[..|prefix|] == prefix;
    match w.act(facts, actionId) {
      case Accepted(after) => r := Success(ProbeEvidence(actionId, prefix, true, Alive, facts, after));
      case Rejected(standing) => r := Success(ProbeEvidence(actionId, prefix, false, standing, facts, facts));
    }
  }

  /** The states a world goes through along a plan that it accepts action by action. */
  ghost predicate Visits(w: World, plan: seq<string>, states: seq<Facts>) {
    && |states| == |plan| + 1 && states[0] == w.initial
    && forall i :: 0 <= i < |plan| ==> w.act(states[i], plan[i]) == Accepted(states[i + 1])
  }

  lemma {:induction false} RunVisits(w: World, plan: seq<string>) returns (states: seq<Facts>)
    requires Run(w, plan).Some?
    ensures Visits(w, plan, states) && states[|plan|] == Run(w, plan).value
  {
    if plan == [] {
      states := [w.initial];
    } else {
      var front := plan[..|plan| - 1];
      var earlier := RunVisits(w, front);
      states := earlier + [Run(w, plan).value];
      forall i | 0 <= i < |plan| ensures w.act(states[i], plan[i]) == Accepted(states[i + 1]) {
        if i < |front| {
          assert front[i] == plan[i];
        }
      }
    }
  }

  lemma {:induction false} VisitsRun(w: World, plan: seq<string>, states: seq<Facts>)
    requires Visits(w, plan, states)
    ensures Run(w, plan) == Some(states[|plan|])
  {
    if plan != [] {
      var front := plan[..|plan| - 1];
      assert forall i :: 0 <= i < |front| ==> front[i] == plan[i];
      VisitsRun(w, front, states[..|plan|]);
    }
  }

  // ---------------------------------------------------------------- plans

  predicate Done(facts: Facts) {
    "done" in facts
  }

  ghost predicate Offered(w: World, plan: seq<string>) {
    forall i :: 0 <= i < |plan| ==> plan[i] in w.actions
  }

  /** A non-empty accepted sequence of offered actions that ends with the goal fact. */
  ghost predicate ReachesGoal(w: World, plan: seq<string>) {
    plan != [] && Offered(w, plan) && Run(w, plan).Some? && Done(Run(w, plan).value)
  }

  ghost predicate ShortestPlan(w: World, plan: seq<string>) {
    ReachesGoal(w, plan) && forall other :: ReachesGoal(w, other) ==> |plan| <= |other|
  }

  /** Everything the world can be in lies in a finite set. */
  ghost predicate ClosedUnder(w: World, universe: set<Facts>) {
    && w.initial in universe
    && forall s, a :: s in universe && a in w.actions && w.act(s, a).Accepted? ==> w.act(s, a).after in universe
  }

  predicate ExpectedStanding(standing: Standing) {
    standing.Blocked? || standing.Refused? || standing.Unsupported?
  }

  // ---------------------------------------------------------------- the search

  datatype Entry = Entry(state: Facts, prefix: seq<string>)

  /** Entries in the order they were queued: each is reached by its prefix, no state twice. */
  ghost predicate Queued(w: World, log: seq<Entry>, universe: set<Facts>) {
    && log != [] && log[0] == Entry(w.initial, [])
    && (forall k :: 0 <= k < |log| ==>
          Offered(w, log[k].prefix) && Run(w, log[k].prefix) == Some(log[k].state) && log[k].state in universe)
    && (forall i, k :: 0 <= i < k < |log| ==> log[i].state != log[k].state && |log[i].prefix| <= |log[k].prefix|)
  }

  /** An accepted successor that is not the goal, and no further away than one step, is queued. */
  ghost predicate Covers(w: World, log: seq<Entry>, e: Entry, action: string) {
    w.act(e.state, action).Accepted? ==>
      && !Done(w.act(e.state, action).after)
      && exists j :: 0 <= j < |log| && log[j].state == w.act(e.state, action).after && |log[j].prefix| <= |e.prefix| + 1
  }

  ghost predicate Expanded(w: World, log: seq<Entry>, e: Entry) {
    forall a :: a in w.actions ==> Covers(w, log, e, a)
  }

  ghost function States(log: seq<Entry>): set<Facts> {
    set e | e in log :: e.state
  }

  lemma StatesSnoc(log: seq<Entry>, e: Entry)
    ensures States(log + [e]) == States(log) + {e.state}
  {
  }

  lemma CoversMonotone(w: World, log: seq<Entry>, new_: Entry, e: Entry, action: string)
    requires Covers(w, log, e, action)
    ensures Covers(w, log + [new_], e, action)
  {
    if w.act(e.state, action).Accepted? {
      var j :| 0 <= j < |log| && log[j].state == w.act(e.state, action).after && |log[j].prefix| <= |e.prefix| + 1;
      assert (log + [new_])[j] == log[j];
    }
  }

  lemma LogFits(w: World, log: seq<Entry>, universe: set<Facts>)
    requires Queued(w, log, universe)
    ensures |log| <= |universe|
  {
    var states := seq(|log|, i requires 0 <= i < |log| => log[i].state);
    NoDupFits(states, universe);
  }

  /**
   Where every entry nearer than `|plan|` has been expanded, an accepted plan leads to a queued
   state that is no further away than the plan is long, and has not passed the goal.
   */
  lemma {:induction false} Covered(w: World, log: seq<Entry>, universe: set<Facts>, head: nat, plan: seq<string>)
    returns (k: nat)
    requires Queued(w, log, universe) && head <= |log|
    requires forall i :: 0 <= i < head ==> Expanded(w, log, log[i])
    requires forall i :: 0 <= i < |log| && |log[i].prefix| < |plan| ==> i < head
    requires Offered(w, plan) && Run(w, plan).Some?
    ensures k < |log| && log[k].state == Run(w, plan).value && |log[k].prefix| <= |plan|
    ensures plan != [] ==> !Done(Run(w, plan).value)
  {
    k := 0;
    if plan != [] {
      var front, last := plan[..|plan| - 1], plan[|plan| - 1];
      var i := Covered(w, log, universe, head, front);
      assert Covers(w, log, log[i], last);
      k :| 0 <= k < |log| && log[k].state == w.act(log[i].state, last).after && |log[k].prefix| <= |log[i].prefix| + 1;
    }
  }

  /** No goal is reached in fewer steps than lead to the entry being expanded. */
  lemma NoShorterPlan(w: World, log: seq<Entry>, universe: set<Facts>, head: nat, plan: seq<string>)
    requires Queued(w, log, universe) && head < |log|
    requires forall i :: 0 <= i < head ==> Expanded(w, log, log[i])
    requires ReachesGoal(w, plan)
    ensures |plan| > |log[head].prefix|
  {
    if |plan| <= |log[head].prefix| {
      var k := Covered(w, log, universe, head, plan);
    }
  }

  /** What the search knows between two entries. */
  ghost predicate SearchState(w: World, log: seq<Entry>, universe: set<Facts>, head: nat, seen: set<Facts>) {
    && Queued(w, log, universe) && head <= |log| && seen == States(log)
    && (forall i :: 0 <= i < head ==> Expanded(w, log, log[i]))
    && (head < |log| ==> forall i :: 0 <= i < |log| ==> |log[i].prefix| <= |log[head].prefix| + 1)
  }

  datatype Expansion = GoOn | Found(plan: seq<string>) | Unexpected(action: string)

  ghost predicate UnexpectedAnswer(w: World, prefix: seq<string>, action: string) {
    && Offered(w, prefix) && action in w.actions && Run(w, prefix).Some?
    && w.act(Run(w, prefix).value, action).Rejected?
    && w.act(Run(w, prefix).value, action).standing !in {Blocked, Refused, Unsupported}
  }

  /** The inner loop: every action is probed from one entry; `found` are the entries it queues. */
  method Expand(w: World, entry: Entry, seen: set<Facts>, ghost log: seq<Entry>, ghost universe: set<Facts>, ghost head: nat)
    returns (e: Expansion, found: seq<Entry>, seen': set<Facts>)
    requires ClosedUnder(w, universe) && SearchState(w, log, universe, head, seen)
    requires head < |log| && log[head] == entry
    ensures e.Found? ==> ShortestPlan(w, e.plan)
    ensures e.Unexpected? ==> UnexpectedAnswer(w, entry.prefix, e.action)
    ensures e.GoOn? ==> SearchState(w, log + found, universe, head, seen') && Expanded(w, log + found, entry)
  {
    hide Expanded;
    hide Covers;
    hide Queued;
    seen', found := seen, [];
    EntryRuns(w, log, universe, head);
    ghost var all := log;
    for n := 0 to |w.actions|
      invariant all == log + found && |log| <= |all| && all[head] == entry
      invariant SearchState(w, all, universe, head, seen')
      invariant forall i :: 0 <= i < n ==> Covers(w, all, entry, w.actions[i])
    {
      var action := w.actions[n];
      var probe := Probe(w, entry.prefix, action);
      var evidence := probe.value;
      if !evidence.accepted {
        if !ExpectedStanding(evidence.standing) {
          return Unexpected(action), found, seen';
        }
        RejectedIsCovered(w, all, entry, action);
        continue;
      }
      var after, candidate := evidence.afterFacts, entry.prefix + [action];
      if Done(after) {
        ShortestHere(w, all, universe, head, entry, action);
        return Found(candidate), found, seen';
      }
      if after !in seen' {
        Enqueue(w, all, universe, head, entry, action);
        assert all + [Entry(after, candidate)] == log + (found + [Entry(after, candidate)]);
        seen' := seen' + {after};
        found := found + [Entry(after, candidate)];
        all := all + [Entry(after, candidate)];
      } else {
        SeenIsCovered(w, all, entry, action);
      }
    }
    AllCovered(w, all, entry);
    return GoOn, found, seen';
  }

  lemma EntryRuns(w: World, log: seq<Entry>, universe: set<Facts>, head: nat)
    requires Queued(w, log, universe) && head < |log|
    ensures Offered(w, log[head].prefix) && Run(w, log[head].prefix) == Some(log[head].state)
  {
  }

  lemma RejectedIsCovered(w: World, log: seq<Entry>, entry: Entry, action: string)
    requires w.act(entry.state, action).Rejected?
    ensures Covers(w, log, entry, action)
  {
  }

  lemma SeenIsCovered(w: World, log: seq<Entry>, entry: Entry, action: string)
    requires w.act(entry.state, action).Accepted? && !Done(w.act(entry.state, action).after)
    requires w.act(entry.state, action).after in States(log)
    requires forall i :: 0 <= i < |log| ==> |log[i].prefix| <= |entry.prefix| + 1
    ensures Covers(w, log, entry, action)
  {
    var e :| e in log && e.state == w.act(entry.state, action).after;
    var j :| 0 <= j < |log| && log[j] == e;
  }

  lemma AllCovered(w: World, log: seq<Entry>, entry: Entry)
    requires forall i :: 0 <= i < |w.actions| ==> Covers(w, log, entry, w.actions[i])
    ensures Expanded(w, log, entry)
  {
    forall a | a in w.actions ensures Covers(w, log, entry, a) {
      var i :| 0 <= i < |w.actions| && w.actions[i] == a;
    }
  }

  /** The first goal met is met by a shortest plan. */
  lemma ShortestHere(w: World, log: seq<Entry>, universe: set<Facts>, head: nat, entry: Entry, action: string)
    requires Queued(w, log, universe) && head < |log| && log[head] == entry && action in w.actions
    requires forall i :: 0 <= i < head ==> Expanded(w, log, log[i])
    requires w.act(entry.state, action).Accepted? && Done(w.act(entry.state, action).after)
    ensures ShortestPlan(w, entry.prefix + [action])
  {
    var candidate := entry.prefix + [action];
    RunSnoc(w, entry.prefix, action);
    assert Offered(w, entry.prefix);
    forall other | ReachesGoal(w, other) ensures |candidate| <= |other| {
      NoShorterPlan(w, log, universe, head, other);
    }
  }

  /**
   `_discover`: a shortest plan when there is one, and failure only when there is none. The search
   ends because every queued state is a new one of the finite universe.
   */
  method Discover(w: World, ghost universe: set<Facts>) returns (r: Result<seq<string>, DiscoveryError>)
    requires ClosedUnder(w, universe)
    ensures r.Success? ==> ShortestPlan(w, r.value)
    ensures r.Failure? ==> r.error.GoalNotDiscovered? || r.error.UnexpectedStanding?
    ensures r == Failure(GoalNotDiscovered) ==> forall plan :: !ReachesGoal(w, plan)
    ensures r.Failure? && r.error.UnexpectedStanding? ==> UnexpectedAnswer(w, r.error.prefix, r.error.action)
  {
    hide Expanded;
    hide Covers;
    var queue := [Entry(w.initial, [])];
    var seen := {w.initial};
    ghost var log, head := queue, 0;
    while queue != []
      invariant SearchState(w, log, universe, head, seen)
      invariant queue == log[head..]
      decreases |universe| - head
    {
      LogFits(w, log, universe);
      var entry := queue[0];
      queue := queue[1..];
      var expansion, found;
      expansion, found, seen := Expand(w, entry, seen, log, universe, head);
      if expansion.Found? {
        return Success(expansion.plan);
      }
      if expansion.Unexpected? {
        return Failure(UnexpectedStanding(entry.prefix, expansion.action));
      }
      queue := queue + found;
      Advance(w, log, found, universe, head, seen);
      log, head := log + found, head + 1;
    }
    forall plan ensures !ReachesGoal(w, plan) {
      if ReachesGoal(w, plan) {
        var k := Covered(w, log, universe, head, plan);
      }
    }
    return Failure(GoalNotDiscovered);
  }

  lemma Advance(w: World, log: seq<Entry>, found: seq<Entry>, universe: set<Facts>, head: nat, seen: set<Facts>)
    requires head < |log| && SearchState(w, log + found, universe, head, seen) && Expanded(w, log + found, log[head])
    ensures SearchState(w, log + found, universe, head + 1, seen)
    ensures (log + found)[head + 1..] == log[head..][1..] + found
  {
    var all := log + found;
    assert all[head] == log[head];
    if head + 1 < |all| {
      assert |all[head].prefix| <= |all[head + 1].prefix|;
    }
  }

  /** Queueing a new state keeps the log in order and what was covered covered. */
  lemma Enqueue(w: World, log: seq<Entry>, universe: set<Facts>, head: nat, entry: Entry, action: string)
    requires ClosedUnder(w, universe) && Queued(w, log, universe) && head < |log| && log[head] == entry
    requires action in w.actions && w.act(entry.state, action).Accepted?
    requires !Done(w.act(entry.state, action).after) && w.act(entry.state, action).after !in States(log)
    requires forall i :: 0 <= i < |log| ==> |log[i].prefix| <= |entry.prefix| + 1
    ensures var longer := log + [Entry(w.act(entry.state, action).after, entry.prefix + [action])];
            && Queued(w, longer, universe)
            && States(longer) == States(log) + {w.act(entry.state, action).after}
            && Covers(w, longer, entry, action)
            && (forall e, a :: Covers(w, log, e, a) ==> Covers(w, longer, e, a))
            && (forall e :: Expanded(w, log, e) ==> Expanded(w, longer, e))
  {
    var added := Entry(w.act(entry.state, action).after, entry.prefix + [action]);
    var longer := log + [added];
    RunSnoc(w, entry.prefix, action);
    StatesSnoc(log, added);
    forall e, a | Covers(w, log, e, a) ensures Covers(w, longer, e, a) {
      CoversMonotone(w, log, added, e, a);
    }
    assert longer[|log|] == added;
    forall i | 0 <= i < |log| ensures longer[i].state != added.state {
      assert log[i] in log;
    }
    forall k | 0 <= k < |longer| ensures Offered(w, longer[k].prefix) && Run(w, longer[k].prefix) == Some(longer[k].state) {
      if k == |log| {
        assert Offered(w, entry.prefix);
      }
    }
  }

  // ---------------------------------------------------------------- opaque procedures

  datatype HiddenStep = HiddenStep(opaqueId: string, preconditions: Facts, establishes: Facts, removes: Facts)

  function StepNamed(steps: seq<HiddenStep>, id: string): (r: Option<HiddenStep>)
    ensures r.Some? ==> r.value in steps && r.value.opaqueId == id
  {
    if steps == [] then None
    else if steps[|steps| - 1].opaqueId == id then Some(steps[|steps| - 1])
    else StepNamed(steps[..|steps| - 1], id)
  }

  /** `OpaqueProcedureEnvironment.actuate` for the empty payload the prober sends; a raised error stands BLOCKED. */
  function Actuate(steps: seq<HiddenStep>, facts: Facts, id: string): Effect {
    var step := StepNamed(steps, id);
    if step.None? then Rejected(Blocked)
    else if !(step.value.preconditions <= facts) then Rejected(Blocked)
    else if step.value.establishes <= facts && step.value.removes !! facts then Rejected(Blocked)
    else Accepted(facts - step.value.removes + step.value.establishes)
  }

  function IdKey(id: string): Key {
    [Codes(id)]
  }

  function OpaqueId(s: HiddenStep): string {
    s.opaqueId
  }

  /** The actions are offered in the order of their ids. */
  function ProcedureWorld(initial: Facts, steps: seq<HiddenStep>): World {
    World(initial, SortBy(IdKey, Map(OpaqueId, steps)), (facts: Facts, id: string) => Actuate(steps, facts, id))
  }

  /** The last step of that id stands at `i`. */
  ghost predicate NamesAt(steps: seq<HiddenStep>, id: string, i: nat) {
    i < |steps| && steps[i].opaqueId == id && forall j :: i < j < |steps| ==> steps[j].opaqueId != id
  }

  /** The step an id names: of several the last. */
  ghost predicate Names(steps: seq<HiddenStep>, id: string, step: HiddenStep) {
    exists i: nat :: NamesAt(steps, id, i) && steps[i] == step
  }

  /** The step is possible and makes a difference, and leaves what was there less what it removes, and what it establishes. */
  ghost predicate Takes(step: HiddenStep, before: Facts, after: Facts) {
    && (forall f :: f in step.preconditions ==> f in before)
    && ((exists f :: f in step.establishes && f !in before) || (exists f :: f in step.removes && f in before))
    && forall f :: f in after <==> f in step.establishes || (f in before && f !in step.removes)
  }

  /** The step that the id names is taken. */
  ghost predicate TakesNamed(steps: seq<HiddenStep>, id: string, before: Facts, after: Facts) {
    exists step :: Names(steps, id, step) && Takes(step, before, after)
  }

  /** The plan is carried out step by step, from the initial facts through these. */
  ghost predicate CarriedOut(initial: Facts, steps: seq<HiddenStep>, plan: seq<string>, facts: seq<Facts>) {
    && |facts| == |plan| + 1 && facts[0] == initial
    && forall i :: 0 <= i < |plan| ==> TakesNamed(steps, plan[i], facts[i], facts[i + 1])
  }

  /** A plan of at least one action that can be carried out and ends with the fact "done". */
  ghost predicate Achieves(initial: Facts, steps: seq<HiddenStep>, plan: seq<string>) {
    plan != [] && exists facts :: CarriedOut(initial, steps, plan, facts) && "done" in facts[|plan|]
  }

  lemma {:induction false} NamedStep(steps: seq<HiddenStep>, id: string, step: HiddenStep)
    ensures StepNamed(steps, id) == Some(step) <==> Names(steps, id, step)
  {
    if steps != [] {
      var front, last := steps[..|steps| - 1], |steps| - 1;
      if steps[last].opaqueId != id {
        NamedStep(front, id, step);
        NamesFront(steps, id, step);
      } else {
        assert NamesAt(steps, id, last);
      }
    }
  }

  lemma NamesFront(steps: seq<HiddenStep>, id: string, step: HiddenStep)
    requires steps != [] && steps[|steps| - 1].opaqueId != id
    ensures Names(steps, id, step) <==> Names(steps[..|steps| - 1], id, step)
  {
    var front := steps[..|steps| - 1];
    if i: nat :| NamesAt(front, id, i) && front[i] == step {
      assert NamesAt(steps, id, i);
    }
    if i: nat :| NamesAt(steps, id, i) && steps[i] == step {
      assert NamesAt(front, id, i);
    }
  }

  lemma ActuateMeans(steps: seq<HiddenStep>, before: Facts, id: string, after: Facts)
    ensures Actuate(steps, before, id) == Accepted(after) <==> TakesNamed(steps, id, before, after)
    ensures Actuate(steps, before, id).Accepted? || Actuate(steps, before, id) == Rejected(Blocked)
  {
    forall step ensures StepNamed(steps, id) == Some(step) <==> Names(steps, id, step) {
      NamedStep(steps, id, step);
    }
    hide Names;
    forall step ensures Takes(step, before, after) <==>
                        && step.preconditions <= before && !(step.establishes <= before && step.removes !! before)
                        && after == before - step.removes + step.establishes
    {
      TakesMeans(step, before, after);
    }
    hide Takes;
    if Actuate(steps, before, id) == Accepted(after) {
      assert Names(steps, id, StepNamed(steps, id).value);
    }
  }

  lemma TakesMeans(step: HiddenStep, before: Facts, after: Facts)
    ensures Takes(step, before, after) <==>
            && step.preconditions <= before && !(step.establishes <= before && step.removes !! before)
            && after == before - step.removes + step.establishes
  {
    if Takes(step, before, after) {
      assert after == before - step.removes + step.establishes;
    }
  }

  lemma CarriedOutVisits(initial: Facts, steps: seq<HiddenStep>, plan: seq<string>, facts: seq<Facts>)
    ensures CarriedOut(initial, steps, plan, facts) <==> Visits(ProcedureWorld(initial, steps), plan, facts)
  {
    if |facts| == |plan| + 1 {
      forall i | 0 <= i < |plan|
        ensures Actuate(steps, facts[i], plan[i]) == Accepted(facts[i + 1]) <==>
                TakesNamed(steps, plan[i], facts[i], facts[i + 1])
      {
        ActuateMeans(steps, facts[i], plan[i], facts[i + 1]);
      }
      hide Actuate;
      hide TakesNamed;
    }
  }

  lemma OffersSteps(initial: Facts, steps: seq<HiddenStep>, id: string, step: HiddenStep)
    requires Names(steps, id, step)
    ensures id in ProcedureWorld(initial, steps).actions
  {
    hide SortBy;
    var ids := Map(OpaqueId, steps);
    var i: nat :| NamesAt(steps, id, i) && steps[i] == step;
    assert ids[i] == id;
    SortByMembers(IdKey, ids);
  }

  /** The actions are the ids of the steps, as often as there are steps, in the order of their text. */
  lemma OfferedInOrder(initial: Facts, steps: seq<HiddenStep>)
    ensures var actions := ProcedureWorld(initial, steps).actions;
            && multiset(actions) == multiset(Map(OpaqueId, steps))
            && forall i, j :: 0 <= i < j < |actions| ==> TextAtMost(actions[i], actions[j])
  {
    hide SortBy;
    hide KeyLeq;
    var actions := ProcedureWorld(initial, steps).actions;
    SortBySorts(IdKey, Map(OpaqueId, steps));
    forall i, j | 0 <= i < j < |actions| ensures TextAtMost(actions[i], actions[j]) {
      TextKeyOrder(actions[i], actions[j]);
    }
  }

  /** What it takes to reach the goal in an opaque procedure, said of its steps. */
  lemma AchievesMeans(initial: Facts, steps: seq<HiddenStep>, plan: seq<string>)
    ensures ReachesGoal(ProcedureWorld(initial, steps), plan) <==> Achieves(initial, steps, plan)
  {
    var w := ProcedureWorld(initial, steps);
    hide Actuate;
    hide Takes;
    if ReachesGoal(w, plan) {
      var facts := RunVisits(w, plan);
      CarriedOutVisits(initial, steps, plan, facts);
    }
    if Achieves(initial, steps, plan) {
      var facts :| CarriedOut(initial, steps, plan, facts) && "done" in facts[|plan|];
      CarriedOutVisits(initial, steps, plan, facts);
      VisitsRun(w, plan, facts);
      forall i | 0 <= i < |plan| ensures plan[i] in w.actions {
        assert TakesNamed(steps, plan[i], facts[i], facts[i + 1]);
        var step :| Names(steps, plan[i], step) && Takes(step, facts[i], facts[i + 1]);
        OffersSteps(initial, steps, plan[i], step);
      }
    }
  }

  ghost function Establishable(steps: seq<HiddenStep>): Facts {
    set s, f | s in steps && f in s.establishes :: f
  }

  /** Every opaque procedure moves within finitely many fact sets, so discovery applies to it unconditionally. */
  lemma ProcedureIsFinite(initial: Facts, steps: seq<HiddenStep>) returns (universe: set<Facts>)
    ensures ClosedUnder(ProcedureWorld(initial, steps), universe)
  {
    var all := initial + Establishable(steps);
    universe := set s: Facts | s <= all;
    var w := ProcedureWorld(initial, steps);
    forall s, a | s in universe && a in w.actions && w.act(s, a).Accepted? ensures w.act(s, a).after in universe {
      var step := StepNamed(steps, a).value;
      assert step.establishes <= Establishable(steps);
    }
  }

  /** Discovery over an opaque procedure finds a shortest plan that can be carried out, if there is one. */
  method DiscoverProcedure(initial: Facts, steps: seq<HiddenStep>) returns (plan: Option<seq<string>>)
    ensures plan.Some? ==>
              Achieves(initial, steps, plan.value) && forall p :: Achieves(initial, steps, p) ==> |plan.value| <= |p|
    ensures plan.None? ==> forall p :: !Achieves(initial, steps, p)
  {
    ghost var universe := ProcedureIsFinite(initial, steps);
    var r := Discover(ProcedureWorld(initial, steps), universe);
    forall p ensures ReachesGoal(ProcedureWorld(initial, steps), p) <==> Achieves(initial, steps, p) {
      AchievesMeans(initial, steps, p);
    }
    hide ReachesGoal;
    hide Achieves;
    return if r.Success? then Some(r.value) else None;
  }
}
