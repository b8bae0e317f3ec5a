/** What whole runs of EnvHarness steps amount to: the world they leave, and the caps they evade. */
module HarnessRuns {
  import opened Outcomes
  import opened Sequences
  import opened HarnessModel
  import Possibility

  function StepOf(a: Action): Operation {
    OpStep(a)
  }

  function Steps(actions: seq<Action>): seq<Operation> {
    Map(StepOf, actions)
  }

  lemma RunAllSnoc(p: Provider, task: Task, s: Session, ops: seq<Operation>, op: Operation)
    ensures RunAll(p, task, s, ops + [op]) == Operate(p, task, RunAll(p, task, s, ops), op)
  {
    assert (ops + [op])[..|ops|] == ops;
  }

  lemma {:induction false} RunAllAppend(p: Provider, task: Task, s: Session, a: seq<Operation>, b: seq<Operation>)
    ensures RunAll(p, task, s, a + b) == RunAll(p, task, RunAll(p, task, s, a), b)
  {
    hide Operate;
    if b == [] {
      assert a + b == a;
    } else {
      assert (a + b)[..|a + b| - 1] == a + b[..|b| - 1];
      RunAllAppend(p, task, s, a, b[..|b| - 1]);
    }
  }

  // ---------------------------------------------------------------- the world as a replay of the history

  /** An environment that keeps its word: restores work, and refusals change nothing. */
  ghost predicate Transactional(p: Provider) {
    && RestoreReinstates(p)
    && (forall current, checkpoint :: Good(p.restore(current, checkpoint).standing))
    && (forall world, intent :: !p.act(world, intent).accepted ==> p.act(world, intent).after == world)
  }

  /** What performing an action makes of the world. */
  function EffectOn(p: Provider, world: State, a: Action): State {
    match p.capability(a.capability)
    case None => world
    case Some(Read) => p.read(world, a.capability, a.payload)
    case Some(Do) => p.act(world, IntentOf(a)).after
  }

  /** The world after performing the actions of a history, in order. */
  function WorldAfter(p: Provider, world: State, history: seq<Action>): State {
    if history == [] then world
    else EffectOn(p, WorldAfter(p, world, history[..|history| - 1]), history[|history| - 1])
  }

  lemma WorldAfterSnoc(p: Provider, world: State, history: seq<Action>, a: Action)
    ensures WorldAfter(p, world, history + [a]) == EffectOn(p, WorldAfter(p, world, history), a)
  {
    assert (history + [a])[..|history|] == history;
  }

  /**
   The steps whose effect stays: a DO that is accepted under a key not used before, and a READ that is
   admitted, whether its postcondition holds or not.
   */
  predicate TakesEffect(p: Provider, task: Task, s: Session, action: Action) {
    var r := StepSpec(p, task, s, action).1;
    match p.capability(r.action.capability)
    case None => false
    case Some(Read) => !r.reason.ContractReason?
    case Some(Do) => r.accepted && action.idempotencyKey !in s.env.replays
  }

  lemma DoStepReplays(p: Provider, s: Session, a: Action)
    requires Transactional(p)
    ensures var (s', r) := DoStep(p, s, a);
            && s'.live == s.live && r.action == a && !r.reason.ContractReason?
            && s'.history == (if r.accepted then s.history + [a] else s.history)
            && s'.env.world == (if r.accepted && a.idempotencyKey !in s.env.replays
                                then p.act(s.env.world, IntentOf(a)).after else s.env.world)
            && forall key :: key in s'.env.replays ==> key in s.env.replays || key == a.idempotencyKey
  {
  }

  /** One step: the world changes by the effect of its final action when that stays, and not otherwise. */
  lemma StepReplays(p: Provider, task: Task, s: Session, action: Action)
    requires Transactional(p)
    ensures var (s', r) := StepSpec(p, task, s, action);
            && s'.live == s.live
            && s'.history == (if r.accepted then s.history + [r.action] else s.history)
            && s'.env.world == (if TakesEffect(p, task, s, action) then EffectOn(p, s.env.world, r.action) else s.env.world)
            && (r.accepted && action.idempotencyKey !in s.env.replays ==> TakesEffect(p, task, s, action))
            && forall key :: key in s'.env.replays ==> key in s.env.replays || key == action.idempotencyKey
  {
    hide AfterRules;
    hide DoStep;
    RulesKeepIdentity(Rules(task), action, p.observe(s.env.world), s.history);
    var d := Decide(task, action, p.observe(s.env.world), s.history);
    DoStepReplays(p, s.(feedback := s.feedback + d.feedback), d.current);
    hide Transactional;
  }

  /** Where reads preserve the state, a step under an unused key takes effect exactly when it is accepted. */
  lemma UnusedKeyStep(p: Provider, task: Task, s: Session, action: Action)
    requires Transactional(p) && ReadsPreserve(p) && action.idempotencyKey !in s.env.replays
    ensures var (s', r) := StepSpec(p, task, s, action);
            s'.env.world == if r.accepted then EffectOn(p, s.env.world, r.action) else s.env.world
  {
    StepReplays(p, task, s, action);
    hide StepSpec;
  }

  /** A run of steps, one step longer. */
  lemma StepsSnoc(p: Provider, task: Task, s: Session, actions: seq<Action>)
    requires actions != [] && RunAll(p, task, s, Steps(actions[..|actions| - 1])).live
    ensures RunAll(p, task, s, Steps(actions)) ==
            StepSpec(p, task, RunAll(p, task, s, Steps(actions[..|actions| - 1])), actions[|actions| - 1]).0
  {
    hide StepSpec;
    MapSnoc(StepOf, actions[..|actions| - 1], actions[|actions| - 1]);
    FrontAndLast(actions);
    RunAllSnoc(p, task, s, Steps(actions[..|actions| - 1]), OpStep(actions[|actions| - 1]));
  }

  /** The final actions of the accepted steps of a run. */
  function Accepted(p: Provider, task: Task, s: Session, actions: seq<Action>): seq<Action> {
    if actions == [] then []
    else
      var front, last := actions[..|actions| - 1], actions[|actions| - 1];
      var r := StepSpec(p, task, RunAll(p, task, s, Steps(front)), last).1;
      Accepted(p, task, s, front) + if r.accepted then [r.action] else []
  }

  /** The final actions of the steps whose effect stayed. */
  function Effective(p: Provider, task: Task, s: Session, actions: seq<Action>): seq<Action> {
    if actions == [] then []
    else
      var front, last := actions[..|actions| - 1], actions[|actions| - 1];
      var before := RunAll(p, task, s, Steps(front));
      Effective(p, task, s, front) + if TakesEffect(p, task, before, last) then [StepSpec(p, task, before, last).1.action] else []
  }

  /**
   What any run of steps amounts to in such an environment, whatever keys it uses: the history grows by
   the accepted actions, and the world is the replay of the effects that stayed. Denied, refused and
   rolled-back steps leave no trace, and neither does a DO that repeats a key; a READ always does.
   */
  lemma {:induction false} WorldIsReplay(p: Provider, task: Task, s: Session, actions: seq<Action>)
    requires Transactional(p) && s.live
    ensures var s' := RunAll(p, task, s, Steps(actions));
            && s'.live && s'.history == s.history + Accepted(p, task, s, actions)
            && s'.env.world == WorldAfter(p, s.env.world, Effective(p, task, s, actions))
  {
    hide StepSpec;
    hide TakesEffect;
    if actions == [] {
      assert s.history + [] == s.history;
    } else {
      var front, last := actions[..|actions| - 1], actions[|actions| - 1];
      WorldIsReplay(p, task, s, front);
      var before := RunAll(p, task, s, Steps(front));
      StepReplays(p, task, before, last);
      StepsSnoc(p, task, s, actions);
      hide Transactional;
      hide EffectOn;
      hide RunAll;
      var effective, accepted := Effective(p, task, s, front), Accepted(p, task, s, front);
      var final := StepSpec(p, task, before, last).1.action;
      WorldAfterSnoc(p, s.env.world, effective, final);
      hide WorldAfter;
      assert effective + [] == effective && accepted + [] == accepted;
      AppendAssociative(s.history, accepted, [final]);
    }
  }

  lemma {:induction false} UsedKeys(p: Provider, task: Task, s: Session, actions: seq<Action>, key: string)
    requires Transactional(p) && s.live && key in RunAll(p, task, s, Steps(actions)).env.replays
    ensures key in s.env.replays || UsesKey(actions, key)
  {
    hide UsesKey;
    hide StepSpec;
    if actions != [] {
      var front, last := actions[..|actions| - 1], actions[|actions| - 1];
      WorldIsReplay(p, task, s, front);
      StepsSnoc(p, task, s, actions);
      StepReplays(p, task, RunAll(p, task, s, Steps(front)), last);
      FrontAndLast(actions);
      UsesKeySnoc(front, last, key);
      if key in RunAll(p, task, s, Steps(front)).env.replays {
        UsedKeys(p, task, s, front, key);
      }
    }
  }

  /** Where keys are distinct and unused and reads preserve the state, the world is the replay of the history. */
  lemma {:induction false} HistoryExplainsWorld(p: Provider, task: Task, s: Session, actions: seq<Action>)
    requires Transactional(p) && ReadsPreserve(p) && s.live && KeysDistinct(actions)
    requires forall a :: a in actions ==> a.idempotencyKey !in s.env.replays
    ensures RunAll(p, task, s, Steps(actions)).env.world == WorldAfter(p, s.env.world, Accepted(p, task, s, actions))
  {
    hide UsesKey;
    hide StepSpec;
    if actions != [] {
      var front, last := actions[..|actions| - 1], actions[|actions| - 1];
      HistoryExplainsWorld(p, task, s, front);
      WorldIsReplay(p, task, s, front);
      StepsSnoc(p, task, s, actions);
      var before := RunAll(p, task, s, Steps(front));
      if last.idempotencyKey in before.env.replays {
        NewKey(actions);
        UsedKeys(p, task, s, front, last.idempotencyKey);
      }
      UnusedKeyStep(p, task, before, last);
      hide Transactional;
      hide ReadsPreserve;
      hide EffectOn;
      hide RunAll;
      var accepted := Accepted(p, task, s, front);
      assert accepted + [] == accepted;
      WorldAfterSnoc(p, s.env.world, accepted, StepSpec(p, task, before, last).1.action);
      hide WorldAfter;
    }
  }

  /** Admission does not look at the expectation. */
  lemma {:induction false} ExpectationIsNotAdmitted(rules: seq<Rule>, action: Action, observed: State, history: seq<Action>)
    ensures var g, h := AfterRules(rules, action, observed, history),
                        AfterRules(rules, action.(expectedAfter := None), observed, history);
            h == g.(current := g.current.(expectedAfter := None))
  {
    if rules != [] {
      ExpectationIsNotAdmitted(rules[..|rules| - 1], action, observed, history);
    }
  }

  lemma SpentKeyIsAnswered(p: Provider, s: Session, a: Action, feedback: seq<string>)
    requires RestoreReinstates(p) && a.idempotencyKey !in s.env.replays
    requires DoStep(p, s, a).1.reason.StepPostconditionFailed?
    ensures var s1 := DoStep(p, s, a).0; var again := a.(expectedAfter := None);
            var (s2, r2) := DoStep(p, s1.(feedback := feedback), again);
            && s1.env.world == s.env.world && s1.history == s.history
            && r2.accepted && r2.action == again && s2.history == s.history + [again]
            && s2.env.world == s.env.world && s2.env.ledger == s1.env.ledger
  {
  }

  /**
   A key is spent even when its step was rolled back: the same action under the same key, now without
   an expectation, is accepted and recorded, and nothing is performed. The history then claims an
   effect the world does not have, unless performing it would have changed nothing.
   */
  lemma RolledBackKeyIsSpent(p: Provider, task: Task, s: Session, action: Action)
    requires RestoreReinstates(p) && action.idempotencyKey !in s.env.replays
    requires StepSpec(p, task, s, action).1.reason.StepPostconditionFailed?
    requires p.capability(StepSpec(p, task, s, action).1.action.capability) == Some(Do)
    ensures var (s1, r1) := StepSpec(p, task, s, action);
            var (s2, r2) := StepSpec(p, task, s1, action.(expectedAfter := None));
            var again := r1.action.(expectedAfter := None);
            && r2.accepted && r2.action == again && s2.history == s.history + [again]
            && s2.env.world == s.env.world && s2.env.ledger == s1.env.ledger
            && (s2.env.world == WorldAfter(p, s.env.world, [again]) <==>
                p.act(s.env.world, IntentOf(again)).after == s.env.world)
  {
    var observed := p.observe(s.env.world);
    RulesKeepIdentity(Rules(task), action, observed, s.history);
    ExpectationIsNotAdmitted(Rules(task), action, observed, s.history);
    HistoryRecordsAcceptedSteps(p, task, s, action);
    hide AfterRules;
    hide DoStep;
    var d := Decide(task, action, observed, s.history);
    var noted := s.(feedback := s.feedback + d.feedback);
    var s1 := DoStep(p, noted, d.current).0;
    assert StepSpec(p, task, s, action) == DoStep(p, noted, d.current);
    SpentKeyIsAnswered(p, noted, d.current, s1.feedback + d.feedback);
    var again := d.current.(expectedAfter := None);
    assert Decide(task, action.(expectedAfter := None), p.observe(s1.env.world), s1.history) == d.(current := again);
    assert StepSpec(p, task, s1, action.(expectedAfter := None)) ==
           DoStep(p, s1.(feedback := s1.feedback + d.feedback), again);
    assert [] + [again] == [again];
    WorldAfterSnoc(p, s.env.world, [], again);
  }

  /** An environment in which every action leaves its mark, and nothing that is expected of it holds. */
  function MarkingProvider(): Provider {
    Provider(
      (t: Task) => Materialization(true, Possibility.Alive, map[]),
      (capability: string) => Some(Do),
      (world: State) => world,
      (world: State, capability: string, payload: State) => world,
      (world: State, intent: Intent) => Actuation(true, Possibility.Alive, world[intent.capability := Atom("done")]),
      (world: State, expected: State) => false,
      (world: State, checkpoint: State) => Restoration(Possibility.Alive, checkpoint),
      (world: State) => Possibility.Alive)
  }

  const OPENED := Session(true, Env(1, map[], map[], []), [], [])

  lemma MarkingOpens(task: Task)
    requires Rules(task) == [] && StageActions(task) == []
    ensures RunAll(MarkingProvider(), task, FRESH, [OpReset]) == OPENED
  {
    var p := MarkingProvider();
    PreflightIff(p, task);
    RunAllSnoc(p, task, FRESH, [], OpReset);
    assert [] + [OpReset] == [OpReset];
    assert RunStage(p, OPENED.env, []) == Running(OPENED.env);
  }

  lemma MarkingRollsBack(task: Task, action: Action)
    requires Rules(task) == [] && action.expectedAfter.Some?
    ensures StepSpec(MarkingProvider(), task, OPENED, action).1.reason.StepPostconditionFailed?
    ensures StepSpec(MarkingProvider(), task, OPENED, action).1.action == action
  {
  }

  /** From the first reset of a task without rules or stage: the history ends with an action the world has no mark of. */
  lemma SpentKeyLeavesNoMark(task: Task, capability: string)
    requires Rules(task) == [] && StageActions(task) == []
    ensures var p := MarkingProvider();
            var action := Action(capability, map[], "key", Some(map[]));
            var s := RunAll(p, task, FRESH, [OpReset, OpStep(action), OpStep(action.(expectedAfter := None))]);
            && s.history == [action.(expectedAfter := None)] && s.env.world == map[]
            && Transactional(p) && ReadsPreserve(p) && WorldAfter(p, map[], s.history) == map[capability := Atom("done")]
  {
    hide RunAll;
    var p, action := MarkingProvider(), Action(capability, map[], "key", Some(map[]));
    var again := action.(expectedAfter := None);
    MarkingOpens(task);
    MarkingRollsBack(task, action);
    RunAllSnoc(p, task, FRESH, [OpReset], OpStep(action));
    RunAllSnoc(p, task, FRESH, [OpReset, OpStep(action)], OpStep(again));
    assert [OpReset] + [OpStep(action)] == [OpReset, OpStep(action)];
    assert [OpReset, OpStep(action)] + [OpStep(again)] == [OpReset, OpStep(action), OpStep(again)];
    HistoryRecordsAcceptedSteps(p, task, OPENED, action);
    RolledBackKeyIsSpent(p, task, OPENED, action);
    hide StepSpec;
    assert [] + [again] == [again];
    WorldAfterSnoc(p, map[], [], again);
  }

  // ---------------------------------------------------------------- evaded caps

  /** Rule `j` turns `d` into `c`, in some states; no earlier rule looks at `d` and no later rule looks at `c`. */
  ghost predicate Evadable(rules: seq<Rule>, j: nat, d: string, c: string) {
    && j < |rules| && c != d
    && rules[j].capability == d && rules[j].effect == Rewrite(c)
    && rules[j].maxConsecutive == None
    && (forall i :: 0 <= i < j ==> rules[i].capability != d)
    && (forall i :: j < i < |rules| ==> rules[i].capability != c)
  }

  lemma {:induction false} UntouchedSoFar(rules: seq<Rule>, action: Action, observed: State, history: seq<Action>)
    requires forall i :: 0 <= i < |rules| ==> rules[i].capability != action.capability
    ensures AfterRules(rules, action, observed, history) == Going(action, "CONTRACT_ADMITTED", [])
  {
    if rules != [] {
      UntouchedSoFar(rules[..|rules| - 1], action, observed, history);
    }
  }

  /** In such a state, whatever was done before, an evading action goes through as `c`. */
  lemma {:induction false} EvadingGoesThrough(rules: seq<Rule>, j: nat, c: string, action: Action, observed: State,
                                              history: seq<Action>)
    requires Evadable(rules, j, action.capability, c) && SubsetOf(rules[j].requiredState, observed)
    ensures AfterRules(rules, action, observed, history).Going?
    ensures AfterRules(rules, action, observed, history).current.capability == c
  {
    var front := rules[..|rules| - 1];
    if j == |rules| - 1 {
      UntouchedSoFar(front, action, observed, history);
    } else {
      EvadingGoesThrough(front, j, c, action, observed, history);
    }
  }

  /** The steps of a run that evades: each asks for `d` under a key of its own. */
  function EvadingSteps(d: string, keys: seq<string>): seq<Action> {
    Map((key: string) => Action(d, map[], key, None), keys)
  }

  /** Every action is accepted and leaves the state as it is. */
  ghost predicate Obliges(p: Provider) {
    forall world, intent :: p.act(world, intent).accepted && p.act(world, intent).after == world
  }

  lemma {:induction false} EvadingRun(p: Provider, task: Task, s: Session, j: nat, d: string, c: string, keys: seq<string>)
    requires s.live && Evadable(Rules(task), j, d, c) && NoDup(keys) && forall key :: key in keys ==> key !in s.env.replays
    requires p.capability(c) == Some(Do) && SubsetOf(Rules(task)[j].requiredState, p.observe(s.env.world))
    requires Obliges(p)
    ensures var s' := RunAll(p, task, s, Steps(EvadingSteps(d, keys)));
            && s'.live && s'.env.world == s.env.world && |s'.history| == |s.history| + |keys| && s.history <= s'.history
            && (forall i :: |s.history| <= i < |s'.history| ==> s'.history[i].capability == c)
            && forall key :: key in s'.env.replays ==> key in s.env.replays || key in keys
  {
    hide SubsetOf;
    hide Evadable;
    hide Obliges;
    if keys != [] {
      var front, last := keys[..|keys| - 1], keys[|keys| - 1];
      EvadingRun(p, task, s, j, d, c, front);
      var s1 := RunAll(p, task, s, Steps(EvadingSteps(d, front)));
      var action := Action(d, map[], last, None);
      assert last !in front;
      EvadingStep(p, task, s1, j, c, action);
      hide StepSpec;
      hide Rules;
      MapSnoc((key: string) => Action(d, map[], key, None), front, last);
      MapSnoc(StepOf, EvadingSteps(d, front), action);
      FrontAndLast(keys);
      RunAllSnoc(p, task, s, Steps(EvadingSteps(d, front)), OpStep(action));
    }
  }

  lemma EvadingStep(p: Provider, task: Task, s: Session, j: nat, c: string, action: Action)
    requires Evadable(Rules(task), j, action.capability, c) && action.idempotencyKey !in s.env.replays
    requires p.capability(c) == Some(Do) && action.expectedAfter.None?
    requires SubsetOf(Rules(task)[j].requiredState, p.observe(s.env.world))
    requires Obliges(p)
    ensures var (s', r) := StepSpec(p, task, s, action);
            && s'.live == s.live && s'.env.world == s.env.world && s'.history == s.history + [r.action] && r.action.capability == c
            && forall key :: key in s'.env.replays ==> key in s.env.replays || key == action.idempotencyKey
  {
    hide AfterRules;
    RulesKeepIdentity(Rules(task), action, p.observe(s.env.world), s.history);
    EvadingGoesThrough(Rules(task), j, c, action, p.observe(s.env.world), s.history);
  }

  /** An environment that starts at `home`, accepts every action and stays where it is unless it is restored. */
  function ObligingProvider(home: State): Provider {
    Provider(
      (t: Task) => Materialization(true, Possibility.Alive, home),
      (capability: string) => Some(Do),
      (world: State) => world,
      (world: State, capability: string, payload: State) => world,
      (world: State, intent: Intent) => Actuation(true, Possibility.Alive, world),
      (world: State, expected: State) => true,
      (world: State, checkpoint: State) => Restoration(Possibility.Alive, checkpoint),
      (world: State) => Possibility.Alive)
  }

  /**
   Where a rewrite to `c` comes after every rule that looks at `c`, no cap on `c` caps in a state the
   rewrite asks for: for every `k` some run of steps from the first reset puts `k + 1` of them in a row.
   */
  lemma EvadedCapsDoNotCap(task: Task, j: nat, d: string, c: string, k: nat, keys: seq<string>, home: State)
    requires Evadable(Rules(task), j, d, c) && SubsetOf(Rules(task)[j].requiredState, home)
    requires StageActions(task) == [] && |keys| == k + 1 && NoDup(keys)
    ensures !NoLongRun(RunAll(ObligingProvider(home), task, FRESH, [OpReset] + Steps(EvadingSteps(d, keys))).history, c, k)
  {
    var p := ObligingProvider(home);
    var s := RunAll(p, task, FRESH, [OpReset]);
    LiveAfterReset(task, home);
    RunAllAppend(p, task, FRESH, [OpReset], Steps(EvadingSteps(d, keys)));
    EvadingRun(p, task, s, j, d, c, keys);
    assert LongRunAt(RunAll(p, task, s, Steps(EvadingSteps(d, keys))).history, 0, c, k);
  }

  lemma LiveAfterReset(task: Task, home: State)
    requires StageActions(task) == []
    ensures var s := RunAll(ObligingProvider(home), task, FRESH, [OpReset]);
            s.live && s.history == [] && s.env.replays == map[] && s.env.world == home
  {
    var p := ObligingProvider(home);
    PreflightIff(p, task);
    assert [OpReset][..0] == [];
    assert RunAll(p, task, FRESH, []) == FRESH;
    assert RunStage(p, NewEpisode(FRESH.env, home), []) == Running(NewEpisode(FRESH.env, home));
  }

  lemma {:induction false} MatchesItself(value: Value)
    ensures Matches(value, value)
  {
    match value
    case Atom(_) =>
    case Dict(entries) =>
      forall k | k in entries ensures Matches(entries[k], entries[k]) {
        MatchesItself(entries[k]);
      }
  }

  lemma SubsetOfItself(state: State)
    ensures SubsetOf(state, state)
  {
    forall key | key in state ensures Matches(state[key], state[key]) {
      MatchesItself(state[key]);
    }
  }

  /** The cap itself does not help: with it in front of a rewrite, two `d` steps leave two `c` in a row where the rewrite applies. */
  lemma CapBeforeRewriteIsEvaded(c: string, d: string, required: State)
    requires c != d
    ensures var cap := Rule(c, Deny, map[], map[], Merge, Some(1), "CAP", "");
            var rewrite := Rule(d, Rewrite(c), required, map[], Merge, None, "REWRITE", "");
            var task := Task("provider", "", map[], [], [Contract([cap, rewrite])]);
            var ops := [OpReset, OpStep(Action(d, map[], "1", None)), OpStep(Action(d, map[], "2", None))];
            !NoLongRun(RunAll(ObligingProvider(required), task, FRESH, ops).history, c, 1)
  {
    var cap := Rule(c, Deny, map[], map[], Merge, Some(1), "CAP", "");
    var rewrite := Rule(d, Rewrite(c), required, map[], Merge, None, "REWRITE", "");
    var task := Task("provider", "", map[], [], [Contract([cap, rewrite])]);
    FlatMapOne(RulesOf, Contract([cap, rewrite]));
    assert Rules(task) == [cap, rewrite] && StageActions(task) == [];
    var keys := ["1", "2"];
    assert keys[0] != keys[1];
    SubsetOfItself(required);
    EvadedCapsDoNotCap(task, 1, d, c, 1, keys, required);
    assert [OpReset] + Steps(EvadingSteps(d, keys)) ==
           [OpReset, OpStep(Action(d, map[], "1", None)), OpStep(Action(d, map[], "2", None))];
  }
}
