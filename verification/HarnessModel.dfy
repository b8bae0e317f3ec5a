/**
 What an EnvHarness session does (`src/gymact/envharness.py`), as functions of the session's
 state: rule-driven admission, transactional reset and transactional step. The runtime below the
 harness is a parameter; its answers are functions of the environment's state.
 */
module HarnessModel {
  import opened Outcomes
  import opened Sequences
  import Possibility

  type Standing = Possibility.Standing

  predicate Good(standing: Standing) {
    standing.Alive? || standing.PartialAlive?
  }

  /** A JSON-like value; observations and payloads are dictionaries of them. */
  datatype Value = Atom(text: string) | Dict(entries: State)

  type State = map<string, Value>

  /** `_subset` on one value. */
  predicate Matches(expected: Value, actual: Value)
    decreases expected
  {
    match expected
    case Atom(_) => expected == actual
    case Dict(entries) =>
      actual.Dict? && forall k :: k in entries ==> k in actual.entries && Matches(entries[k], actual.entries[k])
  }

  predicate SubsetOf(required: State, observed: State) {
    forall k :: k in required ==> k in observed && Matches(required[k], observed[k])
  }

  // ---------------------------------------------------------------- tasks

  datatype Action = Action(capability: string, payload: State, idempotencyKey: string, expectedAfter: Option<State>)

  datatype Effect = Allow | Deny | Rewrite(target: string)

  datatype PayloadMode = Merge | Replace

  datatype Rule = Rule(
    capability: string, effect: Effect, requiredState: State, payloadOverrides: State, payloadMode: PayloadMode,
    maxConsecutive: Option<nat>, reason: string, feedback: string)

  datatype Contract = Contract(rules: seq<Rule>)

  datatype Stage = Stage(actions: seq<Action>)

  datatype Task = Task(provider: string, scenario: string, goal: State, stages: seq<Stage>, contracts: seq<Contract>)

  function RulesOf(c: Contract): seq<Rule> {
    c.rules
  }

  function ActionsOf(s: Stage): seq<Action> {
    s.actions
  }

  /** The rules in the order admission meets them. */
  function Rules(task: Task): seq<Rule> {
    FlatMap(RulesOf, task.contracts)
  }

  function StageActions(task: Task): seq<Action> {
    FlatMap(ActionsOf, task.stages)
  }

  // ---------------------------------------------------------------- the runtime

  datatype Consequence = Read | Do

  datatype Intent = Intent(capability: string, payload: State, idempotencyKey: string)

  datatype Materialization = Materialization(accepted: bool, standing: Standing, world: State)

  datatype Actuation = Actuation(accepted: bool, standing: Standing, after: State)

  datatype Restoration = Restoration(standing: Standing, after: State)

  /**
   The environment behind the runtime. Its state is what a checkpoint holds; an observation may show
   less of it. A READ capability is performed like any other and may leave another state behind:
   nothing in the runtime checks that it does not.
   */
  datatype Provider = Provider(
    materialize: Task -> Materialization,
    capability: string -> Option<Consequence>,
    observe: State -> State,
    read: (State, string, State) -> State,
    act: (State, Intent) -> Actuation,
    verify: (State, State) -> bool,
    restore: (State, State) -> Restoration,
    teardown: State -> Standing)

  /** A restore that stands good has reinstated the checkpoint. */
  ghost predicate RestoreReinstates(p: Provider) {
    forall current, checkpoint :: Good(p.restore(current, checkpoint).standing) ==>
      p.restore(current, checkpoint).after == checkpoint
  }

  /** No READ capability changes the state. */
  ghost predicate ReadsPreserve(p: Provider) {
    forall world, capability, payload :: p.read(world, capability, payload) == world
  }

  /** The last result recorded for an idempotency key, with the intent it was recorded for. */
  datatype Replay = Replay(intent: Intent, result: Actuation)

  /** An intent that reached the environment, in the episode it did. */
  datatype Performed = Performed(episode: nat, intent: Intent)

  /**
   The current episode as the runtime keeps it. `replays` are the results it answers repeated keys
   with; `ledger` lists, over all episodes, the intents that got past them.
   */
  datatype Env = Env(episode: nat, world: State, replays: map<string, Replay>, ledger: seq<Performed>)

  /** `GymAct.act`: a repeated key is answered from the record, or refused when the intent differs. */
  function ActOn(p: Provider, e: Env, intent: Intent): (Env, Actuation) {
    var key := intent.idempotencyKey;
    if key in e.replays then
      (e, if e.replays[key].intent == intent then e.replays[key].result
          else Actuation(false, Possibility.Refused, e.world))
    else
      var result := p.act(e.world, intent);
      (Env(e.episode, result.after, e.replays[key := Replay(intent, result)], e.ledger + [Performed(e.episode, intent)]),
       result)
  }

  function IntentOf(a: Action): Intent {
    Intent(a.capability, a.payload, a.idempotencyKey)
  }

  // ---------------------------------------------------------------- admission

  /** How many of the last actions in a row have this capability. */
  function TailRun(history: seq<Action>, capability: string): nat {
    if history == [] || history[|history| - 1].capability != capability then 0
    else TailRun(history[..|history| - 1], capability) + 1
  }

  datatype Progress =
    | Going(current: Action, reason: string, feedback: seq<string>)
    | Denied(current: Action, reason: string, feedback: seq<string>)

  predicate Applies(rule: Rule, current: Action, observed: State, history: seq<Action>) {
    && rule.capability == current.capability
    && SubsetOf(rule.requiredState, observed)
    && (rule.maxConsecutive.Some? ==> TailRun(history, current.capability) >= rule.maxConsecutive.value)
  }

  function Rewritten(rule: Rule, current: Action): Action {
    Action(if rule.effect.Rewrite? then rule.effect.target else current.capability,
           (if rule.payloadMode.Replace? then map[] else current.payload) + rule.payloadOverrides,
           current.idempotencyKey, current.expectedAfter)
  }

  function ApplyRule(rule: Rule, g: Progress, observed: State, history: seq<Action>): Progress
    requires g.Going?
  {
    if !Applies(rule, g.current, observed, history) then g
    else
      var feedback := if rule.feedback != "" then g.feedback + [rule.feedback] else g.feedback;
      if rule.effect.Deny? then Denied(g.current, rule.reason, feedback)
      else Going(Rewritten(rule, g.current), rule.reason, feedback)
  }

  /** Where admission stands after some rules. */
  function AfterRules(rules: seq<Rule>, action: Action, observed: State, history: seq<Action>): Progress {
    if rules == [] then Going(action, "CONTRACT_ADMITTED", [])
    else
      var g := AfterRules(rules[..|rules| - 1], action, observed, history);
      if g.Denied? then g else ApplyRule(rules[|rules| - 1], g, observed, history)
  }

  function Decide(task: Task, action: Action, observed: State, history: seq<Action>): Progress {
    AfterRules(Rules(task), action, observed, history)
  }

  // ---------------------------------------------------------------- sessions

  datatype Session = Session(live: bool, env: Env, history: seq<Action>, feedback: seq<string>)

  datatype StepReason =
    | ContractReason(reason: string) | UnknownCapability | StepPostconditionFailed | RollbackFailed
    | ActuationRefused | StepAccepted

  datatype StepResult = StepResult(
    accepted: bool, standing: Standing, action: Action, reason: StepReason, actuation: Option<Actuation>,
    rollback: Option<Standing>)

  predicate PostconditionHolds(p: Provider, world: State, a: Action) {
    a.expectedAfter.None? || p.verify(world, a.expectedAfter.value)
  }

  function StepSpec(p: Provider, task: Task, s: Session, action: Action): (Session, StepResult) {
    var d := Decide(task, action, p.observe(s.env.world), s.history);
    var noted := s.(feedback := s.feedback + d.feedback);
    if d.Denied? then (noted, StepResult(false, Possibility.Refused, d.current, ContractReason(d.reason), None, None))
    else
      match p.capability(d.current.capability)
      case None => (noted, StepResult(false, Possibility.Unsupported, d.current, UnknownCapability, None, None))
      case Some(Read) => ReadStep(p, noted, d.current)
      case Some(Do) => DoStep(p, noted, d.current)
  }

  /** A READ step: read, verify; there is no checkpoint and no rollback. */
  function ReadStep(p: Provider, s: Session, a: Action): (Session, StepResult) {
    var read := s.(env := s.env.(world := p.read(s.env.world, a.capability, a.payload)));
    if !PostconditionHolds(p, read.env.world, a) then
      (read, StepResult(false, Possibility.Refused, a, StepPostconditionFailed, None, None))
    else (read.(history := s.history + [a]), StepResult(true, Possibility.Alive, a, StepAccepted, None, None))
  }

  /** A consequential step: act, verify, and roll back when the postcondition fails. */
  function DoStep(p: Provider, s: Session, a: Action): (Session, StepResult) {
    var (env, actuation) := ActOn(p, s.env, IntentOf(a));
    var acted := s.(env := env);
    if !actuation.accepted then
      (acted, StepResult(false, actuation.standing, a, ActuationRefused, Some(actuation), None))
    else if !PostconditionHolds(p, env.world, a) then
      var restored := p.restore(env.world, s.env.world);
      var good := Good(restored.standing);
      (acted.(env := env.(world := restored.after)),
       StepResult(false, if good then Possibility.Refused else restored.standing, a,
                  if good then StepPostconditionFailed else RollbackFailed, Some(actuation), Some(restored.standing)))
    else
      (acted.(history := s.history + [a]),
       StepResult(true, actuation.standing, a, StepAccepted, Some(actuation), None))
  }

  datatype Admission = HarnessAdmitted | StageCapabilityUnsupported | StageRequiresDo | RewriteTargetUnsupported

  /** The first stage action, if any, the runtime cannot perform. */
  function StageProblem(p: Provider, actions: seq<Action>): Admission {
    if actions == [] then HarnessAdmitted
    else
      var before := StageProblem(p, actions[..|actions| - 1]);
      if !before.HarnessAdmitted? then before
      else
        match p.capability(actions[|actions| - 1].capability)
        case None => StageCapabilityUnsupported
        case Some(Read) => StageRequiresDo
        case Some(Do) => HarnessAdmitted
  }

  predicate TargetSupported(p: Provider, rule: Rule) {
    rule.effect.Rewrite? ==> p.capability(rule.effect.target).Some?
  }

  function AdmitHarness(p: Provider, task: Task): Admission {
    var stage := StageProblem(p, StageActions(task));
    if !stage.HarnessAdmitted? then stage
    else if exists r :: r in Rules(task) && !TargetSupported(p, r) then RewriteTargetUnsupported
    else HarnessAdmitted
  }

  datatype StageRun = Running(env: Env) | StageFailed(env: Env, standing: Standing)

  /** Applying the stage's actions, up to the first that fails. */
  function RunStage(p: Provider, env: Env, actions: seq<Action>): StageRun {
    if actions == [] then Running(env)
    else
      var before := RunStage(p, env, actions[..|actions| - 1]);
      if before.StageFailed? then before else StageStep(p, before.env, actions[|actions| - 1])
  }

  function StageStep(p: Provider, e: Env, a: Action): StageRun {
    var (env, actuation) := ActOn(p, e, IntentOf(a));
    if !actuation.accepted then StageFailed(env, actuation.standing)
    else if !PostconditionHolds(p, env.world, a) then StageFailed(env, Possibility.Refused)
    else Running(env)
  }

  datatype ResetResult =
    | NotMaterialized(standing: Standing)
    | NotAdmitted(admission: Admission, cleanup: Standing)
    | StageRolledBack(standing: Standing, rollback: Standing)
    | StageRollbackFailed(rollback: Standing)
    | ResetAccepted

  datatype SessionError = NotReset | PriorTeardown(standing: Standing)

  /** The environment of a new episode: its own world, and no key used yet. */
  function NewEpisode(e: Env, world: State): Env {
    Env(e.episode + 1, world, map[], e.ledger)
  }

  /** The session left by `reset`, and what it returns or raises. */
  function ResetSpec(p: Provider, task: Task, s: Session): (Session, Result<ResetResult, SessionError>) {
    if s.live && !Good(p.teardown(s.env.world)) then (s, Failure(PriorTeardown(p.teardown(s.env.world))))
    else
      var m := p.materialize(task);
      if !m.accepted then (s.(live := false), Success(NotMaterialized(m.standing)))
      else
        var reopened := Session(true, NewEpisode(s.env, m.world), [], []);
        var admission := AdmitHarness(p, task);
        if !admission.HarnessAdmitted? then
          (reopened.(live := !Good(p.teardown(m.world))), Success(NotAdmitted(admission, p.teardown(m.world))))
        else
          match RunStage(p, reopened.env, StageActions(task))
          case Running(env) => (reopened.(env := env), Success(ResetAccepted))
          case StageFailed(env, standing) =>
            var restored := p.restore(env.world, m.world);
            (reopened.(env := env.(world := restored.after)),
             Success(if Good(restored.standing) then StageRolledBack(standing, restored.standing)
                     else StageRollbackFailed(restored.standing)))
  }

  // ---------------------------------------------------------------- transactions

  /** History grows by exactly the final, rewritten action when the step is accepted, and not otherwise. */
  lemma HistoryRecordsAcceptedSteps(p: Provider, task: Task, s: Session, action: Action)
    ensures var (s', r) := StepSpec(p, task, s, action);
            var d := Decide(task, action, p.observe(s.env.world), s.history);
            && r.action == d.current
            && s'.history == (if r.accepted then s.history + [d.current] else s.history)
            && s'.live == s.live
            && s'.feedback == s.feedback + d.feedback
  {
  }

  /**
   What a step does to the environment, whatever becomes of it: a denied or unknown action nothing;
   a READ what its capability does to the state, and no more; a DO performs its intent at most once,
   and not at all under a key the episode has used.
   */
  lemma NothingDoneUnlessActed(p: Provider, task: Task, s: Session, action: Action)
    ensures var (s', r) := StepSpec(p, task, s, action);
            var d := Decide(task, action, p.observe(s.env.world), s.history);
            var a := d.current;
            && (d.Denied? || p.capability(a.capability).None? ==> s'.env == s.env)
            && (d.Going? && p.capability(a.capability) == Some(Read) ==>
                  s'.env == s.env.(world := p.read(s.env.world, a.capability, a.payload)))
            && (r.actuation.Some? <==> d.Going? && p.capability(a.capability) == Some(Do))
            && (r.actuation.Some? ==>
                  s'.env.ledger == s.env.ledger +
                    (if a.idempotencyKey in s.env.replays then [] else [Performed(s.env.episode, IntentOf(a))]))
  {
  }

  /** A DO step whose postcondition fails leaves world and history as before, if its rollback stands good. */
  lemma FailedPostconditionRollsBack(p: Provider, task: Task, s: Session, action: Action)
    requires RestoreReinstates(p)
    requires p.capability(Decide(task, action, p.observe(s.env.world), s.history).current.capability) == Some(Do)
    ensures var (s', r) := StepSpec(p, task, s, action);
            && (r.reason.StepPostconditionFailed? ==>
                  !r.accepted && s'.env.world == s.env.world && s'.history == s.history)
            && (r.reason.RollbackFailed? ==>
                  !r.accepted && s'.history == s.history && r.rollback.Some? && !Good(r.rollback.value))
  {
  }

  /**
   A READ step whose postcondition fails is not rolled back: the world is as before exactly when the
   read itself left it so.
   */
  lemma FailedReadIsKept(p: Provider, task: Task, s: Session, action: Action)
    requires p.capability(Decide(task, action, p.observe(s.env.world), s.history).current.capability) == Some(Read)
    requires StepSpec(p, task, s, action).1.reason.StepPostconditionFailed?
    ensures var (s', r) := StepSpec(p, task, s, action);
            && !r.accepted && r.rollback.None? && s'.history == s.history
            && (s'.env.world == s.env.world <==> p.read(s.env.world, r.action.capability, r.action.payload) == s.env.world)
  {
  }

  /** Where reads preserve the state, every step that fails its postcondition leaves the world as it was. */
  lemma FailedStepLeavesTheWorld(p: Provider, task: Task, s: Session, action: Action)
    requires RestoreReinstates(p) && ReadsPreserve(p)
    requires StepSpec(p, task, s, action).1.reason.StepPostconditionFailed?
    ensures StepSpec(p, task, s, action).0.env.world == s.env.world
    ensures StepSpec(p, task, s, action).0.history == s.history
  {
  }

  const SAMPLES := "sample_count"

  /** One sample more. */
  function Sampled(world: State): State {
    var before := if SAMPLES in world && world[SAMPLES].Atom? then world[SAMPLES].text else "";
    world[SAMPLES := Atom(before + "|")]
  }

  /** An environment whose one capability draws a sample: a READ counted in the checkpoint and not in what is observed. */
  function SamplingProvider(): Provider {
    Provider(
      (t: Task) => Materialization(true, Possibility.Alive, map[]),
      (capability: string) => Some(Read),
      (world: State) => world - {SAMPLES},
      (world: State, capability: string, payload: State) => Sampled(world),
      (world: State, intent: Intent) => Actuation(true, Possibility.Alive, world),
      (world: State, expected: State) => SubsetOf(expected, world - {SAMPLES}),
      (world: State, checkpoint: State) => Restoration(Possibility.Alive, checkpoint),
      (world: State) => Possibility.Alive)
  }

  lemma SampledDiffers(world: State)
    ensures Sampled(world) != world && Sampled(world) - {SAMPLES} == world - {SAMPLES}
  {
    if SAMPLES in world && world[SAMPLES].Atom? {
      assert |world[SAMPLES].text + "|"| == |world[SAMPLES].text| + 1;
    }
    assert SAMPLES in world ==> Sampled(world)[SAMPLES] != world[SAMPLES];
  }

  /**
   In that environment every READ step that fails its postcondition leaves another state behind, with
   nothing of it to be seen; and there is such a step.
   */
  lemma FailedReadChangesTheWorld(task: Task, s: Session, action: Action)
    ensures RestoreReinstates(SamplingProvider())
    ensures var p := SamplingProvider(); var (s', r) := StepSpec(p, task, s, action);
            r.reason.StepPostconditionFailed? ==>
              s'.env.world != s.env.world && p.observe(s'.env.world) == p.observe(s.env.world)
    ensures Rules(task) == [] && s.env.world == map[] && action.expectedAfter == Some(map["drawn" := Atom("yes")]) ==>
              StepSpec(SamplingProvider(), task, s, action).1.reason.StepPostconditionFailed?
  {
    SampledDiffers(s.env.world);
    var expected: State := map["drawn" := Atom("yes")];
    assert "drawn" in expected && "drawn" != SAMPLES;
    assert s.env.world == map[] ==> "drawn" !in Sampled(s.env.world) - {SAMPLES};
  }

  /** An accepted step met its postcondition in the world it left. */
  lemma AcceptedStepsVerified(p: Provider, task: Task, s: Session, action: Action)
    ensures var (s', r) := StepSpec(p, task, s, action);
            r.accepted ==> PostconditionHolds(p, s'.env.world, r.action)
  {
  }

  /** The record of an episode only grows within it; restoring the world does not give keys back. */
  ghost predicate Continues(before: Env, after: Env) {
    && after.episode == before.episode && before.ledger <= after.ledger
    && (forall key :: key in before.replays ==> key in after.replays && after.replays[key] == before.replays[key])
  }

  lemma {:induction false} StageContinues(p: Provider, env: Env, actions: seq<Action>)
    ensures Continues(env, RunStage(p, env, actions).env)
  {
    if actions != [] {
      StageContinues(p, env, actions[..|actions| - 1]);
    }
  }

  /**
   A transactional reset: whatever number of actions a failing stage performed, the world is back at
   its baseline once the rollback stands good; and a harness that fails preflight performs no action.
   */
  lemma ResetIsTransactional(p: Provider, task: Task, s: Session)
    requires RestoreReinstates(p)
    ensures var (s', r) := ResetSpec(p, task, s);
            && (r.Success? && r.value.StageRolledBack? ==> s'.env.world == p.materialize(task).world && s'.history == [])
            && (r.Success? && r.value.NotAdmitted? ==>
                  s'.env.ledger == s.env.ledger && s'.env.world == p.materialize(task).world)
            && (r.Success? && r.value.NotMaterialized? ==> s'.env == s.env)
            && (r.Failure? ==> s' == s)
            && s.env.ledger <= s'.env.ledger
  {
    StageContinues(p, NewEpisode(s.env, p.materialize(task).world), StageActions(task));
  }

  /** Preflight passes exactly when every stage action is a DO capability and every rewrite target exists. */
  lemma PreflightIff(p: Provider, task: Task)
    ensures AdmitHarness(p, task).HarnessAdmitted? <==>
            && (forall a :: a in StageActions(task) ==> p.capability(a.capability) == Some(Do))
            && (forall r :: r in Rules(task) ==> TargetSupported(p, r))
  {
    StageProblemIff(p, StageActions(task));
  }

  lemma {:induction false} StageProblemIff(p: Provider, actions: seq<Action>)
    ensures StageProblem(p, actions).HarnessAdmitted? <==> forall a :: a in actions ==> p.capability(a.capability) == Some(Do)
  {
    if actions != [] {
      FrontAndLast(actions);
      StageProblemIff(p, actions[..|actions| - 1]);
    }
  }

  predicate UsesKey(actions: seq<Action>, key: string) {
    exists a :: a in actions && a.idempotencyKey == key
  }

  /** The actions that use their idempotency key first. */
  function FirstOfKeys(actions: seq<Action>): seq<Action> {
    if actions == [] then []
    else
      var front, last := actions[..|actions| - 1], actions[|actions| - 1];
      FirstOfKeys(front) + if UsesKey(front, last.idempotencyKey) then [] else [last]
  }

  ghost predicate KeysDistinct(actions: seq<Action>) {
    forall i, j :: 0 <= i < j < |actions| ==> actions[i].idempotencyKey != actions[j].idempotencyKey
  }

  lemma UsesKeySnoc(actions: seq<Action>, a: Action, key: string)
    ensures UsesKey(actions + [a], key) <==> UsesKey(actions, key) || a.idempotencyKey == key
  {
    if UsesKey(actions, key) {
      var x :| x in actions && x.idempotencyKey == key;
      assert x in actions + [a];
    }
    assert a in actions + [a];
  }

  lemma NewKey(actions: seq<Action>)
    requires KeysDistinct(actions) && actions != []
    ensures !UsesKey(actions[..|actions| - 1], actions[|actions| - 1].idempotencyKey)
  {
    forall a | a in actions[..|actions| - 1] ensures a.idempotencyKey != actions[|actions| - 1].idempotencyKey {
      var i :| 0 <= i < |actions| - 1 && actions[i] == a;
    }
  }

  lemma {:induction false} DistinctKeysAllFirst(actions: seq<Action>)
    requires KeysDistinct(actions)
    ensures FirstOfKeys(actions) == actions
  {
    hide UsesKey;
    if actions != [] {
      FrontAndLast(actions);
      DistinctKeysAllFirst(actions[..|actions| - 1]);
      NewKey(actions);
    }
  }

  function PerformedIn(episode: nat): Action -> Performed {
    (a: Action) => Performed(episode, IntentOf(a))
  }

  lemma MapSnoc<A, B>(f: A -> B, s: seq<A>, x: A)
    ensures Map(f, s + [x]) == Map(f, s) + [f(x)]
  {
  }

  lemma {:induction false} StagePerforms(p: Provider, env: Env, actions: seq<Action>)
    requires env.replays == map[] && RunStage(p, env, actions).Running?
    ensures var e := RunStage(p, env, actions).env;
            && e.ledger == env.ledger + Map(PerformedIn(env.episode), FirstOfKeys(actions))
            && e.episode == env.episode
            && forall key :: key in e.replays <==> UsesKey(actions, key)
  {
    hide UsesKey;
    if actions == [] {
      assert forall key :: !UsesKey([], key) by {
        NoKeys();
      }
    } else {
      var front, last := actions[..|actions| - 1], actions[|actions| - 1];
      FrontAndLast(actions);
      StagePerforms(p, env, front);
      MapSnoc(PerformedIn(env.episode), FirstOfKeys(front), last);
      hide Map;
      forall key ensures UsesKey(actions, key) <==> UsesKey(front, key) || last.idempotencyKey == key {
        UsesKeySnoc(front, last, key);
      }
    }
  }

  lemma NoKeys()
    ensures forall key :: !UsesKey([], key)
  {
  }

  /**
   An accepted reset handed its stage to the environment in order, each idempotency key once: an
   action that repeats a key is answered from the record and not performed again. Where keys are
   distinct, that is every action of the stage. It starts with an empty history.
   */
  lemma AcceptedResetRanTheStage(p: Provider, task: Task, s: Session)
    requires ResetSpec(p, task, s).1 == Success(ResetAccepted)
    ensures var s' := ResetSpec(p, task, s).0; var stage := StageActions(task);
            && s'.live && s'.history == [] && s'.feedback == [] && s'.env.episode == s.env.episode + 1
            && s'.env.ledger == s.env.ledger + Map(PerformedIn(s'.env.episode), FirstOfKeys(stage))
            && (KeysDistinct(stage) ==> FirstOfKeys(stage) == stage)
            && forall a :: a in stage ==> p.capability(a.capability) == Some(Do)
  {
    hide FirstOfKeys;
    PreflightIff(p, task);
    StagePerforms(p, NewEpisode(s.env, p.materialize(task).world), StageActions(task));
    if KeysDistinct(StageActions(task)) {
      DistinctKeysAllFirst(StageActions(task));
    }
  }

  // ---------------------------------------------------------------- what the rules decide

  /** Rule `n` is a deny rule that applies to the action as the rules before it left it. */
  ghost predicate DeniedBy(rules: seq<Rule>, n: nat, action: Action, observed: State, history: seq<Action>) {
    && n < |rules| && AfterRules(rules[..n], action, observed, history).Going?
    && rules[n].effect.Deny? && Applies(rules[n], AfterRules(rules[..n], action, observed, history).current, observed, history)
  }

  /** An action is denied exactly when some deny rule applies to what the earlier rules made of it. */
  lemma {:induction false} DeniedIff(rules: seq<Rule>, action: Action, observed: State, history: seq<Action>)
    ensures AfterRules(rules, action, observed, history).Denied? <==>
            exists n: nat :: DeniedBy(rules, n, action, observed, history)
  {
    if rules != [] {
      var front, last := rules[..|rules| - 1], |rules| - 1;
      DeniedIff(front, action, observed, history);
      if n: nat :| DeniedBy(front, n, action, observed, history) {
        assert front[..n] == rules[..n];
        assert DeniedBy(rules, n, action, observed, history);
      } else if AfterRules(rules, action, observed, history).Denied? {
        assert DeniedBy(rules, last, action, observed, history);
      }
      if n: nat :| DeniedBy(rules, n, action, observed, history) {
        if n < last {
          assert front[..n] == rules[..n];
          assert DeniedBy(front, n, action, observed, history);
        }
      }
    }
  }

  /** Rules may change capability and payload; the idempotency key and the postcondition stay the caller's. */
  lemma {:induction false} RulesKeepIdentity(rules: seq<Rule>, action: Action, observed: State, history: seq<Action>)
    ensures var g := AfterRules(rules, action, observed, history);
            g.current.idempotencyKey == action.idempotencyKey && g.current.expectedAfter == action.expectedAfter
  {
    if rules != [] {
      RulesKeepIdentity(rules[..|rules| - 1], action, observed, history);
    }
  }

  // ---------------------------------------------------------------- the repetition cap

  /** The `k + 1` actions from `i` on all have capability `c`. */
  ghost predicate LongRunAt(history: seq<Action>, i: nat, c: string, k: nat) {
    i + k < |history| && forall j :: i <= j <= i + k ==> history[j].capability == c
  }

  /** No `k + 1` actions in a row have capability `c`. */
  ghost predicate NoLongRun(history: seq<Action>, c: string, k: nat) {
    forall i: nat :: !LongRunAt(history, i, c, k)
  }

  lemma {:induction false} TailRunCounts(history: seq<Action>, c: string)
    ensures var n := TailRun(history, c);
            && n <= |history|
            && (forall j :: |history| - n <= j < |history| ==> history[j].capability == c)
            && (n < |history| ==> history[|history| - n - 1].capability != c)
  {
    if history != [] && history[|history| - 1].capability == c {
      TailRunCounts(history[..|history| - 1], c);
    }
  }

  lemma NoLongRunSnoc(history: seq<Action>, a: Action, c: string, k: nat)
    requires NoLongRun(history, c, k)
    requires a.capability == c ==> TailRun(history, c) < k
    ensures NoLongRun(history + [a], c, k)
  {
    forall i: nat ensures !LongRunAt(history + [a], i, c, k) {
      if LongRunAt(history + [a], i, c, k) {
        LongRunBefore(history, a, i, c, k);
      }
    }
  }

  lemma LongRunBefore(history: seq<Action>, a: Action, i: nat, c: string, k: nat)
    requires LongRunAt(history + [a], i, c, k)
    ensures LongRunAt(history, i, c, k) || (a.capability == c && TailRun(history, c) >= k)
  {
    var longer := history + [a];
    TailRunCounts(history, c);
    assert longer[|history|] == a;
    assert forall j :: 0 <= j < |history| ==> longer[j] == history[j];
  }

  /** A deny rule capping `c` at `k` in a row, whatever the state, after every rewrite that produces `c`. */
  ghost predicate Caps(rules: seq<Rule>, n: nat, c: string, k: nat) {
    && n < |rules|
    && rules[n].capability == c && rules[n].effect.Deny? && rules[n].requiredState == map[]
    && rules[n].maxConsecutive == Some(k)
    && forall i :: n < i < |rules| ==> rules[i].effect != Rewrite(c)
  }

  /** An admitted `c` was already `c` at the cap, and the cap let it pass. */
  lemma {:induction false} CapEnforced(rules: seq<Rule>, n: nat, c: string, k: nat, action: Action, observed: State,
                                       history: seq<Action>)
    requires Caps(rules, n, c, k)
    requires AfterRules(rules, action, observed, history).Going?
    requires AfterRules(rules, action, observed, history).current.capability == c
    ensures TailRun(history, c) < k
  {
    if n < |rules| - 1 {
      CapEnforced(rules[..|rules| - 1], n, c, k, action, observed, history);
    }
  }

  lemma StepKeepsCap(p: Provider, task: Task, s: Session, action: Action, n: nat, c: string, k: nat)
    requires Caps(Rules(task), n, c, k) && NoLongRun(s.history, c, k)
    ensures NoLongRun(StepSpec(p, task, s, action).0.history, c, k)
  {
    HistoryRecordsAcceptedSteps(p, task, s, action);
    var (s', r) := StepSpec(p, task, s, action);
    if r.accepted {
      var d := Decide(task, action, p.observe(s.env.world), s.history);
      if d.current.capability == c {
        CapEnforced(Rules(task), n, c, k, action, p.observe(s.env.world), s.history);
      }
      NoLongRunSnoc(s.history, d.current, c, k);
    }
  }

  // ---------------------------------------------------------------- whole runs

  datatype Operation = OpReset | OpStep(action: Action) | OpRestore(checkpoint: State) | OpTeardown

  /** One public operation; what a session that is not live refuses leaves it as it is. */
  function Operate(p: Provider, task: Task, s: Session, op: Operation): Session {
    match op
    case OpReset => ResetSpec(p, task, s).0
    case OpStep(action) => if s.live then StepSpec(p, task, s, action).0 else s
    case OpRestore(checkpoint) =>
      if s.live then s.(env := s.env.(world := p.restore(s.env.world, checkpoint).after)) else s
    case OpTeardown => if s.live then s.(live := !Good(p.teardown(s.env.world))) else s
  }

  function RunAll(p: Provider, task: Task, s: Session, ops: seq<Operation>): Session {
    if ops == [] then s else Operate(p, task, RunAll(p, task, s, ops[..|ops| - 1]), ops[|ops| - 1])
  }

  const FRESH := Session(false, Env(0, map[], map[], []), [], [])

  /**
   The whole-run repetition cap: in every session state any sequence of operations reaches, the
   history holds no `k + 1` consecutive `c` actions.
   */
  lemma {:induction false} RepetitionCapHolds(p: Provider, task: Task, ops: seq<Operation>, n: nat, c: string, k: nat)
    requires Caps(Rules(task), n, c, k)
    ensures NoLongRun(RunAll(p, task, FRESH, ops).history, c, k)
  {
    if ops != [] {
      var before := RunAll(p, task, FRESH, ops[..|ops| - 1]);
      RepetitionCapHolds(p, task, ops[..|ops| - 1], n, c, k);
      match ops[|ops| - 1]
      case OpStep(action) => StepKeepsCap(p, task, before, action, n, c, k);
      case OpReset => ResetHistory(p, task, before);
      case OpRestore(_) =>
      case OpTeardown =>
    }
  }

  lemma ResetHistory(p: Provider, task: Task, s: Session)
    ensures ResetSpec(p, task, s).0.history == [] || ResetSpec(p, task, s).0.history == s.history
  {
  }

  // ---------------------------------------------------------------- at most once

  ghost predicate SameKey(a: Performed, b: Performed) {
    a.episode == b.episode && a.intent.idempotencyKey == b.intent.idempotencyKey
  }

  /** No idempotency key has reached the environment twice in one episode. */
  ghost predicate AtMostOnce(ledger: seq<Performed>) {
    forall i, j :: 0 <= i < j < |ledger| ==> !SameKey(ledger[i], ledger[j])
  }

  /** What the runtime knows of its ledger: nothing lies ahead, and every key of this episode is recorded. */
  ghost predicate Accounted(e: Env) {
    && AtMostOnce(e.ledger)
    && forall i :: 0 <= i < |e.ledger| ==>
         && e.ledger[i].episode <= e.episode
         && (e.ledger[i].episode == e.episode ==> e.ledger[i].intent.idempotencyKey in e.replays)
  }

  lemma ActOnAccounted(p: Provider, e: Env, intent: Intent)
    requires Accounted(e)
    ensures Accounted(ActOn(p, e, intent).0)
  {
  }

  lemma {:induction false} RunStageAccounted(p: Provider, env: Env, actions: seq<Action>)
    requires Accounted(env)
    ensures Accounted(RunStage(p, env, actions).env)
  {
    if actions != [] {
      hide Accounted;
      RunStageAccounted(p, env, actions[..|actions| - 1]);
      var before := RunStage(p, env, actions[..|actions| - 1]);
      ActOnAccounted(p, before.env, IntentOf(actions[|actions| - 1]));
    }
  }

  lemma WorldIsNotCounted(e: Env, world: State)
    requires Accounted(e)
    ensures Accounted(e.(world := world)) && Accounted(NewEpisode(e, world))
  {
  }

  lemma OperateAccounted(p: Provider, task: Task, s: Session, op: Operation)
    requires Accounted(s.env)
    ensures Accounted(Operate(p, task, s, op).env)
  {
    hide Accounted;
    var s' := Operate(p, task, s, op);
    match op
    case OpReset =>
      var env := NewEpisode(s.env, p.materialize(task).world);
      WorldIsNotCounted(s.env, p.materialize(task).world);
      RunStageAccounted(p, env, StageActions(task));
      WorldIsNotCounted(RunStage(p, env, StageActions(task)).env, s'.env.world);
    case OpStep(action) =>
      hide ActOn;
      var a := Decide(task, action, p.observe(s.env.world), s.history).current;
      WorldIsNotCounted(s.env, s'.env.world);
      ActOnAccounted(p, s.env, IntentOf(a));
      WorldIsNotCounted(ActOn(p, s.env, IntentOf(a)).0, s'.env.world);
    case OpRestore(_) => WorldIsNotCounted(s.env, s'.env.world);
    case OpTeardown =>
  }

  /**
   At most once: over every run of resets, steps, restores and teardowns, no idempotency key reaches
   the environment twice in one episode, not even after a rollback.
   */
  lemma {:induction false} AtMostOncePerKey(p: Provider, task: Task, ops: seq<Operation>)
    ensures AtMostOnce(RunAll(p, task, FRESH, ops).env.ledger)
    ensures Accounted(RunAll(p, task, FRESH, ops).env)
  {
    if ops != [] {
      hide Operate;
      AtMostOncePerKey(p, task, ops[..|ops| - 1]);
      OperateAccounted(p, task, RunAll(p, task, FRESH, ops[..|ops| - 1]), ops[|ops| - 1]);
    }
  }

  /** Rollbacks undo no entry of the ledger: over every run it only grows. */
  lemma {:induction false} LedgerOnlyGrows(p: Provider, task: Task, s: Session, ops: seq<Operation>)
    ensures s.env.ledger <= RunAll(p, task, s, ops).env.ledger
  {
    if ops != [] {
      var before := RunAll(p, task, s, ops[..|ops| - 1]);
      LedgerOnlyGrows(p, task, s, ops[..|ops| - 1]);
      match ops[|ops| - 1]
      case OpStep(action) => NothingDoneUnlessActed(p, task, before, action);
      case OpReset => StageContinues(p, NewEpisode(before.env, p.materialize(task).world), StageActions(task));
      case OpRestore(_) =>
      case OpTeardown =>
    }
  }

}
