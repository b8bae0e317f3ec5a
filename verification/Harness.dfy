/**
 `HarnessSession` (`src/gymact/envharness.py`): the session object whose methods update the episode,
 its history and its feedback, each proved to do what `HarnessModel` says of the session's state.
 */
module Harness {
  import opened Outcomes
  import opened Sequences
  import opened HarnessModel
  import Possibility

  /** The runtime a session acts through: the current episode, its replay record, and the ledger. */
  class Runtime {
    const provider: Provider
    var episode: nat
    var world: State
    var replays: map<string, Replay>
    var ledger: seq<Performed>

    /** The runtime's state as a value. */
    ghost function View(): Env
      reads this
    {
      Env(episode, world, replays, ledger)
    }

    constructor (provider: Provider)
      ensures this.provider == provider && View() == FRESH.env
    {
      this.provider := provider;
      episode, world, replays, ledger := 0, map[], map[], [];
    }

    /** `read`: performs a READ capability, and refuses an unknown or a DO one. */
    method Read(capability: string, payload: State) returns (answered: bool)
      modifies this`world
      ensures answered <==> provider.capability(capability) == Some(HarnessModel.Read)
      ensures View() == if answered then old(View()).(world := provider.read(old(world), capability, payload)) else old(View())
    {
      answered := provider.capability(capability) == Some(HarnessModel.Read);
      if answered {
        world := provider.read(world, capability, payload);
      }
    }

    /** `act`: performs an intent once for its key, and answers a repeated key from the record. */
    method Act(intent: Intent) returns (r: Actuation)
      modifies this
      ensures (View(), r) == ActOn(provider, old(View()), intent)
    {
      var key := intent.idempotencyKey;
      if key in replays {
        if replays[key].intent == intent {
          return replays[key].result;
        }
        return Actuation(false, Possibility.Refused, world);
      }
      r := provider.act(world, intent);
      world, replays, ledger := r.after, replays[key := Replay(intent, r)], ledger + [Performed(episode, intent)];
    }

    method Restore(checkpoint: State) returns (standing: Standing)
      modifies this`world
      ensures standing == provider.restore(old(world), checkpoint).standing
      ensures View() == old(View()).(world := provider.restore(old(world), checkpoint).after)
    {
      var r := provider.restore(world, checkpoint);
      world, standing := r.after, r.standing;
    }

    method Materialize(task: Task) returns (m: Materialization)
      modifies this
      ensures m == provider.materialize(task)
      ensures View() == if m.accepted then NewEpisode(old(View()), m.world) else old(View())
    {
      m := provider.materialize(task);
      if m.accepted {
        episode, world, replays := episode + 1, m.world, map[];
      }
    }
  }

  /** Part of one piece of a flat map, after all earlier pieces, is a prefix of the whole. */
  lemma FlatPrefix<A, B>(f: A -> seq<B>, s: seq<A>, i: nat, j: nat)
    requires i < |s| && j <= |f(s[i])|
    ensures FlatMap(f, s[..i]) + f(s[i])[..j] <= FlatMap(f, s)
    ensures FlatMap(f, s[..i + 1]) == FlatMap(f, s[..i]) + f(s[i])[..|f(s[i])|]
  {
    var after := FlatMapSplit(f, s, i);
    var a, b := FlatMap(f, s[..i]), f(s[i]);
    assert b[..|b|] == b && b == b[..j] + b[j..];
    assert FlatMap(f, s) == (a + b[..j]) + (b[j..] + after);
  }

  lemma NextInPiece<T>(before: seq<T>, piece: seq<T>, j: nat)
    requires j < |piece|
    ensures before + piece[..j + 1] == (before + piece[..j]) + [piece[j]]
  {
  }

  lemma RulesSnoc(rules: seq<Rule>, rule: Rule, action: Action, observed: State, history: seq<Action>)
    ensures var g := AfterRules(rules, action, observed, history);
            AfterRules(rules + [rule], action, observed, history) ==
            if g.Denied? then g else ApplyRule(rule, g, observed, history)
  {
    assert (rules + [rule])[..|rules|] == rules;
  }

  lemma {:induction false} DenialStays(rules: seq<Rule>, first: seq<Rule>, action: Action, observed: State, history: seq<Action>)
    requires first <= rules && AfterRules(first, action, observed, history).Denied?
    ensures AfterRules(rules, action, observed, history) == AfterRules(first, action, observed, history)
  {
    if first != rules {
      DenialStays(rules[..|rules| - 1], first, action, observed, history);
    }
  }

  lemma StageProblemSnoc(p: Provider, actions: seq<Action>, a: Action)
    requires StageProblem(p, actions).HarnessAdmitted?
    ensures StageProblem(p, actions + [a]) ==
            match p.capability(a.capability)
            case None => StageCapabilityUnsupported
            case Some(Read) => StageRequiresDo
            case Some(Do) => HarnessAdmitted
  {
    assert (actions + [a])[..|actions|] == actions;
  }

  lemma {:induction false} StageProblemStays(p: Provider, actions: seq<Action>, first: seq<Action>)
    requires first <= actions && !StageProblem(p, first).HarnessAdmitted?
    ensures StageProblem(p, actions) == StageProblem(p, first)
  {
    if first != actions {
      StageProblemStays(p, actions[..|actions| - 1], first);
    }
  }

  lemma RunStageSnoc(p: Provider, env: Env, actions: seq<Action>, a: Action)
    requires RunStage(p, env, actions).Running?
    ensures RunStage(p, env, actions + [a]) == StageStep(p, RunStage(p, env, actions).env, a)
  {
    assert (actions + [a])[..|actions|] == actions;
  }

  lemma {:induction false} StageFailureStays(p: Provider, env: Env, actions: seq<Action>, first: seq<Action>)
    requires first <= actions && RunStage(p, env, first).StageFailed?
    ensures RunStage(p, env, actions) == RunStage(p, env, first)
  {
    if first != actions {
      StageFailureStays(p, env, actions[..|actions| - 1], first);
    }
  }

  class HarnessSession {
    const runtime: Runtime
    const task: Task
    var live: bool
    var history: seq<Action>
    var feedback: seq<string>

    /** The session's state as a value. */
    ghost function View(): Session
      reads this, runtime
    {
      Session(live, runtime.View(), history, feedback)
    }

    constructor (runtime: Runtime, task: Task)
      ensures this.runtime == runtime && this.task == task
      ensures !live && history == [] && feedback == []
    {
      this.runtime, this.task := runtime, task;
      live, history, feedback := false, [], [];
    }

    /** `_consecutive_count`: how often the capability ends the history in a row. */
    method ConsecutiveCount(capability: string) returns (count: nat)
      ensures count == TailRun(history, capability)
    {
      count := 0;
      var i := |history|;
      assert history[..i] == history;
      while i > 0
        invariant 0 <= i <= |history|
        invariant TailRun(history, capability) == count + TailRun(history[..i], capability)
      {
        assert history[..i][..i - 1] == history[..i - 1];
        if history[i - 1].capability != capability {
          return;
        }
        count, i := count + 1, i - 1;
      }
    }

    /** `admit`: the rules of every contract, in order, against the raw observation. */
    method Admit(action: Action) returns (g: Progress)
      ensures g == Decide(task, action, runtime.provider.observe(runtime.world), history)
    {
      hide FlatMap;
      var observed := runtime.provider.observe(runtime.world);
      var contracts := task.contracts;
      var current, reason, notes := action, "CONTRACT_ADMITTED", [];
      FlatMapEmpty();
      for i := 0 to |contracts|
        invariant AfterRules(FlatMap(RulesOf, contracts[..i]), action, observed, history) == Going(current, reason, notes)
      {
        var rules := contracts[i].rules;
        ghost var before := FlatMap(RulesOf, contracts[..i]);
        assert before + rules[..0] == before;
        for j := 0 to |rules|
          invariant AfterRules(before + rules[..j], action, observed, history) == Going(current, reason, notes)
        {
          var rule := rules[j];
          RulesSnoc(before + rules[..j], rule, action, observed, history);
          NextInPiece(before, rules, j);
          FlatPrefix(RulesOf, contracts, i, j + 1);
          if rule.capability != current.capability {
            continue;
          }
          if !SubsetOf(rule.requiredState, observed) {
            continue;
          }
          if rule.maxConsecutive.Some? {
            var count := ConsecutiveCount(current.capability);
            if count < rule.maxConsecutive.value {
              continue;
            }
          }
          if rule.feedback != "" {
            notes := notes + [rule.feedback];
          }
          reason := rule.reason;
          if rule.effect.Deny? {
            DenialStays(Rules(task), before + rules[..j + 1], action, observed, history);
            return Denied(current, reason, notes);
          }
          current := Rewritten(rule, current);
        }
        FlatPrefix(RulesOf, contracts, i, |rules|);
      }
      assert contracts[..|contracts|] == contracts;
      return Going(current, reason, notes);
    }

    /** `_admit_harness`: stage capabilities first, then rewrite targets. */
    method AdmitHarness() returns (admission: Admission)
      ensures admission == HarnessModel.AdmitHarness(runtime.provider, task)
    {
      hide FlatMap;
      var p := runtime.provider;
      FlatMapEmpty();
      for i := 0 to |task.stages|
        invariant StageProblem(p, FlatMap(ActionsOf, task.stages[..i])).HarnessAdmitted?
      {
        var actions := task.stages[i].actions;
        ghost var before := FlatMap(ActionsOf, task.stages[..i]);
        assert before + actions[..0] == before;
        for j := 0 to |actions|
          invariant StageProblem(p, before + actions[..j]).HarnessAdmitted?
        {
          StageProblemSnoc(p, before + actions[..j], actions[j]);
          NextInPiece(before, actions, j);
          FlatPrefix(ActionsOf, task.stages, i, j + 1);
          var capability := p.capability(actions[j].capability);
          if capability.None? {
            StageProblemStays(p, StageActions(task), before + actions[..j + 1]);
            return StageCapabilityUnsupported;
          }
          if !capability.value.Do? {
            StageProblemStays(p, StageActions(task), before + actions[..j + 1]);
            return StageRequiresDo;
          }
        }
        FlatPrefix(ActionsOf, task.stages, i, |actions|);
      }
      assert task.stages[..|task.stages|] == task.stages;
      for i := 0 to |task.contracts|
        invariant forall r :: r in FlatMap(RulesOf, task.contracts[..i]) ==> TargetSupported(p, r)
      {
        var rules := task.contracts[i].rules;
        for j := 0 to |rules|
          invariant forall k :: 0 <= k < j ==> TargetSupported(p, rules[k])
        {
          if rules[j].effect.Rewrite? && p.capability(rules[j].effect.target).None? {
            FlatMapTarget(RulesOf, task.contracts, i, rules[j]);
            assert rules[j] in Rules(task) && !TargetSupported(p, rules[j]);
            return RewriteTargetUnsupported;
          }
        }
        FlatPrefix(RulesOf, task.contracts, i, |rules|);
      }
      assert task.contracts[..|task.contracts|] == task.contracts;
      return HarnessAdmitted;
    }

    /** The stage loop of `reset`, with the rollback of `_failed_stage_result`. */
    method ApplyStage() returns (r: ResetResult)
      modifies runtime
      ensures match RunStage(runtime.provider, old(runtime.View()), StageActions(task))
              case Running(env) => r == ResetAccepted && runtime.View() == env
              case StageFailed(env, standing) =>
                var restored := runtime.provider.restore(env.world, old(runtime.world));
                && r == (if Good(restored.standing) then StageRolledBack(standing, restored.standing)
                         else StageRollbackFailed(restored.standing))
                && runtime.View() == env.(world := restored.after)
    {
      hide FlatMap;
      hide ActOn;
      var p, baseline := runtime.provider, runtime.world;
      ghost var start := runtime.View();
      FlatMapEmpty();
      for i := 0 to |task.stages|
        invariant RunStage(p, start, FlatMap(ActionsOf, task.stages[..i])) == Running(runtime.View())
      {
        var actions := task.stages[i].actions;
        ghost var before := FlatMap(ActionsOf, task.stages[..i]);
        assert before + actions[..0] == before;
        for j := 0 to |actions|
          invariant RunStage(p, start, before + actions[..j]) == Running(runtime.View())
        {
          RunStageSnoc(p, start, before + actions[..j], actions[j]);
          NextInPiece(before, actions, j);
          FlatPrefix(ActionsOf, task.stages, i, j + 1);
          var actuation := runtime.Act(IntentOf(actions[j]));
          var failure := None;
          if !actuation.accepted {
            failure := Some(actuation.standing);
          } else if actions[j].expectedAfter.Some? && !p.verify(runtime.world, actions[j].expectedAfter.value) {
            failure := Some(Possibility.Refused);
          }
          if failure.Some? {
            StageFailureStays(p, start, StageActions(task), before + actions[..j + 1]);
            var rollback := runtime.Restore(baseline);
            return if Good(rollback) then StageRolledBack(failure.value, rollback) else StageRollbackFailed(rollback);
          }
        }
        FlatPrefix(ActionsOf, task.stages, i, |actions|);
      }
      assert task.stages[..|task.stages|] == task.stages;
      return ResetAccepted;
    }

    /** `reset`: materialize, preflight the harness, then apply its stage transactionally. */
    method Reset() returns (r: Result<ResetResult, SessionError>)
      modifies this, runtime
      ensures (View(), r) == ResetSpec(runtime.provider, task, old(View()))
    {
      hide RunStage;
      hide HarnessModel.AdmitHarness;
      if live {
        var torn := Teardown();
        if torn.Success? && !Good(torn.value) {
          return Failure(PriorTeardown(torn.value));
        }
      }
      var m := runtime.Materialize(task);
      if !m.accepted {
        return Success(NotMaterialized(m.standing));
      }
      live, history, feedback := true, [], [];
      var admission := AdmitHarness();
      if !admission.HarnessAdmitted? {
        var torn := Teardown();
        return Success(NotAdmitted(admission, torn.value));
      }
      var applied := ApplyStage();
      return Success(applied);
    }

    /** `step`: admit, then read or act, verify, and roll back a failed postcondition. */
    method Step(action: Action) returns (r: Result<StepResult, SessionError>)
      modifies this, runtime
      ensures !old(live) ==> r == Failure(NotReset) && View() == old(View())
      ensures old(live) ==> r.Success? && (View(), r.value) == StepSpec(runtime.provider, task, old(View()), action)
    {
      hide Decide;
      if !live {
        return Failure(NotReset);
      }
      var p := runtime.provider;
      var decision := Admit(action);
      feedback := feedback + decision.feedback;
      var final := decision.current;
      if decision.Denied? {
        return Success(StepResult(false, Possibility.Refused, final, ContractReason(decision.reason), None, None));
      }
      var capability := p.capability(final.capability);
      if capability.None? {
        return Success(StepResult(false, Possibility.Unsupported, final, UnknownCapability, None, None));
      }
      if capability.value.Read? {
        var answered := runtime.Read(final.capability, final.payload);
        assert answered;
        if !PostconditionHolds(p, runtime.world, final) {
          return Success(StepResult(false, Possibility.Refused, final, StepPostconditionFailed, None, None));
        }
        history := history + [final];
        return Success(StepResult(true, Possibility.Alive, final, StepAccepted, None, None));
      }
      var checkpoint := runtime.world;
      var actuation := runtime.Act(IntentOf(final));
      if !actuation.accepted {
        return Success(StepResult(false, actuation.standing, final, ActuationRefused, Some(actuation), None));
      }
      if !PostconditionHolds(p, runtime.world, final) {
        var rollback := runtime.Restore(checkpoint);
        var good := Good(rollback);
        return Success(StepResult(false, if good then Possibility.Refused else rollback, final,
                                  if good then StepPostconditionFailed else RollbackFailed, Some(actuation), Some(rollback)));
      }
      history := history + [final];
      return Success(StepResult(true, actuation.standing, final, StepAccepted, Some(actuation), None));
    }

    /** `verify` against the task's goal. */
    method VerifyGoal() returns (r: Result<bool, SessionError>)
      ensures r == if live then Success(runtime.provider.verify(runtime.world, task.goal)) else Failure(NotReset)
    {
      return if live then Success(runtime.provider.verify(runtime.world, task.goal)) else Failure(NotReset);
    }

    method Teardown() returns (r: Result<Standing, SessionError>)
      modifies this`live
      ensures !old(live) ==> r == Failure(NotReset) && !live
      ensures old(live) ==> r == Success(runtime.provider.teardown(runtime.world)) && live == !Good(r.value)
    {
      if !live {
        return Failure(NotReset);
      }
      var standing := runtime.provider.teardown(runtime.world);
      if Good(standing) {
        live := false;
      }
      return Success(standing);
    }
  }

  lemma FlatMapEmpty()
    ensures FlatMap(RulesOf, []) == [] && FlatMap(ActionsOf, []) == []
  {
  }
}
