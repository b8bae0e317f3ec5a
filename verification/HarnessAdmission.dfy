/** What a session's rules, steps and resets decide, said without the functions that compute it. */
module HarnessAdmission {
  import opened Outcomes
  import opened HarnessModel

  // ---------------------------------------------------------------- containment of states

  /** What a path of keys leads to. */
  ghost function At(v: Value, keys: seq<string>): Option<Value> {
    if keys == [] then Some(v)
    else if v.Dict? && keys[0] in v.entries then At(v.entries[keys[0]], keys[1..]) else None
  }

  /** Where the keys lead to a text they lead to the same text in the other; where to a dictionary, to a dictionary. */
  ghost predicate AgreesAt(required: Value, observed: Value, keys: seq<string>) {
    match At(required, keys)
    case None => true
    case Some(Atom(text)) => At(observed, keys) == Some(Atom(text))
    case Some(Dict(_)) => At(observed, keys).Some? && At(observed, keys).value.Dict?
  }

  /** Every path of keys through the required state is there in the observed one, and leads to the same. */
  ghost predicate ContainedIn(required: State, observed: State) {
    forall keys :: AgreesAt(Dict(required), Dict(observed), keys)
  }

  lemma {:induction false} MatchesAt(expected: Value, actual: Value, keys: seq<string>)
    requires Matches(expected, actual)
    ensures AgreesAt(expected, actual, keys)
  {
    if keys != [] && expected.Dict? && keys[0] in expected.entries {
      MatchesAt(expected.entries[keys[0]], actual.entries[keys[0]], keys[1..]);
    }
  }

  lemma {:induction false} AgreesEverywhere(expected: Value, actual: Value)
    requires forall keys :: AgreesAt(expected, actual, keys)
    ensures Matches(expected, actual)
  {
    assert AgreesAt(expected, actual, []);
    match expected
    case Atom(_) =>
    case Dict(entries) =>
      forall k | k in entries ensures k in actual.entries && Matches(entries[k], actual.entries[k]) {
        assert [k][1..] == [] && At(entries[k], []) == Some(entries[k]);
        assert At(expected, [k]) == Some(entries[k]);
        assert AgreesAt(expected, actual, [k]);
        assert k in actual.entries;
        forall keys ensures AgreesAt(entries[k], actual.entries[k], keys) {
          assert AgreesAt(expected, actual, [k] + keys);
          assert ([k] + keys)[1..] == keys;
        }
        AgreesEverywhere(entries[k], actual.entries[k]);
      }
  }

  lemma ContainmentMeans(required: State, observed: State)
    ensures SubsetOf(required, observed) <==> ContainedIn(required, observed)
  {
    assert SubsetOf(required, observed) <==> Matches(Dict(required), Dict(observed));
    if SubsetOf(required, observed) {
      forall keys ensures AgreesAt(Dict(required), Dict(observed), keys) {
        MatchesAt(Dict(required), Dict(observed), keys);
      }
    }
    if ContainedIn(required, observed) {
      AgreesEverywhere(Dict(required), Dict(observed));
    }
  }

  // ---------------------------------------------------------------- one rule

  /** At least `k` actions of capability `c` end the history. */
  ghost predicate EndsWith(history: seq<Action>, c: string, k: nat) {
    k <= |history| && forall i :: |history| - k <= i < |history| ==> history[i].capability == c
  }

  /** The rule is about the action's capability, its state is there, and the run it waits for is long enough. */
  ghost predicate Fires(rule: Rule, current: Action, observed: State, history: seq<Action>) {
    && rule.capability == current.capability
    && ContainedIn(rule.requiredState, observed)
    && (rule.maxConsecutive.Some? ==> EndsWith(history, current.capability, rule.maxConsecutive.value))
  }

  lemma FiresMeans(rule: Rule, current: Action, observed: State, history: seq<Action>)
    ensures Applies(rule, current, observed, history) <==> Fires(rule, current, observed, history)
  {
    ContainmentMeans(rule.requiredState, observed);
    TailRunCounts(history, current.capability);
    hide SubsetOf;
    hide ContainedIn;
  }

  /** What a rule that fires makes of an action: its capability and payload; key and expectation stay. */
  ghost predicate Becomes(rule: Rule, a: Action, b: Action) {
    && b.capability == (if rule.effect.Rewrite? then rule.effect.target else a.capability)
    && b.idempotencyKey == a.idempotencyKey && b.expectedAfter == a.expectedAfter
    && (forall key :: key in b.payload <==>
          key in rule.payloadOverrides || (rule.payloadMode.Merge? && key in a.payload))
    && (forall key :: key in rule.payloadOverrides ==> b.payload[key] == rule.payloadOverrides[key])
    && (forall key :: key in b.payload && key !in rule.payloadOverrides ==> b.payload[key] == a.payload[key])
  }

  lemma BecomesMeans(rule: Rule, a: Action, b: Action)
    ensures Becomes(rule, a, b) <==> b == Rewritten(rule, a)
  {
    var r := Rewritten(rule, a);
    if Becomes(rule, a, b) {
      assert b.payload == r.payload;
    }
  }

  // ---------------------------------------------------------------- all rules

  /** The action after rule `i`: as it was, if the rule does not fire; else, the rule not being a denial, what it makes of it. */
  ghost predicate Passes(rules: seq<Rule>, observed: State, history: seq<Action>, currents: seq<Action>, i: nat)
    requires i < |rules| && i + 1 < |currents|
  {
    if Fires(rules[i], currents[i], observed, history)
    then !rules[i].effect.Deny? && Becomes(rules[i], currents[i], currents[i + 1])
    else currents[i + 1] == currents[i]
  }

  /** The action as each of the rules before the end of `currents` leaves it. */
  ghost predicate Trace(rules: seq<Rule>, action: Action, observed: State, history: seq<Action>, currents: seq<Action>) {
    && 1 <= |currents| <= |rules| + 1 && currents[0] == action
    && forall i: nat :: i + 1 < |currents| ==> Passes(rules, observed, history, currents, i)
  }

  /** The notes of the first `n` rules, of those that fire. */
  ghost function Notes(rules: seq<Rule>, observed: State, history: seq<Action>, currents: seq<Action>, n: nat): seq<string>
    requires n <= |rules| && n <= |currents|
  {
    if n == 0 then []
    else
      Notes(rules, observed, history, currents, n - 1) +
      if Fires(rules[n - 1], currents[n - 1], observed, history) && rules[n - 1].feedback != ""
      then [rules[n - 1].feedback] else []
  }

  /** The reason of the last of the first `n` rules that fires. */
  ghost function LastReason(rules: seq<Rule>, observed: State, history: seq<Action>, currents: seq<Action>, n: nat): string
    requires n <= |rules| && n <= |currents|
  {
    if n == 0 then "CONTRACT_ADMITTED"
    else if Fires(rules[n - 1], currents[n - 1], observed, history) then rules[n - 1].reason
    else LastReason(rules, observed, history, currents, n - 1)
  }

  ghost predicate DeniedAfter(rules: seq<Rule>, observed: State, history: seq<Action>, currents: seq<Action>) {
    var n := |currents| - 1;
    && 0 <= n < |rules| && rules[n].effect.Deny? && Fires(rules[n], currents[n], observed, history)
  }

  lemma {:induction false} SameNotes(a: seq<Rule>, b: seq<Rule>, observed: State, history: seq<Action>,
                                     x: seq<Action>, y: seq<Action>, n: nat)
    requires n <= |a| && n <= |b| && n <= |x| && n <= |y| && a[..n] == b[..n] && x[..n] == y[..n]
    ensures Notes(a, observed, history, x, n) == Notes(b, observed, history, y, n)
    ensures LastReason(a, observed, history, x, n) == LastReason(b, observed, history, y, n)
  {
    hide Fires;
    if n > 0 {
      assert a[n - 1] == a[..n][n - 1] == b[n - 1] && x[n - 1] == x[..n][n - 1] == y[n - 1];
      assert a[..n - 1] == a[..n][..n - 1] && b[..n - 1] == b[..n][..n - 1];
      assert x[..n - 1] == x[..n][..n - 1] && y[..n - 1] == y[..n][..n - 1];
      SameNotes(a, b, observed, history, x, y, n - 1);
    }
  }

  /** What admission answers for the way the action took. */
  ghost predicate AnsweredFor(rules: seq<Rule>, observed: State, history: seq<Action>, currents: seq<Action>, d: Progress) {
    var n := |currents| - 1;
    && 0 <= n <= |rules| && d.current == currents[n]
    && (d.Denied? <==> DeniedAfter(rules, observed, history, currents)) && (d.Going? ==> n == |rules|)
    && var last := if n < |rules| then n + 1 else n;
       && d.feedback == Notes(rules, observed, history, currents, last)
       && d.reason == LastReason(rules, observed, history, currents, last)
  }

  lemma DeniedBefore(rules: seq<Rule>, observed: State, history: seq<Action>, currents: seq<Action>, d: Progress)
    requires rules != [] && d.Denied? && AnsweredFor(rules[..|rules| - 1], observed, history, currents, d)
    ensures AnsweredFor(rules, observed, history, currents, d)
  {
    hide Fires;
    SameNotes(rules[..|rules| - 1], rules, observed, history, currents, currents, |currents|);
  }

  lemma DeniedNow(rules: seq<Rule>, observed: State, history: seq<Action>, currents: seq<Action>, d: Progress)
    requires rules != [] && d.Going? && AnsweredFor(rules[..|rules| - 1], observed, history, currents, d)
    requires Applies(rules[|rules| - 1], d.current, observed, history) && rules[|rules| - 1].effect.Deny?
    ensures AnsweredFor(rules, observed, history, currents, ApplyRule(rules[|rules| - 1], d, observed, history))
  {
    FiresMeans(rules[|rules| - 1], d.current, observed, history);
    hide Fires;
    hide Applies;
    SameNotes(rules[..|rules| - 1], rules, observed, history, currents, currents, |currents| - 1);
    assert d.feedback + [] == d.feedback;
  }

  lemma GoesOn(rules: seq<Rule>, observed: State, history: seq<Action>, currents: seq<Action>, d: Progress)
    requires rules != [] && d.Going? && AnsweredFor(rules[..|rules| - 1], observed, history, currents, d)
    requires ApplyRule(rules[|rules| - 1], d, observed, history).Going?
    ensures var next := ApplyRule(rules[|rules| - 1], d, observed, history);
            AnsweredFor(rules, observed, history, currents + [next.current], next)
  {
    FiresMeans(rules[|rules| - 1], d.current, observed, history);
    hide Fires;
    hide Applies;
    hide Rewritten;
    var longer := currents + [ApplyRule(rules[|rules| - 1], d, observed, history).current];
    SameNotes(rules[..|rules| - 1], rules, observed, history, currents, longer, |currents| - 1);
    assert d.feedback + [] == d.feedback;
  }

  /**
   Admission, exactly: there is one way the action passes through the rules, each taken on the action as the
   rules before left it. It is denied at the first denial that fires, and admitted as the last rule leaves it
   if none does; it is answered with the reason of the last rule that fired and the notes of all that did.
   */
  lemma {:induction false} AdmissionExact(rules: seq<Rule>, action: Action, observed: State, history: seq<Action>)
    returns (currents: seq<Action>)
    ensures Trace(rules, action, observed, history, currents)
    ensures AnsweredFor(rules, observed, history, currents, AfterRules(rules, action, observed, history))
  {
    hide Fires;
    hide Applies;
    hide Becomes;
    hide Rewritten;
    if rules == [] {
      currents := [action];
    } else {
      var front, rule := rules[..|rules| - 1], rules[|rules| - 1];
      var earlier := AdmissionExact(front, action, observed, history);
      var d := AfterRules(front, action, observed, history);
      if d.Denied? {
        currents := earlier;
        DeniedBefore(rules, observed, history, earlier, d);
        TraceWithin(rules, action, observed, history, earlier);
      } else {
        var next := ApplyRule(rule, d, observed, history);
        FiresMeans(rule, d.current, observed, history);
        if next.Denied? {
          currents := earlier;
          DeniedNow(rules, observed, history, earlier, d);
          TraceWithin(rules, action, observed, history, earlier);
        } else {
          currents := earlier + [next.current];
          GoesOn(rules, observed, history, earlier, d);
          BecomesMeans(rule, d.current, next.current);
          hide Notes;
          hide LastReason;
          TraceLonger(rules, action, observed, history, earlier, next.current);
        }
      }
    }
  }

  lemma TraceWithin(rules: seq<Rule>, action: Action, observed: State, history: seq<Action>, currents: seq<Action>)
    requires rules != [] && Trace(rules[..|rules| - 1], action, observed, history, currents)
    ensures Trace(rules, action, observed, history, currents)
  {
    var front := rules[..|rules| - 1];
    forall i: nat | i + 1 < |currents| ensures Passes(rules, observed, history, currents, i) {
      assert Passes(front, observed, history, currents, i);
      assert front[i] == rules[i];
    }
  }

  lemma TraceLonger(rules: seq<Rule>, action: Action, observed: State, history: seq<Action>, earlier: seq<Action>, next: Action)
    requires rules != [] && |earlier| == |rules| && Trace(rules[..|rules| - 1], action, observed, history, earlier)
    requires var rule, last := rules[|rules| - 1], earlier[|rules| - 1];
             if Fires(rule, last, observed, history) then !rule.effect.Deny? && Becomes(rule, last, next) else next == last
    ensures Trace(rules, action, observed, history, earlier + [next])
  {
    hide Fires;
    hide Becomes;
    var front, currents := rules[..|rules| - 1], earlier + [next];
    forall i: nat | i + 1 < |currents| ensures Passes(rules, observed, history, currents, i) {
      if i < |front| {
        assert Passes(front, observed, history, earlier, i);
        assert front[i] == rules[i];
      }
    }
  }

  /** There is only one way through the rules. */
  lemma {:induction false} TraceUnique(rules: seq<Rule>, action: Action, observed: State, history: seq<Action>,
                                       a: seq<Action>, b: seq<Action>, n: nat)
    requires Trace(rules, action, observed, history, a) && Trace(rules, action, observed, history, b) && n < |a| && n < |b|
    ensures a[n] == b[n]
  {
    hide Fires;
    if n > 0 {
      TraceUnique(rules, action, observed, history, a, b, n - 1);
      assert Passes(rules, observed, history, a, n - 1) && Passes(rules, observed, history, b, n - 1);
      BecomesMeans(rules[n - 1], a[n - 1], a[n]);
      BecomesMeans(rules[n - 1], b[n - 1], b[n]);
      hide Becomes;
    }
  }

  /** An action is denied exactly when, on its way through the rules, it meets a denial of its capability, in its state, after a long enough run. */
  lemma DeniedExactly(rules: seq<Rule>, action: Action, observed: State, history: seq<Action>)
    ensures AfterRules(rules, action, observed, history).Denied? <==>
            exists currents :: Trace(rules, action, observed, history, currents) && DeniedAfter(rules, observed, history, currents)
  {
    hide Fires;
    var way := AdmissionExact(rules, action, observed, history);
    if currents :| Trace(rules, action, observed, history, currents) && DeniedAfter(rules, observed, history, currents) {
      var n := |currents| - 1;
      if n < |way| {
        TraceUnique(rules, action, observed, history, currents, way, n);
        if n + 1 < |way| {
          assert Passes(rules, observed, history, way, n);
        }
      } else {
        var m := |way| - 1;
        TraceUnique(rules, action, observed, history, currents, way, m);
      }
    }
  }

  /** A rule whose state is not there might as well not be there. */
  lemma {:induction false} RuleOutsideItsState(before: seq<Rule>, rule: Rule, after: seq<Rule>, action: Action, observed: State,
                                               history: seq<Action>)
    requires !ContainedIn(rule.requiredState, observed)
    ensures AfterRules(before + [rule] + after, action, observed, history) == AfterRules(before + after, action, observed, history)
  {
    hide ApplyRule;
    if after == [] {
      var with := before + [rule] + after;
      assert with[..|with| - 1] == before && before + after == before;
      NotThere(rule, AfterRules(before, action, observed, history), observed, history);
    } else {
      var front, last := after[..|after| - 1], after[|after| - 1];
      var with, without := before + [rule] + after, before + after;
      assert with[..|with| - 1] == before + [rule] + front && without[..|without| - 1] == before + front;
      RuleOutsideItsState(before, rule, front, action, observed, history);
    }
  }

  lemma NotThere(rule: Rule, g: Progress, observed: State, history: seq<Action>)
    requires !ContainedIn(rule.requiredState, observed)
    ensures g.Going? ==> ApplyRule(rule, g, observed, history) == g
  {
    ContainmentMeans(rule.requiredState, observed);
    hide SubsetOf;
    hide ContainedIn;
  }

  // ---------------------------------------------------------------- steps

  /** What the expectation asks for holds in this world. */
  ghost predicate AsExpected(p: Provider, world: State, a: Action) {
    a.expectedAfter.Some? ==> p.verify(world, a.expectedAfter.value)
  }

  /** A step's standing follows from its reason, and so do acceptance, actuation and rollback. */
  lemma StepVerdict(p: Provider, task: Task, s: Session, action: Action)
    ensures var r := StepSpec(p, task, s, action).1;
            && (r.accepted <==> r.reason == StepAccepted)
            && (r.reason == ActuationRefused <==> r.actuation.Some? && !r.actuation.value.accepted)
            && (r.rollback.Some? <==> r.actuation.Some? && r.actuation.value.accepted && !r.accepted)
            && r.standing ==
                 (match r.reason
                  case ContractReason(_) => Possibility.Refused
                  case UnknownCapability => Possibility.Unsupported
                  case StepPostconditionFailed => Possibility.Refused
                  case RollbackFailed => if r.rollback.Some? then r.rollback.value else Possibility.Unknown
                  case ActuationRefused => if r.actuation.Some? then r.actuation.value.standing else Possibility.Unknown
                  case StepAccepted => if r.actuation.Some? then r.actuation.value.standing else Possibility.Alive)
            && (r.rollback.Some? ==>
                  (r.reason == StepPostconditionFailed <==> r.rollback.value in {Possibility.Alive, Possibility.PartialAlive})
                  && (r.reason == RollbackFailed <==> r.rollback.value !in {Possibility.Alive, Possibility.PartialAlive}))
  {
    hide Decide;
    hide ActOn;
    hide PostconditionHolds;
  }

  /** Why a step was refused or accepted: denial, an unknown capability, a refused actuation, or the expectation. */
  lemma StepReasonExact(p: Provider, task: Task, s: Session, action: Action)
    ensures var r := StepSpec(p, task, s, action).1;
            var d := Decide(task, action, p.observe(s.env.world), s.history);
            var kind := p.capability(d.current.capability);
            && r.action == d.current
            && (r.reason.ContractReason? <==> d.Denied?) && (d.Denied? ==> r.reason.reason == d.reason)
            && (d.Going? ==>
                  match kind
                  case None => r.reason == UnknownCapability
                  case Some(Read) =>
                    r.reason == if AsExpected(p, p.read(s.env.world, d.current.capability, d.current.payload), d.current)
                                then StepAccepted else StepPostconditionFailed
                  case Some(Do) =>
                    var (after, result) := ActOn(p, s.env, IntentOf(d.current));
                    && r.actuation == Some(result)
                    && (r.reason == ActuationRefused <==> !result.accepted)
                    && (r.reason == StepAccepted <==> result.accepted && AsExpected(p, after.world, d.current))
                    && (r.rollback.Some? ==> r.rollback.value == p.restore(after.world, s.env.world).standing))
  {
    hide Decide;
    hide ActOn;
  }

  // ---------------------------------------------------------------- repeated keys

  /**
   A key, once used, is answered for the rest of the episode: the same intent with the very result it had, any
   other intent with a refusal; and neither changes anything.
   */
  lemma UsedKeyIsAnswered(p: Provider, e: Env, intent: Intent, later: Env, other: Intent)
    requires Continues(ActOn(p, e, intent).0, later) && other.idempotencyKey == intent.idempotencyKey
    requires intent.idempotencyKey !in e.replays
    ensures var result := p.act(e.world, intent);
            && ActOn(p, e, intent).1 == result && ActOn(p, e, intent).0.world == result.after
            && ActOn(p, later, other) ==
               (later, if other == intent then result else Actuation(false, Possibility.Refused, later.world))
  {
    var after := ActOn(p, e, intent).0;
    assert intent.idempotencyKey in after.replays;
  }

  // ---------------------------------------------------------------- preflight and stage

  /** Action `i` is the first of the stage that is no DO capability. */
  ghost predicate FirstNotDo(p: Provider, stage: seq<Action>, i: nat) {
    && i < |stage| && p.capability(stage[i].capability) != Some(Do)
    && forall j :: 0 <= j < i ==> p.capability(stage[j].capability) == Some(Do)
  }

  lemma {:induction false} FirstStageProblem(p: Provider, stage: seq<Action>, i: nat)
    requires FirstNotDo(p, stage, i)
    ensures StageProblem(p, stage) ==
            if p.capability(stage[i].capability).None? then StageCapabilityUnsupported else StageRequiresDo
  {
    var front := stage[..|stage| - 1];
    if i < |front| {
      FirstStageProblem(p, front, i);
    } else {
      forall a | a in front ensures p.capability(a.capability) == Some(Do) {
        var j :| 0 <= j < |front| && front[j] == a;
        assert stage[j] == a;
      }
      StageProblemIff(p, front);
    }
  }

  lemma {:induction false} FindFirstNotDo(p: Provider, stage: seq<Action>) returns (i: nat)
    ensures if i < |stage| then FirstNotDo(p, stage, i)
            else i == |stage| && forall j :: 0 <= j < |stage| ==> p.capability(stage[j].capability) == Some(Do)
  {
    i := 0;
    while i < |stage| && p.capability(stage[i].capability) == Some(Do)
      invariant i <= |stage| && forall j :: 0 <= j < i ==> p.capability(stage[j].capability) == Some(Do)
    {
      i := i + 1;
    }
  }

  /** Preflight names the first stage action that is no DO capability, and why; and after that a rewrite target that does not exist. */
  lemma PreflightExact(p: Provider, task: Task)
    ensures var r, stage := AdmitHarness(p, task), StageActions(task);
            && (forall i: nat :: FirstNotDo(p, stage, i) ==>
                  r == if p.capability(stage[i].capability).None? then StageCapabilityUnsupported else StageRequiresDo)
            && ((!exists i: nat :: FirstNotDo(p, stage, i)) ==>
                  r == if exists rule :: rule in Rules(task) && rule.effect.Rewrite? && p.capability(rule.effect.target).None?
                       then RewriteTargetUnsupported else HarnessAdmitted)
  {
    var stage := StageActions(task);
    forall i: nat | FirstNotDo(p, stage, i)
      ensures StageProblem(p, stage) ==
              if p.capability(stage[i].capability).None? then StageCapabilityUnsupported else StageRequiresDo
    {
      FirstStageProblem(p, stage, i);
    }
    var first := FindFirstNotDo(p, stage);
    StageProblemIff(p, stage);
    hide StageProblem;
    hide StageActions;
  }

  /** A stage fails at its first action that is refused, with that standing, or whose expectation does not hold, as refused. */
  lemma {:induction false} StageFailsAt(p: Provider, env: Env, stage: seq<Action>) returns (n: nat)
    requires RunStage(p, env, stage).StageFailed?
    ensures n < |stage| && RunStage(p, env, stage[..n]).Running?
    ensures var before := RunStage(p, env, stage[..n]).env;
            var (after, result) := ActOn(p, before, IntentOf(stage[n]));
            && RunStage(p, env, stage).env == after
            && (if !result.accepted then RunStage(p, env, stage).standing == result.standing
                else !AsExpected(p, after.world, stage[n]) && RunStage(p, env, stage).standing == Possibility.Refused)
  {
    var last := |stage| - 1;
    if RunStage(p, env, stage[..last]).StageFailed? {
      n := StageFailsAt(p, env, stage[..last]);
      assert stage[..last][..n] == stage[..n];
    } else {
      n := last;
    }
  }

  /** Action `n` of the stage is accepted, and as expected in the world it leaves. */
  ghost predicate StagePasses(p: Provider, env: Env, stage: seq<Action>, n: nat)
    requires n < |stage|
  {
    var before := RunStage(p, env, stage[..n]);
    var (after, result) := ActOn(p, before.env, IntentOf(stage[n]));
    before.Running? && result.accepted && AsExpected(p, after.world, stage[n])
  }

  /** A stage runs through exactly when each of its actions passes. */
  lemma {:induction false} StageRunsIff(p: Provider, env: Env, stage: seq<Action>)
    ensures RunStage(p, env, stage).Running? <==> forall n: nat :: n < |stage| ==> StagePasses(p, env, stage, n)
  {
    if stage != [] {
      var front, last := stage[..|stage| - 1], |stage| - 1;
      StageRunsIff(p, env, front);
      assert stage[..last] == front;
      assert RunStage(p, env, stage).Running? <==> StagePasses(p, env, stage, last);
      forall n: nat | n < last ensures StagePasses(p, env, front, n) == StagePasses(p, env, stage, n) {
        assert front[..n] == stage[..n] && front[n] == stage[n];
      }
      hide StagePasses;
      hide RunStage;
      if StagePasses(p, env, stage, last) {
        StageGoesOn(p, env, stage);
      }
    }
  }

  lemma StageGoesOn(p: Provider, env: Env, stage: seq<Action>)
    requires stage != [] && StagePasses(p, env, stage, |stage| - 1)
    ensures RunStage(p, env, stage[..|stage| - 1]).Running?
  {
  }

  /** What a reset answers, and whether it leaves a session open. */
  lemma ResetMeans(p: Provider, task: Task, s: Session)
    ensures var (s', r) := ResetSpec(p, task, s);
            var m, prior, reopened := p.materialize(task), p.teardown(s.env.world), p.teardown(p.materialize(task).world);
            var episode := NewEpisode(s.env, m.world);
            if s.live && prior !in {Possibility.Alive, Possibility.PartialAlive} then
              s' == s && r == Failure(PriorTeardown(prior))
            else if !m.accepted then
              !s'.live && r == Success(NotMaterialized(m.standing))
            else if AdmitHarness(p, task) != HarnessAdmitted then
              && (s'.live <==> reopened !in {Possibility.Alive, Possibility.PartialAlive})
              && r == Success(NotAdmitted(AdmitHarness(p, task), reopened))
            else
              && s'.live && s'.history == [] && s'.feedback == []
              && (RunStage(p, episode, StageActions(task)).Running? <==> r == Success(ResetAccepted))
              && (RunStage(p, episode, StageActions(task)).StageFailed? ==>
                    var failed := RunStage(p, episode, StageActions(task));
                    var back := p.restore(failed.env.world, m.world).standing;
                    r == Success(if back in {Possibility.Alive, Possibility.PartialAlive}
                                 then StageRolledBack(failed.standing, back) else StageRollbackFailed(back)))
  {
    hide RunStage;
    hide AdmitHarness;
  }
}
