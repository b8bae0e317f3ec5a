/** When a repetition cap holds: the exact condition on a task's rules, over every environment and every run. */
module HarnessCaps {
  import opened Outcomes
  import opened HarnessModel
  import opened HarnessRuns

  /** Admission lets the action through as `c`. */
  predicate Passes(rules: seq<Rule>, action: Action, observed: State, history: seq<Action>, c: string) {
    var g := AfterRules(rules, action, observed, history);
    g.Going? && g.current.capability == c
  }

  /** After this history, in some state, some action goes through as `c`. */
  ghost predicate CanFollow(rules: seq<Rule>, history: seq<Action>, c: string) {
    exists action, observed :: Passes(rules, action, observed, history, c)
  }

  function AsAction(c: string): Action {
    Action(c, map[], "", None)
  }

  /** `m` actions of capability `c`. */
  function Alike(c: string, m: nat): seq<Action> {
    if m == 0 then [] else Alike(c, m - 1) + [AsAction(c)]
  }

  /** The rules let a `c` through after `m` of them in a row. */
  ghost predicate Slips(rules: seq<Rule>, c: string, m: nat) {
    CanFollow(rules, Alike(c, m), c)
  }

  /** Each action of the history could follow the ones before it. */
  ghost predicate Traced(rules: seq<Rule>, history: seq<Action>) {
    forall i :: 0 <= i < |history| ==> CanFollow(rules, history[..i], history[i].capability)
  }

  /** The rules let a `c` through at all, after some history they let happen. */
  ghost predicate Reaches(rules: seq<Rule>, c: string) {
    exists history :: Traced(rules, history) && CanFollow(rules, history, c)
  }

  // ---------------------------------------------------------------- what admission sees of a history

  ghost predicate SameRuns(a: seq<Action>, b: seq<Action>) {
    forall x :: TailRun(a, x) == TailRun(b, x)
  }

  /** Admission sees the asked capability, the state and the lengths of the trailing runs, and nothing else. */
  lemma {:induction false} DecisionSees(rules: seq<Rule>, action: Action, asked: Action, observed: State,
                                        history: seq<Action>, other: seq<Action>)
    requires action.capability == asked.capability && SameRuns(history, other)
    ensures var g, h := AfterRules(rules, action, observed, history), AfterRules(rules, asked, observed, other);
            g.Going? == h.Going? && g.current.capability == h.current.capability
  {
    if rules != [] {
      DecisionSees(rules[..|rules| - 1], action, asked, observed, history, other);
    }
  }

  lemma CanFollowSameRuns(rules: seq<Rule>, history: seq<Action>, other: seq<Action>, c: string)
    requires SameRuns(history, other) && CanFollow(rules, history, c)
    ensures CanFollow(rules, other, c)
  {
    var action, observed :| Passes(rules, action, observed, history, c);
    DecisionSees(rules, action, action, observed, history, other);
    assert Passes(rules, action, observed, other, c);
  }

  lemma TailRunSnoc(history: seq<Action>, a: Action, c: string)
    ensures TailRun(history + [a], c) == if a.capability == c then TailRun(history, c) + 1 else 0
  {
    assert (history + [a])[..|history|] == history;
  }

  lemma {:induction false} AlikeRuns(c: string, m: nat, x: string)
    ensures TailRun(Alike(c, m), x) == if x == c then m else 0
  {
    if m > 0 {
      AlikeRuns(c, m - 1, x);
      TailRunSnoc(Alike(c, m - 1), AsAction(c), x);
    }
  }

  lemma EndsInRun(history: seq<Action>, c: string)
    requires TailRun(history, c) >= 1
    ensures SameRuns(history, Alike(c, TailRun(history, c)))
  {
    forall x ensures TailRun(history, x) == TailRun(Alike(c, TailRun(history, c)), x) {
      AlikeRuns(c, TailRun(history, c), x);
    }
  }

  /** After a run of `c`, another `c` can follow exactly when the rules slip at its length. */
  lemma FollowsIffSlips(rules: seq<Rule>, history: seq<Action>, c: string)
    requires TailRun(history, c) >= 1
    ensures CanFollow(rules, history, c) <==> Slips(rules, c, TailRun(history, c))
  {
    EndsInRun(history, c);
    var alike := Alike(c, TailRun(history, c));
    assert SameRuns(alike, history);
    if CanFollow(rules, history, c) {
      CanFollowSameRuns(rules, history, alike, c);
    }
    if CanFollow(rules, alike, c) {
      CanFollowSameRuns(rules, alike, history, c);
    }
  }

  lemma TracedSnoc(rules: seq<Rule>, history: seq<Action>, a: Action)
    requires Traced(rules, history) && CanFollow(rules, history, a.capability)
    ensures Traced(rules, history + [a])
  {
    hide CanFollow;
    var longer := history + [a];
    forall i | 0 <= i < |longer| ensures CanFollow(rules, longer[..i], longer[i].capability) {
      assert longer[..i] == history[..i];
      assert history[..|history|] == history;
    }
  }

  // ---------------------------------------------------------------- a cap that holds

  /** Every history a run reaches is traced. */
  lemma {:induction false} HistoriesAreTraced(p: Provider, task: Task, ops: seq<Operation>)
    ensures Traced(Rules(task), RunAll(p, task, FRESH, ops).history)
  {
    if ops != [] {
      var before := RunAll(p, task, FRESH, ops[..|ops| - 1]);
      HistoriesAreTraced(p, task, ops[..|ops| - 1]);
      match ops[|ops| - 1]
      case OpStep(action) => StepIsTraced(p, task, before, action);
      case OpReset => ResetHistory(p, task, before);
      case OpRestore(_) =>
      case OpTeardown =>
    }
  }

  lemma StepIsTraced(p: Provider, task: Task, s: Session, action: Action)
    requires Traced(Rules(task), s.history)
    ensures Traced(Rules(task), StepSpec(p, task, s, action).0.history)
  {
    hide Traced;
    HistoryRecordsAcceptedSteps(p, task, s, action);
    var d := Decide(task, action, p.observe(s.env.world), s.history);
    if StepSpec(p, task, s, action).1.accepted {
      assert Passes(Rules(task), action, p.observe(s.env.world), s.history, d.current.capability);
      TracedSnoc(Rules(task), s.history, d.current);
    }
  }

  /** On the way to a longer run the history passed through every shorter one. */
  lemma {:induction false} RunOfLength(history: seq<Action>, n: nat, c: string, m: nat) returns (at: nat)
    requires n < |history| && history[n].capability == c && TailRun(history[..n], c) >= m
    ensures at < |history| && history[at].capability == c && TailRun(history[..at], c) == m
  {
    if TailRun(history[..n], c) == m {
      at := n;
    } else {
      assert history[..n][..n - 1] == history[..n - 1];
      at := RunOfLength(history, n - 1, c, m);
    }
  }

  /** Where `k + 1` of them are in a row, `c` is let through, and once more after every shorter run. */
  lemma LongRunSlips(rules: seq<Rule>, history: seq<Action>, i: nat, c: string, k: nat)
    requires Traced(rules, history) && LongRunAt(history, i, c, k)
    ensures Reaches(rules, c) && forall m: nat :: 1 <= m <= k ==> Slips(rules, c, m)
  {
    hide CanFollow;
    TracedPrefix(rules, history, i);
    forall m: nat | 1 <= m <= k ensures Slips(rules, c, m) {
      TailRunCounts(history[..i + k], c);
      var at := RunOfLength(history, i + k, c, m);
      FollowsIffSlips(rules, history[..at], c);
    }
  }

  lemma TracedPrefix(rules: seq<Rule>, history: seq<Action>, n: nat)
    requires Traced(rules, history) && n < |history|
    ensures Traced(rules, history[..n]) && CanFollow(rules, history[..n], history[n].capability)
  {
    hide CanFollow;
    forall i | 0 <= i < n ensures CanFollow(rules, history[..n][..i], history[..n][i].capability) {
      assert history[..n][..i] == history[..i];
    }
  }

  // ---------------------------------------------------------------- a cap that does not hold

  /** A traced history that ends in `c` grows, while the rules slip, to one that ends in `k + 1` of them. */
  lemma {:induction false} Extend(rules: seq<Rule>, history: seq<Action>, c: string, k: nat) returns (longer: seq<Action>)
    requires Traced(rules, history) && TailRun(history, c) >= 1
    requires forall m: nat :: 1 <= m <= k ==> Slips(rules, c, m)
    ensures Traced(rules, longer) && TailRun(longer, c) > k
    decreases k - TailRun(history, c)
  {
    hide CanFollow;
    hide Traced;
    if TailRun(history, c) > k {
      longer := history;
    } else {
      assert Slips(rules, c, TailRun(history, c));
      FollowsIffSlips(rules, history, c);
      TracedSnoc(rules, history, AsAction(c));
      TailRunSnoc(history, AsAction(c), c);
      longer := Extend(rules, history + [AsAction(c)], c, k);
    }
  }

  ghost predicate SameCapabilities(a: seq<Action>, b: seq<Action>) {
    |a| == |b| && forall i :: 0 <= i < |a| ==> a[i].capability == b[i].capability
  }

  lemma {:induction false} SameCapabilitiesRun(a: seq<Action>, b: seq<Action>, x: string)
    requires SameCapabilities(a, b)
    ensures TailRun(a, x) == TailRun(b, x)
  {
    if a != [] {
      SameCapabilitiesRun(a[..|a| - 1], b[..|b| - 1], x);
    }
  }

  lemma {:induction false} LongerThanAll(keys: set<string>) returns (key: string)
    ensures key != "" && forall other :: other in keys ==> |other| < |key|
  {
    if keys == {} {
      key := "k";
    } else {
      var one :| one in keys;
      var rest := LongerThanAll(keys - {one});
      key := rest + one;
    }
  }

  /** The environment the runs below use; it lets itself be restored to any state. */
  function AnyState(): Provider {
    ObligingProvider(map[])
  }

  lemma AnyStateOpens(task: Task)
    ensures var s := RunAll(AnyState(), task, FRESH, [OpReset]);
            s.live && s.history == []
  {
    PreflightIff(AnyState(), task);
    RunAllSnoc(AnyState(), task, FRESH, [], OpReset);
    assert [] + [OpReset] == [OpReset];
    hide RunStage;
  }

  /** Restored to the state that lets it through, the session takes one more action. */
  lemma TakeOne(task: Task, s: Session, history: seq<Action>, c: string) returns (observed: State, action: Action)
    requires s.live && SameCapabilities(s.history, history) && CanFollow(Rules(task), history, c)
    ensures var s' := Operate(AnyState(), task, Operate(AnyState(), task, s, OpRestore(observed)), OpStep(action));
            s'.live && SameCapabilities(s'.history, history + [AsAction(c)])
  {
    var asked: Action;
    asked, observed :| Passes(Rules(task), asked, observed, history, c);
    var key := LongerThanAll(s.env.replays.Keys);
    action := Action(asked.capability, map[], key, None);
    forall x ensures TailRun(history, x) == TailRun(s.history, x) {
      SameCapabilitiesRun(s.history, history, x);
    }
    DecisionSees(Rules(task), asked, action, observed, history, s.history);
    RulesKeepIdentity(Rules(task), action, observed, s.history);
    hide AfterRules;
    hide SameRuns;
    assert key !in s.env.replays;
  }

  /** Every traced history is the history of a run from the first reset, up to payloads and keys. */
  lemma {:induction false} Realize(task: Task, history: seq<Action>) returns (ops: seq<Operation>)
    requires Traced(Rules(task), history)
    ensures var s := RunAll(AnyState(), task, FRESH, ops);
            s.live && SameCapabilities(s.history, history)
  {
    if history == [] {
      ops := [OpReset];
      AnyStateOpens(task);
    } else {
      var n := |history| - 1;
      TracedPrefix(Rules(task), history, n);
      hide CanFollow;
      hide Operate;
      var before := Realize(task, history[..n]);
      var s := RunAll(AnyState(), task, FRESH, before);
      var observed, action := TakeOne(task, s, history[..n], history[n].capability);
      RunAllSnoc(AnyState(), task, FRESH, before, OpRestore(observed));
      RunAllSnoc(AnyState(), task, FRESH, before + [OpRestore(observed)], OpStep(action));
      ops := before + [OpRestore(observed)] + [OpStep(action)];
    }
  }

  lemma CapIsBroken(task: Task, c: string, k: nat) returns (p: Provider, ops: seq<Operation>)
    requires Reaches(Rules(task), c) && forall m: nat :: 1 <= m <= k ==> Slips(Rules(task), c, m)
    ensures !NoLongRun(RunAll(p, task, FRESH, ops).history, c, k)
  {
    hide CanFollow;
    hide Slips;
    var rules := Rules(task);
    var first :| Traced(rules, first) && CanFollow(rules, first, c);
    TracedSnoc(rules, first, AsAction(c));
    hide Traced;
    TailRunSnoc(first, AsAction(c), c);
    var longer := Extend(rules, first + [AsAction(c)], c, k);
    p := AnyState();
    ops := Realize(task, longer);
    var history := RunAll(p, task, FRESH, ops).history;
    SameCapabilitiesRun(history, longer, c);
    TailRunCounts(history, c);
    assert LongRunAt(history, |history| - k - 1, c, k);
  }

  /**
   The exact condition: over every environment and every run of resets, steps, restores and teardowns
   no `k + 1` actions in a row have capability `c`, if and only if the rules never let a `c` through
   or, at some length up to `k`, let none through after a run of that length.
   */
  lemma CapHoldsIff(task: Task, c: string, k: nat)
    ensures (forall p, ops :: NoLongRun(RunAll(p, task, FRESH, ops).history, c, k)) <==>
            !Reaches(Rules(task), c) || exists m: nat :: 1 <= m <= k && !Slips(Rules(task), c, m)
  {
    hide Slips;
    hide Reaches;
    if !Reaches(Rules(task), c) || exists m: nat :: 1 <= m <= k && !Slips(Rules(task), c, m) {
      forall p, ops ensures NoLongRun(RunAll(p, task, FRESH, ops).history, c, k) {
        HistoriesAreTraced(p, task, ops);
        forall i: nat ensures !LongRunAt(RunAll(p, task, FRESH, ops).history, i, c, k) {
          if LongRunAt(RunAll(p, task, FRESH, ops).history, i, c, k) {
            LongRunSlips(Rules(task), RunAll(p, task, FRESH, ops).history, i, c, k);
          }
        }
      }
    } else {
      var p, ops := CapIsBroken(task, c, k);
    }
  }

  /** Where a first `c` goes through, a cap holds exactly when the rules stop one at some length up to `k`. */
  lemma CapHoldsIffSomeRunStops(task: Task, c: string, k: nat)
    requires Slips(Rules(task), c, 0)
    ensures (forall p, ops :: NoLongRun(RunAll(p, task, FRESH, ops).history, c, k)) <==>
            exists m: nat :: 1 <= m <= k && !Slips(Rules(task), c, m)
  {
    CapHoldsIff(task, c, k);
    assert Traced(Rules(task), []) && CanFollow(Rules(task), [], c);
  }

  // ---------------------------------------------------------------- what decides the condition

  /** A cap behind every rewrite to `c` meets the condition. */
  lemma CapsMeetTheCondition(rules: seq<Rule>, n: nat, c: string, k: nat)
    requires Caps(rules, n, c, k)
    ensures if k == 0 then !Reaches(rules, c) else !Slips(rules, c, k)
  {
    AlikeRuns(c, k, c);
    forall action, observed, history ensures Passes(rules, action, observed, history, c) ==> TailRun(history, c) < k {
      if Passes(rules, action, observed, history, c) {
        CapEnforced(rules, n, c, k, action, observed, history);
      }
    }
  }

  /** A rewrite to `c` behind every rule on `c`, in whatever state it asks for, violates it for every `k`. */
  lemma EvadableSlips(rules: seq<Rule>, j: nat, d: string, c: string)
    requires Evadable(rules, j, d, c)
    ensures Reaches(rules, c) && forall m: nat :: Slips(rules, c, m)
  {
    var observed := rules[j].requiredState;
    SubsetOfItself(observed);
    forall m: nat ensures Slips(rules, c, m) {
      EvadingGoesThrough(rules, j, c, AsAction(d), observed, Alike(c, m));
      assert Passes(rules, AsAction(d), observed, Alike(c, m), c);
    }
    assert Slips(rules, c, 0);
    assert Traced(rules, []);
  }
}
