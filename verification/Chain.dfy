/** `ChainSession` (`src/gymact/envharness.py`): serial legs, each verified before the next one opens. */
module Chain {
  import opened Outcomes
  import opened Sequences
  import opened HarnessModel
  import opened Harness

  /** A recorded verification, with the leg it was recorded on. */
  datatype Verdict = Verdict(leg: nat, passed: bool)

  /** `session` is the current leg's; it also carries the runtime's state before the first reset. */
  datatype ChainState = ChainState(leg: nat, started: bool, session: Session, verdicts: seq<Verdict>)

  datatype AdvanceResult = AdvanceResult(accepted: bool, standing: Standing, leg: nat, complete: bool)

  datatype ChainError = ChainNotReset | SessionNotReset | PriorTeardownFailed(standing: Standing)

  function NewSession(s: Session): Session {
    s.(live := false, history := [], feedback := [])
  }

  function ResetStanding(r: ResetResult): Standing {
    match r
    case NotMaterialized(standing) => standing
    case NotAdmitted(admission, cleanup) =>
      if !Good(cleanup) then cleanup
      else if admission.StageRequiresDo? then Possibility.Refused else Possibility.Unsupported
    case StageRolledBack(standing, _) => standing
    case StageRollbackFailed(rollback) => rollback
    case ResetAccepted => Possibility.Alive
  }

  function ChainReset(p: Provider, tasks: seq<Task>, c: ChainState): (ChainState, Result<ResetResult, ChainError>)
    requires tasks != []
  {
    if c.started && c.session.live && !Good(p.teardown(c.session.env.world)) then
      (c, Failure(PriorTeardownFailed(p.teardown(c.session.env.world))))
    else
      var (s, r) := ResetSpec(p, tasks[0], NewSession(c.session));
      (ChainState(0, true, s, []), Success(r.value))
  }

  function ChainAdvance(p: Provider, tasks: seq<Task>, c: ChainState): (ChainState, Result<AdvanceResult, ChainError>)
    requires c.leg < |tasks|
  {
    if !c.started then (c, Failure(ChainNotReset))
    else if !c.session.live then (c, Failure(SessionNotReset))
    else if !p.verify(c.session.env.world, tasks[c.leg].goal) then
      (c, Success(AdvanceResult(false, Possibility.Refused, c.leg, false)))
    else
      var recorded := c.(verdicts := c.verdicts + [Verdict(c.leg, true)]);
      if c.leg == |tasks| - 1 then (recorded, Success(AdvanceResult(true, Possibility.Alive, c.leg, true)))
      else if !Good(p.teardown(c.session.env.world)) then
        (recorded, Success(AdvanceResult(false, p.teardown(c.session.env.world), c.leg, false)))
      else
        var (s, r) := ResetSpec(p, tasks[c.leg + 1], NewSession(c.session));
        (recorded.(leg := c.leg + 1, session := s),
         Success(AdvanceResult(r.value.ResetAccepted?, ResetStanding(r.value), c.leg, false)))
  }

  // ---------------------------------------------------------------- the class

  class ChainSession {
    const runtime: Runtime
    const tasks: seq<Task>
    var legIndex: nat
    var current: HarnessSession?
    var verifications: seq<bool>
    ghost var legs: seq<nat>

    ghost predicate Valid()
      reads this
    {
      && legIndex < |tasks|
      && |legs| == |verifications|
      && (current != null ==> current.runtime == runtime && current.task == tasks[legIndex])
    }

    ghost function View(): ChainState
      requires Valid()
      reads this, runtime, current
    {
      ChainState(
        legIndex, current != null,
        if current != null then current.View() else Session(false, runtime.View(), [], []),
        seq(|legs|, i requires 0 <= i < |legs| && Valid() reads this => Verdict(legs[i], verifications[i])))
    }

    constructor (runtime: Runtime, tasks: seq<Task>)
      requires tasks != []
      ensures Valid() && this.runtime == runtime && this.tasks == tasks
      ensures View() == ChainState(0, false, Session(false, runtime.View(), [], []), [])
    {
      this.runtime, this.tasks := runtime, tasks;
      legIndex, current, verifications, legs := 0, null, [], [];
    }

    /** `complete`: as many verdicts as tasks, all of them passed. */
    method Complete() returns (complete: bool)
      requires Valid()
      ensures complete == IsComplete(tasks, View())
    {
      complete := |verifications| == |tasks| && forall i :: 0 <= i < |verifications| ==> verifications[i];
      assert forall i :: 0 <= i < |verifications| ==> View().verdicts[i].passed == verifications[i];
    }

    method Reset() returns (r: Result<ResetResult, ChainError>)
      requires Valid()
      modifies this, runtime, current
      ensures Valid()
      ensures (View(), r) == ChainReset(runtime.provider, tasks, old(View()))
      ensures current != old(current) ==> fresh(current)
    {
      hide ResetSpec;
      ResetNeverRaises(runtime.provider, tasks[0], NewSession(View().session));
      if current != null && current.live {
        var torn := current.Teardown();
        if !Good(torn.value) {
          return Failure(PriorTeardownFailed(torn.value));
        }
      }
      legIndex, verifications, legs := 0, [], [];
      current := new HarnessSession(runtime, tasks[0]);
      assert View().verdicts == [];
      var reset := current.Reset();
      assert View().verdicts == [];
      return Success(reset.value);
    }

    method Step(action: Action) returns (r: Result<StepResult, ChainError>)
      requires Valid()
      modifies runtime, current
      ensures Valid() && legIndex == old(legIndex) && View().verdicts == old(View().verdicts)
      ensures current == null ==> r == Failure(ChainNotReset) && View() == old(View())
      ensures current != null && !old(current.live) ==> r == Failure(SessionNotReset) && View() == old(View())
      ensures current != null && old(current.live) ==>
                r.Success? && (View().session, r.value) ==
                              StepSpec(runtime.provider, tasks[legIndex], old(View().session), action)
    {
      hide StepSpec;
      if current == null {
        return Failure(ChainNotReset);
      }
      var step := current.Step(action);
      return if step.Success? then Success(step.value) else Failure(SessionNotReset);
    }

    /** `advance`: verify the leg, tear it down, and only then open the next one. */
    method Advance() returns (r: Result<AdvanceResult, ChainError>)
      requires Valid()
      modifies this, runtime, current
      ensures Valid()
      ensures (View(), r) == ChainAdvance(runtime.provider, tasks, old(View()))
      ensures current != old(current) ==> fresh(current)
    {
      hide ResetSpec;
      if current == null {
        return Failure(ChainNotReset);
      }
      var verified := current.VerifyGoal();
      if verified.Failure? {
        return Failure(SessionNotReset);
      }
      if !verified.value {
        return Success(AdvanceResult(false, Possibility.Refused, legIndex, false));
      }
      verifications, legs := verifications + [true], legs + [legIndex];
      var finished := legIndex;
      assert View().verdicts == old(View().verdicts) + [Verdict(finished, true)];
      if legIndex == |tasks| - 1 {
        return Success(AdvanceResult(true, Possibility.Alive, finished, true));
      }
      var torn := current.Teardown();
      assert View().verdicts == old(View().verdicts) + [Verdict(finished, true)];
      if !Good(torn.value) {
        return Success(AdvanceResult(false, torn.value, finished, false));
      }
      ResetNeverRaises(runtime.provider, tasks[legIndex + 1], NewSession(old(View()).session));
      legIndex := legIndex + 1;
      current := new HarnessSession(runtime, tasks[legIndex]);
      assert current.View() == NewSession(old(View()).session);
      var reset := current.Reset();
      assert View().verdicts == old(View().verdicts) + [Verdict(finished, true)];
      return Success(AdvanceResult(reset.value.ResetAccepted?, ResetStanding(reset.value), finished, false));
    }
  }

  lemma ResetNeverRaises(p: Provider, task: Task, s: Session)
    requires !s.live
    ensures ResetSpec(p, task, s).1.Success?
  {
  }

  // ---------------------------------------------------------------- chain discipline

  ghost predicate IsComplete(tasks: seq<Task>, c: ChainState) {
    |c.verdicts| == |tasks| && forall i :: 0 <= i < |c.verdicts| ==> c.verdicts[i].passed
  }

  ghost predicate HasVerdict(c: ChainState, leg: nat) {
    exists i :: 0 <= i < |c.verdicts| && c.verdicts[i].leg == leg && c.verdicts[i].passed
  }

  /** What every reachable chain state satisfies. */
  ghost predicate Disciplined(tasks: seq<Task>, c: ChainState) {
    && c.leg < |tasks|
    && (forall i :: 0 <= i < |c.verdicts| ==> c.verdicts[i].passed && c.verdicts[i].leg <= c.leg)
    && (forall i, j :: 0 <= i < j < |c.verdicts| ==> c.verdicts[i].leg <= c.verdicts[j].leg)
    && (forall leg: nat :: leg < c.leg ==> HasVerdict(c, leg))
    && (!c.started ==> c.leg == 0 && c.verdicts == [])
  }

  datatype Operation = Resetting | Advancing | Stepping(action: Action)

  function Operate(p: Provider, tasks: seq<Task>, c: ChainState, op: Operation): ChainState
    requires c.leg < |tasks|
  {
    match op
    case Resetting => ChainReset(p, tasks, c).0
    case Advancing => ChainAdvance(p, tasks, c).0
    case Stepping(action) =>
      if c.started && c.session.live then c.(session := StepSpec(p, tasks[c.leg], c.session, action).0) else c
  }

  lemma VerdictStays(c: ChainState, c': ChainState, leg: nat)
    requires HasVerdict(c, leg) && c.verdicts <= c'.verdicts
    ensures HasVerdict(c', leg)
  {
    var i :| 0 <= i < |c.verdicts| && c.verdicts[i].leg == leg && c.verdicts[i].passed;
    assert c'.verdicts[i] == c.verdicts[i];
  }

  lemma OperateDisciplined(p: Provider, tasks: seq<Task>, c: ChainState, op: Operation)
    requires Disciplined(tasks, c)
    ensures Disciplined(tasks, Operate(p, tasks, c, op))
  {
    hide ResetSpec;
    hide StepSpec;
    var c' := Operate(p, tasks, c, op);
    if op.Advancing? {
      forall leg: nat | leg < c'.leg ensures HasVerdict(c', leg) {
        if leg < c.leg {
          VerdictStays(c, c', leg);
        } else {
          assert c'.verdicts[|c.verdicts|] == Verdict(leg, true);
        }
      }
    } else if op.Stepping? {
      forall leg: nat | leg < c'.leg ensures HasVerdict(c', leg) {
        VerdictStays(c, c', leg);
      }
    } else if c' == c {
      assert Disciplined(tasks, c');
    }
  }

  /**
   Chain discipline over whole runs: every recorded verdict passed, the leg index stays in range,
   verdicts come in leg order and cover every leg below the index.
   */
  lemma {:induction false} ChainDiscipline(p: Provider, tasks: seq<Task>, start: ChainState, ops: seq<Operation>)
    requires tasks != [] && start.leg == 0 && !start.started && start.verdicts == []
    ensures Disciplined(tasks, RunChain(p, tasks, start, ops))
  {
    if ops != [] {
      ChainDiscipline(p, tasks, start, ops[..|ops| - 1]);
      OperateDisciplined(p, tasks, RunChain(p, tasks, start, ops[..|ops| - 1]), ops[|ops| - 1]);
    }
  }

  function RunChain(p: Provider, tasks: seq<Task>, start: ChainState, ops: seq<Operation>): (c: ChainState)
    requires start.leg < |tasks|
    ensures c.leg < |tasks|
  {
    if ops == [] then start
    else Operate(p, tasks, RunChain(p, tasks, start, ops[..|ops| - 1]), ops[|ops| - 1])
  }

  /** `advance` replaces a leg's session only after the leg's own verifier passed and its teardown stood good. */
  lemma LegsReplacedWhenVerified(p: Provider, tasks: seq<Task>, c: ChainState)
    requires c.leg < |tasks|
    ensures var (c', r) := ChainAdvance(p, tasks, c);
            && (c'.leg != c.leg ==>
                  && c'.leg == c.leg + 1 && c.started && c.session.live
                  && p.verify(c.session.env.world, tasks[c.leg].goal) && Good(p.teardown(c.session.env.world))
                  && c'.verdicts == c.verdicts + [Verdict(c.leg, true)])
            && (c'.leg == c.leg ==> c'.session == c.session && c'.started == c.started)
  {
  }

  // ---------------------------------------------------------------- completeness

  function LegsOf(c: ChainState): (legs: seq<nat>)
    ensures |legs| == |c.verdicts| && forall i :: 0 <= i < |legs| ==> legs[i] == c.verdicts[i].leg
  {
    seq(|c.verdicts|, i requires 0 <= i < |c.verdicts| => c.verdicts[i].leg)
  }

  lemma {:induction false} IncreasingIsAtLeast(legs: seq<nat>, i: nat)
    requires forall j, k :: 0 <= j < k < |legs| ==> legs[j] < legs[k]
    requires i < |legs|
    ensures legs[i] >= i
  {
    if i > 0 {
      IncreasingIsAtLeast(legs, i - 1);
    }
  }

  lemma {:induction false} IncreasingIsAtMost(legs: seq<nat>, i: nat)
    requires forall j, k :: 0 <= j < k < |legs| ==> legs[j] < legs[k]
    requires i < |legs| && legs[|legs| - 1] < |legs|
    ensures legs[i] <= i
    decreases |legs| - i
  {
    if i < |legs| - 1 {
      IncreasingIsAtMost(legs, i + 1);
    }
  }

  lemma {:induction false} FullSizeMeansNoDup<T>(s: seq<T>)
    requires |ToSet(s)| == |s|
    ensures NoDup(s)
  {
    if s != [] {
      var front, last := s[..|s| - 1], s[|s| - 1];
      FrontAndLast(s);
      SizeOfToSet(front);
      assert ToSet(s) == ToSet(front) + {last};
      FullSizeMeansNoDup(front);
    }
  }

  ghost function Below(n: nat): (below: set<nat>)
    ensures |below| == n
    ensures forall i: nat :: i in below <==> i < n
  {
    if n == 0 then {} else Below(n - 1) + {n - 1}
  }

  /**
   `complete` counts verdicts, not legs: in a reachable complete state every leg has its verdict
   exactly when no leg has two.
   */
  lemma CompleteMeansEveryLeg(tasks: seq<Task>, c: ChainState)
    requires Disciplined(tasks, c) && IsComplete(tasks, c)
    ensures (forall leg: nat :: leg < |tasks| ==> HasVerdict(c, leg)) <==> NoDup(LegsOf(c))
  {
    var legs := LegsOf(c);
    if NoDup(legs) {
      assert forall j, k :: 0 <= j < k < |legs| ==> legs[j] != legs[k] && legs[j] <= legs[k];
      forall leg: nat | leg < |tasks| ensures HasVerdict(c, leg) {
        IncreasingIsAtLeast(legs, leg);
        IncreasingIsAtMost(legs, leg);
        assert c.verdicts[leg].leg == leg;
      }
    } else if forall leg: nat :: leg < |tasks| ==> HasVerdict(c, leg) {
      forall leg: nat | leg in Below(|tasks|) ensures leg in ToSet(legs) {
        assert HasVerdict(c, leg);
        var i :| 0 <= i < |c.verdicts| && c.verdicts[i].leg == leg && c.verdicts[i].passed;
        assert legs[i] == leg;
      }
      SubsetSize(Below(|tasks|), ToSet(legs));
      SizeOfToSet(legs);
      FullSizeMeansNoDup(legs);
    }
  }

  /** A passed advance on a leg that already has a verdict. */
  predicate RepeatsLeg(p: Provider, tasks: seq<Task>, c: ChainState, op: Operation)
    requires c.leg < |tasks|
  {
    && op.Advancing? && c.started && c.session.live && p.verify(c.session.env.world, tasks[c.leg].goal)
    && c.verdicts != [] && c.verdicts[|c.verdicts| - 1].leg == c.leg
  }

  predicate ResetRefused(p: Provider, c: ChainState) {
    c.started && c.session.live && !Good(p.teardown(c.session.env.world))
  }

  /** Since the last reset that went through, no advance passed on a leg that already had a verdict. */
  predicate OncePerLeg(p: Provider, tasks: seq<Task>, start: ChainState, ops: seq<Operation>)
    requires start.leg < |tasks|
  {
    ops == [] ||
    var front, op := ops[..|ops| - 1], ops[|ops| - 1];
    var c := RunChain(p, tasks, start, front);
    if op.Resetting? && !ResetRefused(p, c) then true
    else OncePerLeg(p, tasks, start, front) && !RepeatsLeg(p, tasks, c, op)
  }

  lemma LegsSnoc(c: ChainState, v: Verdict)
    ensures LegsOf(c.(verdicts := c.verdicts + [v])) == LegsOf(c) + [v.leg]
  {
  }

  lemma SortedLegsLast(tasks: seq<Task>, c: ChainState)
    requires Disciplined(tasks, c)
    ensures c.leg in LegsOf(c) <==> c.verdicts != [] && c.verdicts[|c.verdicts| - 1].leg == c.leg
  {
    var legs := LegsOf(c);
    if c.leg in legs {
      var i :| 0 <= i < |legs| && legs[i] == c.leg;
      assert c.verdicts[i].leg <= c.verdicts[|c.verdicts| - 1].leg;
    }
    if c.verdicts != [] {
      assert legs[|legs| - 1] == c.verdicts[|c.verdicts| - 1].leg;
    }
  }

  lemma {:induction false} VerdictsOncePerLeg(p: Provider, tasks: seq<Task>, start: ChainState, ops: seq<Operation>)
    requires tasks != [] && start.leg == 0 && !start.started && start.verdicts == []
    ensures NoDup(LegsOf(RunChain(p, tasks, start, ops))) <==> OncePerLeg(p, tasks, start, ops)
  {
    hide ResetSpec;
    hide StepSpec;
    if ops != [] {
      var front, op := ops[..|ops| - 1], ops[|ops| - 1];
      var c := RunChain(p, tasks, start, front);
      VerdictsOncePerLeg(p, tasks, start, front);
      ChainDiscipline(p, tasks, start, front);
      SortedLegsLast(tasks, c);
      var c', legs := Operate(p, tasks, c, op), LegsOf(c);
      if c'.verdicts == c.verdicts {
        assert LegsOf(c') == legs;
      } else if op.Advancing? {
        LegsSnoc(c, Verdict(c.leg, true));
        assert LegsOf(c') == legs + [c.leg];
        NoDupSnoc(legs, c.leg);
      }
    }
  }

  lemma NoDupSnoc<T>(s: seq<T>, x: T)
    ensures NoDup(s + [x]) <==> NoDup(s) && x !in s
  {
    var longer := s + [x];
    if NoDup(longer) {
      assert forall i :: 0 <= i < |s| ==> s[i] == longer[i] && longer[i] != longer[|s|];
    }
  }

  /** A passed advance leaves its leg in place, for another to repeat, exactly on the last leg or when the teardown is refused. */
  lemma LegStaysIff(p: Provider, tasks: seq<Task>, c: ChainState)
    requires c.leg < |tasks|
    ensures var c' := ChainAdvance(p, tasks, c).0;
            c'.verdicts != c.verdicts ==>
              (c'.leg == c.leg <==> c.leg == |tasks| - 1 || !Good(p.teardown(c.session.env.world)))
  {
  }

  /**
   What `complete` means of a run: every leg was verified exactly when no advance passed twice on one
   leg. Advancing again is possible on the last leg and after a refused teardown.
   */
  lemma CompleteIffOncePerLeg(p: Provider, tasks: seq<Task>, start: ChainState, ops: seq<Operation>)
    requires tasks != [] && start.leg == 0 && !start.started && start.verdicts == []
    requires IsComplete(tasks, RunChain(p, tasks, start, ops))
    ensures (forall leg: nat :: leg < |tasks| ==> HasVerdict(RunChain(p, tasks, start, ops), leg)) <==>
            OncePerLeg(p, tasks, start, ops)
  {
    ChainDiscipline(p, tasks, start, ops);
    CompleteMeansEveryLeg(tasks, RunChain(p, tasks, start, ops));
    VerdictsOncePerLeg(p, tasks, start, ops);
  }

  /** A provider whose goals always hold and whose teardown is always refused. */
  function StubbornProvider(): Provider {
    Provider(
      (t: Task) => Materialization(true, Possibility.Alive, map[]),
      (capability: string) => None,
      (world: State) => world,
      (world: State, capability: string, payload: State) => world,
      (world: State, intent: Intent) => Actuation(true, Possibility.Alive, world),
      (world: State, expected: State) => true,
      (world: State, checkpoint: State) => Restoration(Possibility.Alive, checkpoint),
      (world: State) => Possibility.Refused)
  }

  /** With nothing to admit or stage, a reset leaves a live session in an empty world. */
  lemma EmptyReset(p: Provider, task: Task)
    requires p == StubbornProvider() && task == Task("provider", "", map[], [], [])
    ensures ResetSpec(p, task, FRESH) == (Session(true, Env(1, map[], map[], []), [], []), Success(ResetAccepted))
  {
    assert Rules(task) == [] && StageActions(task) == [];
    assert RunStage(p, Env(1, map[], map[], []), []) == Running(Env(1, map[], map[], []));
    assert AdmitHarness(p, task) == HarnessAdmitted;
  }

  /** Two advances on the first of two legs: the chain reports complete, and the second leg never opened. */
  lemma CompleteWithoutTheLastLeg()
    ensures var task := Task("provider", "", map[], [], []);
            var start := ChainState(0, false, FRESH, []);
            var c := RunChain(StubbornProvider(), [task, task], start, [Resetting, Advancing, Advancing]);
            IsComplete([task, task], c) && c.leg == 0 && !HasVerdict(c, 1)
  {
    var p, task := StubbornProvider(), Task("provider", "", map[], [], []);
    var tasks, start := [task, task], ChainState(0, false, FRESH, []);
    assert [Resetting, Advancing, Advancing][..2] == [Resetting, Advancing];
    assert [Resetting, Advancing][..1] == [Resetting] && [Resetting][..0] == [];
    var c1 := RunChain(p, tasks, start, [Resetting]);
    EmptyReset(p, task);
    assert NewSession(FRESH) == FRESH;
    assert RunChain(p, tasks, start, []) == start;
    assert c1 == ChainReset(p, tasks, start).0;
    assert c1 == ChainState(0, true, Session(true, Env(1, map[], map[], []), [], []), []);
    hide ResetSpec;
    var c2 := RunChain(p, tasks, start, [Resetting, Advancing]);
    assert c2 == c1.(verdicts := [Verdict(0, true)]);
  }

  // ---------------------------------------------------------------- what an advance answers

  ghost predicate StandsGood(standing: Standing) {
    standing in {Possibility.Alive, Possibility.PartialAlive}
  }

  /** The standing a leg's reset gives the advance that opened it. */
  ghost predicate AnswersReset(reset: ResetResult, accepted: bool, standing: Standing) {
    && (accepted <==> reset == ResetAccepted)
    && (reset == ResetAccepted ==> standing == Possibility.Alive)
    && (reset.NotMaterialized? ==> standing == reset.standing)
    && (reset.StageRolledBack? ==> standing == reset.standing)
    && (reset.StageRollbackFailed? ==> standing == reset.rollback)
    && (reset.NotAdmitted? ==>
          standing == if !StandsGood(reset.cleanup) then reset.cleanup
                      else if reset.admission == StageRequiresDo then Possibility.Refused else Possibility.Unsupported)
  }

  /**
   An advance answers for the leg it was asked on: refused without a verdict when the leg is not verified;
   complete when the last leg is; with the teardown's standing when that is refused; and with the outcome of the
   next leg's reset, in a session of its own, when it opened one.
   */
  lemma AdvanceMeans(p: Provider, tasks: seq<Task>, c: ChainState)
    requires c.leg < |tasks|
    ensures var (c', r) := ChainAdvance(p, tasks, c);
            var world, verdict := c.session.env.world, Verdict(c.leg, true);
            var torn := p.teardown(world);
            if !c.started then c' == c && r == Failure(ChainNotReset)
            else if !c.session.live then c' == c && r == Failure(SessionNotReset)
            else
              && r.Success? && r.value.leg == c.leg
              && (r.value.complete <==> p.verify(world, tasks[c.leg].goal) && c.leg + 1 == |tasks|)
              && if !p.verify(world, tasks[c.leg].goal) then
                   c' == c && !r.value.accepted && r.value.standing == Possibility.Refused
                 else if c.leg + 1 == |tasks| || !StandsGood(torn) then
                   && c' == ChainState(c.leg, true, c.session, c.verdicts + [verdict])
                   && (r.value.accepted <==> c.leg + 1 == |tasks|)
                   && r.value.standing == if c.leg + 1 == |tasks| then Possibility.Alive else torn
                 else
                   var (s, reset) := ResetSpec(p, tasks[c.leg + 1], Session(false, c.session.env, [], []));
                   && c' == ChainState(c.leg + 1, true, s, c.verdicts + [verdict])
                   && reset.Success? && AnswersReset(reset.value, r.value.accepted, r.value.standing)
  {
    if c.leg + 1 < |tasks| {
      ResetNeverRaises(p, tasks[c.leg + 1], NewSession(c.session));
    }
    hide ResetSpec;
  }

  /** A reset of the chain opens its first leg with no verdict, in a session of its own, unless the prior session's teardown is refused. */
  lemma ChainResetMeans(p: Provider, tasks: seq<Task>, c: ChainState)
    requires tasks != []
    ensures var (c', r) := ChainReset(p, tasks, c);
            var torn := p.teardown(c.session.env.world);
            if c.started && c.session.live && !StandsGood(torn) then c' == c && r == Failure(PriorTeardownFailed(torn))
            else
              var (s, reset) := ResetSpec(p, tasks[0], Session(false, c.session.env, [], []));
              reset.Success? && c' == ChainState(0, true, s, []) && r == Success(reset.value)
  {
    ResetNeverRaises(p, tasks[0], NewSession(c.session));
    hide ResetSpec;
  }
}
