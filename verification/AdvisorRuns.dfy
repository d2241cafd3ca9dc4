/** What decides, over whole runs of the advisor graph, whether planning starts and which plan is shown. */
module AdvisorRuns {
  // Two gates let through more than they are there for: a major verdict of an earlier turn survives a
  // failed validation, and a rejected plan without feedback counts as a passed one.

  import opened Text
  import opened AdvisorState
  import opened AdvisorGraph

  // A run goes on by steps.
  lemma {:induction false} RunSteps(c: Config, inputs: seq<Input>, k: nat)
    requires k + 1 < |Run(c, inputs)|
    ensures k < |inputs| && Run(c, inputs)[k].node != End
    ensures Run(c, inputs)[k + 1] == Next(Run(c, inputs)[k], inputs[k])
    decreases k
  {
    hide Next;
    if k > 0 {
      RunSteps(Next(c, inputs[0]), inputs[1..], k - 1);
    }
  }

  // ---------------------------------------------------------------- which verdict starts planning

  predicate PastStart(n: Node) {
    InPlanning(n) && n != StartPlanning
  }

  // Until planning is started the major verdict is the one the turn began with.
  predicate VerdictIsOld(c: Config, passed: bool) {
    && (!c.started ==> c.state.majorPassed == passed)
    && (PastStart(c.node) ==> c.started)
  }

  lemma {:induction false} BatchKeepsVerdict(s: State, batch: seq<ToolResult>)
    ensures ApplyBatch(s, batch).majorPassed == s.majorPassed
    decreases |batch|
  {
    hide MissingFields, Revised, MetadataKey;
    if batch != [] {
      BatchKeepsVerdict(ApplyResult(s, batch[0]), batch[1..]);
    }
  }

  lemma StepKeepsVerdict(c: Config, input: Input, passed: bool)
    requires VerdictIsOld(c, passed) && c.node != End
    ensures VerdictIsOld(Next(c, input), passed)
  {
    hide MetadataKey, Trim, ApplyBatch, HandbookMatches, HasConfirmation, WithoutLookups, MakePlanStep, EvalPlanStep,
      EvalListsStep, ResetPlanning;
    BatchKeepsVerdict(c.state, LatestBatch(c.state));
  }

  lemma {:induction false} RunKeepsVerdict(c: Config, inputs: seq<Input>, passed: bool, k: nat)
    requires VerdictIsOld(c, passed) && k < |Run(c, inputs)|
    ensures VerdictIsOld(Run(c, inputs)[k], passed)
    decreases k
  {
    hide VerdictIsOld, Next;
    if k > 0 {
      StepKeepsVerdict(c, inputs[0], passed);
      RunKeepsVerdict(Next(c, inputs[0]), inputs[1..], passed, k - 1);
    }
  }

  // Where a run was started.
  lemma {:induction false} StartedAt(c: Config, inputs: seq<Input>, k: nat) returns (j: nat)
    requires !c.started && k < |Run(c, inputs)| && Run(c, inputs)[k].started
    ensures j < k && Run(c, inputs)[j].node == StartPlanning && !Run(c, inputs)[j].started
    decreases k
  {
    hide Run, Step, Route;
    RunSteps(c, inputs, k - 1);
    if Run(c, inputs)[k - 1].started {
      j := StartedAt(c, inputs, k - 1);
    } else {
      j := k - 1;
    }
  }

  // What lets a turn that began with the verdict `passed` on to Stage 1.
  predicate LetsPlan(verdict: Verdict, passed: bool) {
    verdict.Valid? || (verdict.Failed? && passed)
  }

  lemma StartDecides(c: Config, input: Input)
    requires c.node == StartPlanning && HandbookMatches(c.state)
    ensures Next(c, input).node == if LetsPlan(input.verdict, c.state.majorPassed) then CoreSubjects else End
  {
    hide HandbookMatches;
  }

  // In a turn, `start_planning` leads to Stage 1 exactly when the majors are validated there, or the
  // validation fails and the turn began with an old verdict in place.
  lemma StartOfTurnIff(s: State, inputs: seq<Input>, j: nat)
    requires j + 1 < |Run(Config(Agent, s, false), inputs)|
    requires Run(Config(Agent, s, false), inputs)[j].node == StartPlanning
    ensures j < |inputs|
    ensures Run(Config(Agent, s, false), inputs)[j + 1].node == CoreSubjects <==> LetsPlan(inputs[j].verdict, s.majorPassed)
  {
    hide Run, Next, VerdictIsOld, LetsPlan, StartedSettles, HandbookMatches;
    var c := Config(Agent, s, false);
    RunSteps(c, inputs, j);
    OldVerdictAt(c, inputs, j);
    EveryRunIsGated(s, inputs, j);
    StartDecides(Run(c, inputs)[j], inputs[j]);
  }

  lemma OldVerdictAt(c: Config, inputs: seq<Input>, j: nat)
    requires c.node == Agent && !c.started && j < |Run(c, inputs)| && Run(c, inputs)[j].node == StartPlanning
    ensures Run(c, inputs)[j].state.majorPassed == c.state.majorPassed
  {
    hide Run;
    RunKeepsVerdict(c, inputs, c.state.majorPassed, j);
    RunSettles(c, inputs, j);
  }

  // The turn is let on at point j.
  predicate LetOnAt(s: State, inputs: seq<Input>, j: nat) {
    && j < |inputs| && j < |Run(Config(Agent, s, false), inputs)|
    && Run(Config(Agent, s, false), inputs)[j].node == StartPlanning
    && LetsPlan(inputs[j].verdict, s.majorPassed)
  }

  // Whatever a turn does in Stage 1 or Stage 2, a verdict of that turn let it there, or the verdict
  // that the turn began with did because the validation failed.
  lemma PlanningWasLet(s: State, inputs: seq<Input>, k: nat)
    requires k < |Run(Config(Agent, s, false), inputs)| && PastStart(Run(Config(Agent, s, false), inputs)[k].node)
    ensures exists j :: 0 <= j < k && LetOnAt(s, inputs, j)
  {
    hide Run, LetsPlan, HandbookMatches;
    var c := Config(Agent, s, false);
    RunKeepsVerdict(c, inputs, s.majorPassed, k);
    var j := StartedAt(c, inputs, k);
    RunSteps(c, inputs, j);
    if !LetOnAt(s, inputs, j) {
      StartOfTurnIff(s, inputs, j);
      StopsAtEnd(s, inputs, j, k);
    }
  }

  // A turn that is not let on is over.
  lemma StopsAtEnd(s: State, inputs: seq<Input>, j: nat, k: nat)
    requires j < k < |Run(Config(Agent, s, false), inputs)| && Run(Config(Agent, s, false), inputs)[j].node == StartPlanning
    requires Run(Config(Agent, s, false), inputs)[j + 1].node != CoreSubjects
    ensures k == j + 1 && Run(Config(Agent, s, false), inputs)[k].node == End
  {
    hide Run, Next, HandbookMatches;
    var c := Config(Agent, s, false);
    RunSteps(c, inputs, j);
    EveryRunIsGated(s, inputs, j);
    StartDecides(Run(c, inputs)[j], inputs[j]);
    if k > j + 1 {
      RunSteps(c, inputs, j + 1);
    }
  }

  // A turn in which the validation fails plans all the same if an old verdict is in place, whichever
  // majors it was about.
  lemma OldVerdictPlans(s: State, reply: Input, failed: Input)
    requires s.metaConfirmed && HandbookMatches(s) && s.planningRequested && s.pending.None? && s.toolCalls == 0 && s.majorPassed
    requires reply.calls == [] && reply.requested.None? && failed.verdict.Failed?
    ensures var r := Run(Config(Agent, s, false), [reply, failed]);
      |r| == 3 && r[1].node == StartPlanning && r[2].node == CoreSubjects
  {
    hide HandbookMatches, Next, Run;
    var c := Config(Agent, s, false);
    ReplyStarts(c, reply);
    var d := Next(c, reply);
    StartDecides(d, failed);
    TwoSteps(c, reply, failed);
  }

  lemma ReplyStarts(c: Config, reply: Input)
    requires c.node == Agent && c.state.metaConfirmed && HandbookMatches(c.state) && c.state.planningRequested
    requires c.state.pending.None? && c.state.toolCalls == 0 && reply.calls == [] && reply.requested.None?
    ensures var d := Next(c, reply); d.node == StartPlanning && HandbookMatches(d.state) && d.state.majorPassed == c.state.majorPassed
  {
  }

  lemma TwoSteps(c: Config, a: Input, b: Input)
    requires c.node != End && Next(c, a).node != End
    ensures var d := Next(c, a); Run(c, [a, b]) == [c, d, Next(d, b)]
  {
    hide Next;
    var d := Next(c, a);
    assert [a, b][1..] == [b] && [b][1..] == [];
    assert Run(d, [b]) == [d] + Run(Next(d, b), []);
    assert Run(Next(d, b), []) == [Next(d, b)];
  }

  // ---------------------------------------------------------------- which plan is shown

  // Nodes between which Stage 2 goes back and forth.
  predicate InStage2(n: Node) {
    n in {MakePlan, Stage2Tools, CaptureStage2, EvalPlan}
  }

  // How many of the first n points of a run evaluate the plan.
  function Evaluations(r: seq<Config>, n: nat): nat
    requires n <= |r|
    decreases n
  {
    if n == 0 then 0 else (if r[0].node == EvalPlan then 1 else 0) + Evaluations(r[1..], n - 1)
  }

  predicate Passed(s: State, input: Input) {
    s.plan != "" && input.verdict.Valid?
  }

  // The evaluator rejects the plan and says nothing about it.
  predicate Unworded(s: State, input: Input) {
    s.plan != "" && input.verdict == Invalid("")
  }

  lemma EvaluationCounts(c: Config, input: Input)
    requires c.node == EvalPlan
    ensures var d := Next(c, input);
      && d.node == (if Passed(c.state, input) || Unworded(c.state, input) || c.state.stage2Retries + 1 >= MAX_STAGE2_RETRIES
                    then FormatOutput else MakePlan)
      && (d.node == MakePlan ==> d.state.stage2Retries == c.state.stage2Retries + 1)
  {
  }

  lemma OtherStepsCountNothing(c: Config, input: Input)
    requires c.node in {MakePlan, Stage2Tools, CaptureStage2}
    ensures var d := Next(c, input);
      && (InStage2(d.node) || d.node == FormatOutput)
      && d.state.stage2Retries == c.state.stage2Retries
      && (d.node == FormatOutput ==> c.node == MakePlan && c.state.toolLoops >= MAX_STAGE2_TOOL_LOOPS)
      && (d.node == FormatOutput && HandbookMatches(c.state) ==> input.calls != [])
  {
    hide HandbookMatches, Trim;
  }

  lemma AfterOutput(c: Config, inputs: seq<Input>, k: nat)
    requires c.node == FormatOutput && k < |Run(c, inputs)|
    ensures !InStage2(Run(c, inputs)[k].node) && (k > 0 ==> Run(c, inputs)[k].node == End)
  {
    hide FormatOutputStep;
    if k > 0 {
      assert Next(c, inputs[0]).node == End;
    }
  }

  // As long as Stage 2 goes on, every evaluation so far was worded and unsuccessful, and was counted.
  lemma {:induction false} RetriesAreEvaluations(c: Config, inputs: seq<Input>, k: nat)
    requires InStage2(c.node) && k < |Run(c, inputs)| && InStage2(Run(c, inputs)[k].node)
    ensures Run(c, inputs)[k].state.stage2Retries == c.state.stage2Retries + Evaluations(Run(c, inputs), k)
    decreases k
  {
    hide Next, InStage2, Passed, Unworded;
    if k > 0 {
      var d := Next(c, inputs[0]);
      var rest := Run(d, inputs[1..]);
      assert Run(c, inputs)[1..] == rest && rest[k - 1] == Run(c, inputs)[k];
      Stage2Goes(c, inputs[0]);
      if d.node == FormatOutput {
        AfterOutput(d, inputs[1..], k - 1);
      } else {
        RetriesAreEvaluations(d, inputs[1..], k - 1);
      }
    }
  }

  lemma Stage2Goes(c: Config, input: Input)
    requires InStage2(c.node)
    ensures var d := Next(c, input);
      && (d.node == FormatOutput || InStage2(d.node))
      && (InStage2(d.node) ==> d.state.stage2Retries == c.state.stage2Retries + if c.node == EvalPlan then 1 else 0)
  {
    hide Next, Passed, Unworded;
    if c.node == EvalPlan {
      EvaluationCounts(c, input);
    } else {
      OtherStepsCountNothing(c, input);
    }
  }

  // Over any Stage 2 run, the plan is shown after an evaluation exactly when it passed, or was rejected
  // without feedback, or this was the last evaluation that the retries allow.
  lemma ShownAfterEvaluationIff(c: Config, inputs: seq<Input>, k: nat)
    requires c.node == MakePlan && k + 1 < |Run(c, inputs)| && Run(c, inputs)[k].node == EvalPlan
    ensures k < |inputs|
    ensures var r := Run(c, inputs);
      r[k + 1].node == FormatOutput <==>
        || Passed(r[k].state, inputs[k])
        || Unworded(r[k].state, inputs[k])
        || c.state.stage2Retries + Evaluations(r, k + 1) >= MAX_STAGE2_RETRIES
  {
    hide Run, Next, Passed, Unworded;
    RunSteps(c, inputs, k);
    RetriesAreEvaluations(c, inputs, k);
    EvaluationCounts(Run(c, inputs)[k], inputs[k]);
    OneMoreEvaluation(Run(c, inputs), k);
  }

  lemma {:induction false} OneMoreEvaluation(r: seq<Config>, k: nat)
    requires k < |r|
    ensures Evaluations(r, k + 1) == Evaluations(r, k) + if r[k].node == EvalPlan then 1 else 0
    decreases k
  {
    if k > 0 {
      assert r[1..][k - 1] == r[k];
      OneMoreEvaluation(r[1..], k - 1);
    }
  }

  // A plan that did not pass its last evaluation is shown exactly for one of three reasons: the
  // evaluator gave no feedback, the retries are spent, or the tool limit cut off another attempt.
  lemma ShownUnpassed(c: Config, inputs: seq<Input>, k: nat)
    requires c.node == MakePlan && HandbookMatches(c.state)
    requires k + 1 < |Run(c, inputs)| && Run(c, inputs)[k + 1].node == FormatOutput
    ensures k < |inputs|
    ensures var r := Run(c, inputs);
      || (r[k].node == EvalPlan && Passed(r[k].state, inputs[k]))
      || (r[k].node == EvalPlan && Unworded(r[k].state, inputs[k]))
      || (r[k].node == EvalPlan && c.state.stage2Retries + Evaluations(r, k + 1) >= MAX_STAGE2_RETRIES)
      || (r[k].node == MakePlan && inputs[k].calls != [] && r[k].state.toolLoops >= MAX_STAGE2_TOOL_LOOPS)
  {
    hide Run, Next, Passed, Unworded, HandbookMatches;
    RunSteps(c, inputs, k);
    StaysInStage2(c, inputs, k);
    PlanningRunKeepsIdentity(c, inputs, k);
    SameIdentityMatches(c.state, Run(c, inputs)[k].state);
    if Run(c, inputs)[k].node == EvalPlan {
      ShownAfterEvaluationIff(c, inputs, k);
    } else {
      OtherStepsCountNothing(Run(c, inputs)[k], inputs[k]);
    }
  }

  lemma SameIdentityMatches(a: State, b: State)
    requires SameIdentity(a, b) && HandbookMatches(a)
    ensures HandbookMatches(b)
  {
    hide MetadataKey;
  }

  // Before the plan is shown a Stage 2 run is in Stage 2.
  lemma {:induction false} StaysInStage2(c: Config, inputs: seq<Input>, k: nat)
    requires InStage2(c.node) && k + 1 < |Run(c, inputs)| && Run(c, inputs)[k + 1].node == FormatOutput
    ensures InStage2(Run(c, inputs)[k].node)
    decreases k
  {
    hide Next, InStage2;
    if k > 0 {
      var d := Next(c, inputs[0]);
      assert Run(c, inputs)[1..] == Run(d, inputs[1..]);
      Stage2Goes(c, inputs[0]);
      if d.node == FormatOutput {
        AfterOutput(d, inputs[1..], k);
      } else {
        StaysInStage2(d, inputs[1..], k - 1);
      }
    }
  }

  // ---------------------------------------------------------------- what the student is told

  // `format_output` says that the plan passed its evaluation exactly when no feedback is stored.
  predicate AnnouncesPass(s: State) {
    s.planFeedback == ""
  }

  lemma EvaluationFeedback(c: Config, input: Input)
    requires c.node == EvalPlan
    ensures AnnouncesPass(Next(c, input).state) <==> Passed(c.state, input) || Unworded(c.state, input)
  {
  }

  lemma OtherStepsKeepFeedback(c: Config, input: Input)
    requires c.node in {MakePlan, Stage2Tools, CaptureStage2}
    ensures Next(c, input).state.planFeedback == c.state.planFeedback
  {
    hide HandbookMatches, Trim;
  }

  // While Stage 2 goes on there is feedback as soon as there was an evaluation, and before that the
  // feedback it began with.
  lemma {:induction false} FeedbackSoFar(c: Config, inputs: seq<Input>, k: nat)
    requires InStage2(c.node) && k < |Run(c, inputs)| && InStage2(Run(c, inputs)[k].node)
    ensures var r := Run(c, inputs);
      AnnouncesPass(r[k].state) <==> Evaluations(r, k) == 0 && AnnouncesPass(c.state)
    decreases k
  {
    hide Next, InStage2, Passed, Unworded, AnnouncesPass;
    if k > 0 {
      var d := Next(c, inputs[0]);
      var rest := Run(d, inputs[1..]);
      assert Run(c, inputs)[1..] == rest && rest[k - 1] == Run(c, inputs)[k];
      Stage2Goes(c, inputs[0]);
      if d.node == FormatOutput {
        AfterOutput(d, inputs[1..], k - 1);
      } else {
        FeedbackGoesOn(c, inputs[0]);
        FeedbackSoFar(d, inputs[1..], k - 1);
      }
    }
  }

  lemma FeedbackGoesOn(c: Config, input: Input)
    requires InStage2(c.node) && InStage2(Next(c, input).node)
    ensures AnnouncesPass(Next(c, input).state) <==> c.node != EvalPlan && AnnouncesPass(c.state)
  {
    hide Next, Passed, Unworded;
    if c.node == EvalPlan {
      EvaluationCounts(c, input);
      EvaluationFeedback(c, input);
    } else {
      OtherStepsKeepFeedback(c, input);
    }
  }

  // No evaluation took place and the tool limit cut off the attempt.
  predicate NeverEvaluated(c: Config, r: seq<Config>, k: nat)
    requires k < |r|
  {
    r[k].node == MakePlan && Evaluations(r, k) == 0 && AnnouncesPass(c.state)
  }

  // The last node before the output was an evaluation that accepted the plan.
  predicate DidPass(r: seq<Config>, inputs: seq<Input>, k: nat)
    requires k < |r| && k < |inputs|
  {
    r[k].node == EvalPlan && Passed(r[k].state, inputs[k])
  }

  predicate WasUnworded(r: seq<Config>, inputs: seq<Input>, k: nat)
    requires k < |r| && k < |inputs|
  {
    r[k].node == EvalPlan && Unworded(r[k].state, inputs[k])
  }

  // Over any Stage 2 run, the student is told that the plan passed exactly in three cases: it did; it was
  // rejected without feedback; or it was never evaluated. In the last two cases, and only there, the
  // announcement is untrue.
  lemma AnnouncedPassIff(c: Config, inputs: seq<Input>, k: nat)
    requires c.node == MakePlan && k + 1 < |Run(c, inputs)| && Run(c, inputs)[k + 1].node == FormatOutput
    ensures k < |inputs|
    ensures var r := Run(c, inputs);
      AnnouncesPass(r[k + 1].state) <==> DidPass(r, inputs, k) || WasUnworded(r, inputs, k) || NeverEvaluated(c, r, k)
    ensures var r := Run(c, inputs);
      AnnouncesPass(r[k + 1].state) && !DidPass(r, inputs, k) <==> WasUnworded(r, inputs, k) || NeverEvaluated(c, r, k)
  {
    hide Run, Next, Passed, Unworded, AnnouncesPass;
    RunSteps(c, inputs, k);
    StaysInStage2(c, inputs, k);
    var d := Run(c, inputs)[k];
    if d.node == EvalPlan {
      EvaluationFeedback(d, inputs[k]);
      UnwordedIsNoPass(d.state, inputs[k]);
    } else {
      OtherStepsCountNothing(d, inputs[k]);
      OtherStepsKeepFeedback(d, inputs[k]);
      FeedbackSoFar(c, inputs, k);
      SameFeedback(d.state, Run(c, inputs)[k + 1].state);
    }
  }

  lemma UnwordedIsNoPass(s: State, input: Input)
    ensures !(Passed(s, input) && Unworded(s, input))
  {
  }

  lemma SameFeedback(a: State, b: State)
    requires a.planFeedback == b.planFeedback
    ensures AnnouncesPass(a) == AnnouncesPass(b)
  {
  }

  // A model that only ever calls tools is cut off at the tool limit, and its plan is announced as passed.
  lemma UnevaluatedPlanIsAnnounced(c: Config, input: Input)
    requires c.node == MakePlan && HandbookMatches(c.state) && AnnouncesPass(c.state)
    requires c.state.toolLoops >= MAX_STAGE2_TOOL_LOOPS && input.calls != []
    ensures var r := Run(c, [input]);
      |r| == 2 && r[1].node == FormatOutput && AnnouncesPass(r[1].state) && Evaluations(r, 2) == 0
  {
    hide HandbookMatches, Trim;
    assert Run(c, [input]) == [c, Next(c, input)];
  }

  // ---------------------------------------------------------------- wiring

  // Every run goes along edges that the graph declares.
  lemma RunsFollowEdges(c: Config, inputs: seq<Input>, k: nat)
    requires k + 1 < |Run(c, inputs)|
    ensures Run(c, inputs)[k + 1].node in Targets(Run(c, inputs)[k].node)
  {
    hide Run, Step, Route, Targets;
    RunSteps(c, inputs, k);
    var d := Run(c, inputs)[k];
    RoutesAreWired(d.node, Step(d.node, d.state, inputs[k]));
  }
}
