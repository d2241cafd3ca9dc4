/** What one node of a run changes in the state, field by field, and what it leaves as it was. */
module AdvisorEffects {
  // Together with the routes this says where a run goes and what it carries.

  import opened Text
  import opened AdvisorState
  import opened AdvisorGraph
  import opened AdvisorRuns
  import opened AdvisorRoutes

  // The metadata, its confirmation and the handbook.
  predicate KeepsIdentity(s: State, t: State) {
    && t.meta == s.meta && t.metaConfirmed == s.metaConfirmed
    && t.handbook == s.handbook && t.handbookDegree == s.handbookDegree && t.handbookYear == s.handbookYear
    && t.handbookCampus == s.handbookCampus && t.handbookValid == s.handbookValid
  }

  // The lists' feedback and the plan, with everything that counts their retries.
  predicate KeepsWork(s: State, t: State) {
    && t.remainingFeedback == s.remainingFeedback && t.stage1Retries == s.stage1Retries
    && t.plan == s.plan && t.planFeedback == s.planFeedback && t.stage2Retries == s.stage2Retries && t.toolLoops == s.toolLoops
  }

  predicate KeepsTalk(s: State, t: State) {
    && t.planningRequested == s.planningRequested && t.pending == s.pending && t.mode == s.mode
    && t.majorPassed == s.majorPassed && t.toolCalls == s.toolCalls
  }

  // A reply carries the calls that are run, and settles what is pending; it changes nothing else. An elective lookup
  // that is not due is dropped from it.
  lemma ReplyChanges(c: Config, inputs: seq<Input>, k: nat)
    requires k + 1 < |Run(c, inputs)| && Run(c, inputs)[k].node == Agent
    ensures k < |inputs|
    ensures var s, x, t := Run(c, inputs)[k].state, inputs[k], Run(c, inputs)[k + 1].state;
      && KeepsIdentity(s, t) && KeepsWork(s, t) && KeepsTalk(s.(pending := t.pending), t)
      && t.last.Reply?
      && (s.toolCalls >= 2 ==> t.last.calls == [] && t.pending == s.pending)
      && (s.toolCalls < 2 && LookupElectives !in x.calls ==> t.last.calls == x.calls)
      && (LookupElectives in t.last.calls ==>
            s.toolCalls < 2 && s.metaConfirmed && s.pending.None? && x.lookupQuery && t.last.calls == x.calls && t.pending.None?)
      && (forall call :: call in t.last.calls ==> call in x.calls)
  {
    hide Run, AgentStep, KeepsIdentity, KeepsTalk, KeepsWork;
    RunSteps(c, inputs, k);
    ReplyStep(Run(c, inputs)[k].state, inputs[k]);
  }

  lemma ReplyStep(s: State, x: Input)
    ensures var t := AgentStep(s, x);
      && KeepsIdentity(s, t) && KeepsWork(s, t) && KeepsTalk(s.(pending := t.pending), t)
      && t.last.Reply?
      && (s.toolCalls >= 2 ==> t.last.calls == [] && t.pending == s.pending)
      && (s.toolCalls < 2 && LookupElectives !in x.calls ==> t.last.calls == x.calls)
      && (LookupElectives in t.last.calls ==>
            s.toolCalls < 2 && s.metaConfirmed && s.pending.None? && x.lookupQuery && t.last.calls == x.calls && t.pending.None?)
      && (forall call :: call in t.last.calls ==> call in x.calls)
  {
    hide WithoutLookups;
    OnlyOthers(x.calls);
  }

  lemma {:induction false} OnlyOthers(calls: seq<Tool>)
    ensures LookupElectives !in WithoutLookups(calls)
    ensures forall call :: call in WithoutLookups(calls) ==> call in calls
  {
    if calls != [] {
      OnlyOthers(calls[1..]);
    }
  }

  // With its handbook at hand planning starts afresh exactly if the majors are validated: earlier lists, plans,
  // feedback and counts are gone. A refusal is remembered; a failed validation leaves the earlier verdict. The
  // request is spent in any case.
  lemma StartChanges(c: Config, inputs: seq<Input>, k: nat)
    requires k + 1 < |Run(c, inputs)| && Run(c, inputs)[k].node == StartPlanning
    ensures k < |inputs|
    ensures var s, x, t := Run(c, inputs)[k].state, inputs[k], Run(c, inputs)[k + 1].state;
      && KeepsIdentity(s, t) && t.pending == s.pending && t.toolCalls == s.toolCalls && !t.planningRequested
      && (HasItsHandbook(s) && x.verdict.Valid? ==>
            && t.majorPassed && t.mode == Planning && t.last == s.last
            && t.plan == "" && t.planFeedback == "" && t.remainingFeedback == ""
            && t.stage1Retries == 0 && t.stage2Retries == 0 && t.toolLoops == 0)
      && (HasItsHandbook(s) && x.verdict.Invalid? ==>
            !t.majorPassed && t.mode == s.mode && t.last == Reply([]) && KeepsWork(s, t))
      && (HasItsHandbook(s) && x.verdict.Failed? ==>
            t.majorPassed == s.majorPassed && t.mode == s.mode && t.planFeedback != "" && KeepsWork(s.(planFeedback := t.planFeedback), t))
      && (!HasItsHandbook(s) ==> t.majorPassed == s.majorPassed && t.mode == s.mode && KeepsWork(s, t))
  {
    hide Run, HandbookMatches, HasItsHandbook;
    RunSteps(c, inputs, k);
    HandbookMatchesIff(Run(c, inputs)[k].state);
  }

  // Making the lists clears their feedback; evaluating them counts a retry and leaves feedback exactly unless they
  // are valid.
  lemma ListsChange(c: Config, inputs: seq<Input>, k: nat)
    requires k + 1 < |Run(c, inputs)| && Run(c, inputs)[k].node in {CoreSubjects, EvalLists}
    ensures k < |inputs|
    ensures var s, x, n, t := Run(c, inputs)[k].state, inputs[k], Run(c, inputs)[k].node, Run(c, inputs)[k + 1].state;
      && KeepsIdentity(s, t) && KeepsTalk(s, t) && t.last == s.last
      && KeepsWork(s.(remainingFeedback := t.remainingFeedback, stage1Retries := t.stage1Retries), t)
      && (n == CoreSubjects ==>
            t.stage1Retries == s.stage1Retries && t.remainingFeedback == if HasItsHandbook(s) then "" else s.remainingFeedback)
      && (n == EvalLists ==> t.stage1Retries == s.stage1Retries + 1 && (t.remainingFeedback == "" <==> x.verdict.Valid?))
      && (n == EvalLists && x.verdict.Invalid? && x.verdict.feedback != "" ==> t.remainingFeedback == x.verdict.feedback)
  {
    hide Run, HandbookMatches, HasItsHandbook;
    RunSteps(c, inputs, k);
    HandbookMatchesIff(Run(c, inputs)[k].state);
  }

  // Without its handbook no plan is made, and the request is dropped.
  lemma NoPlanWithoutHandbook(c: Config, inputs: seq<Input>, k: nat)
    requires k + 1 < |Run(c, inputs)| && Run(c, inputs)[k].node == MakePlan && !HasItsHandbook(Run(c, inputs)[k].state)
    ensures var s, t := Run(c, inputs)[k].state, Run(c, inputs)[k + 1].state;
      t.plan == "" && !t.planningRequested && KeepsWork(s.(plan := ""), t)
  {
    hide Run, HandbookMatches, HasItsHandbook;
    RunSteps(c, inputs, k);
    HandbookMatchesIff(Run(c, inputs)[k].state);
  }

  // A round of planning tools answers the calls and is counted, and changes nothing else.
  lemma ToolRoundChanges(c: Config, inputs: seq<Input>, k: nat)
    requires k + 1 < |Run(c, inputs)| && Run(c, inputs)[k].node in {Stage2Tools, CaptureStage2}
    ensures k < |inputs|
    ensures var s, x, n, t := Run(c, inputs)[k].state, inputs[k], Run(c, inputs)[k].node, Run(c, inputs)[k + 1].state;
      && KeepsIdentity(s, t) && KeepsTalk(s, t)
      && (n == Stage2Tools ==> t.last == Results(x.batch) && KeepsWork(s, t))
      && (n == CaptureStage2 ==> t.last == s.last && KeepsWork(s.(toolLoops := s.toolLoops + 1), t))
  {
    hide Run;
    RunSteps(c, inputs, k);
  }

  // An evaluation changes the plan's feedback and its count of retries only: a plan that passes clears both, a
  // failed evaluation or a missing plan leaves feedback of the program's own.
  lemma EvaluationChanges(c: Config, inputs: seq<Input>, k: nat)
    requires k + 1 < |Run(c, inputs)| && Run(c, inputs)[k].node == EvalPlan
    ensures k < |inputs|
    ensures var s, x, t := Run(c, inputs)[k].state, inputs[k], Run(c, inputs)[k + 1].state;
      && KeepsIdentity(s, t) && KeepsTalk(s, t) && t.last == s.last
      && KeepsWork(s.(planFeedback := t.planFeedback, stage2Retries := t.stage2Retries), t)
      && (s.plan != "" && x.verdict.Valid? ==> t.stage2Retries == 0 && t.planFeedback == "")
      && (s.plan == "" || !x.verdict.Valid? ==> t.stage2Retries == s.stage2Retries + 1)
      && (s.plan == "" || x.verdict.Failed? ==> t.planFeedback != "")
  {
    hide Run, EvalPlanStep, KeepsIdentity, KeepsTalk, KeepsWork;
    RunSteps(c, inputs, k);
    EvaluationStep(Run(c, inputs)[k].state, inputs[k]);
  }

  lemma EvaluationStep(s: State, x: Input)
    ensures var t := EvalPlanStep(s, x);
      && KeepsIdentity(s, t) && KeepsTalk(s, t) && t.last == s.last
      && KeepsWork(s.(planFeedback := t.planFeedback, stage2Retries := t.stage2Retries), t)
      && (s.plan != "" && x.verdict.Valid? ==> t.stage2Retries == 0 && t.planFeedback == "")
      && (s.plan == "" || !x.verdict.Valid? ==> t.stage2Retries == s.stage2Retries + 1)
      && (s.plan == "" || x.verdict.Failed? ==> t.planFeedback != "")
  {
    hide KeepsIdentity, KeepsTalk, KeepsWork, EvalPlanStep;
    EvaluationFrame(s, x);
    EvaluationCounts(s, x);
    KeepsAll(s, EvalPlanStep(s, x).planFeedback, EvalPlanStep(s, x).stage2Retries);
  }

  lemma EvaluationFrame(s: State, x: Input)
    ensures var t := EvalPlanStep(s, x); t == s.(planFeedback := t.planFeedback, stage2Retries := t.stage2Retries)
  {
  }

  lemma EvaluationCounts(s: State, x: Input)
    ensures var t := EvalPlanStep(s, x);
      && (s.plan != "" && x.verdict.Valid? ==> t.stage2Retries == 0 && t.planFeedback == "")
      && (s.plan == "" || !x.verdict.Valid? ==> t.stage2Retries == s.stage2Retries + 1)
      && (s.plan == "" || x.verdict.Failed? ==> t.planFeedback != "")
  {
  }

  lemma KeepsAll(s: State, feedback: string, retries: int)
    ensures var t := s.(planFeedback := feedback, stage2Retries := retries);
      KeepsIdentity(s, t) && KeepsTalk(s, t) && KeepsWork(t, t)
  {
  }

  // The final output ends the planning talk, whatever the plan, and keeps it.
  lemma OutputChanges(c: Config, inputs: seq<Input>, k: nat)
    requires k + 1 < |Run(c, inputs)| && Run(c, inputs)[k].node == FormatOutput
    ensures var s, t := Run(c, inputs)[k].state, Run(c, inputs)[k + 1].state;
      && Run(c, inputs)[k + 1].node == End && t.last == Reply([]) && !t.planningRequested && t.mode == PostPlan
      && KeepsIdentity(s, t) && KeepsWork(s, t) && KeepsTalk(s.(planningRequested := false, mode := PostPlan), t)
  {
    hide Run;
    RunSteps(c, inputs, k);
  }

  // Serving electives keeps the planning work but for a plan that is filled in.
  lemma ServingChanges(c: Config, inputs: seq<Input>, k: nat)
    requires k + 1 < |Run(c, inputs)| && Run(c, inputs)[k].node in {FetchElectives, PopulateElectives}
    ensures var s, n, t := Run(c, inputs)[k].state, Run(c, inputs)[k].node, Run(c, inputs)[k + 1].state;
      && KeepsIdentity(s, t) && KeepsTalk(s.(pending := t.pending), t)
      && KeepsWork(if n == PopulateElectives then s.(plan := t.plan) else s, t)
  {
    hide Run, FetchElectivesStep, PopulateElectivesStep, KeepsIdentity, KeepsTalk, KeepsWork;
    RunSteps(c, inputs, k);
    ServingStep(Run(c, inputs)[k].state, inputs[k]);
  }

  lemma ServingStep(s: State, x: Input)
    ensures var t := FetchElectivesStep(s); KeepsIdentity(s, t) && KeepsTalk(s.(pending := t.pending), t) && KeepsWork(s, t)
    ensures var t := PopulateElectivesStep(s, x);
      KeepsIdentity(s, t) && KeepsTalk(s.(pending := t.pending), t) && KeepsWork(s.(plan := t.plan), t)
  {
    hide Trim, HandbookMatches;
  }

  // Fetching keeps the planning work and what is pending; a failed fetch drops the handbook and the request.
  lemma FetchChanges(c: Config, inputs: seq<Input>, k: nat)
    requires k + 1 < |Run(c, inputs)| && Run(c, inputs)[k].node == EnsureHandbook
    ensures var s, t := Run(c, inputs)[k].state, Run(c, inputs)[k + 1].state;
      && t.meta == s.meta && t.metaConfirmed == s.metaConfirmed && t.last == s.last && KeepsWork(s, t)
      && (t.handbookValid ==> KeepsTalk(s, t))
      && (!t.handbookValid ==> t.handbook == "" && KeepsTalk(s.(planningRequested := false), t))
  {
    hide Run, EnsureHandbookStep, KeepsTalk, KeepsWork;
    RunSteps(c, inputs, k);
    FetchStep(Run(c, inputs)[k].state, inputs[k]);
  }

  lemma FetchStep(s: State, x: Input)
    ensures var t := EnsureHandbookStep(s, x);
      && t.meta == s.meta && t.metaConfirmed == s.metaConfirmed && t.last == s.last && KeepsWork(s, t)
      && (t.handbookValid ==> KeepsTalk(s, t))
      && (!t.handbookValid ==> t.handbook == "" && KeepsTalk(s.(planningRequested := false), t))
  {
    hide Trim, MetadataKey;
  }
}
