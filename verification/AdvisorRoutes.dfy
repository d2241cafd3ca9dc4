/** Where the advisor graph goes next, over any run: each decision with its exact condition. */
module AdvisorRoutes {
  // The conditions are told in terms of what is stored and what a node was answered.

  import opened Text
  import opened AdvisorState
  import opened AdvisorGraph
  import opened AdvisorRuns

  // ---------------------------------------------------------------- the handbook at hand

  // The metadata names a degree, a campus and this year.
  predicate NamesHandbook(meta: Option<Meta>, year: int) {
    && meta.Some? && meta.value.degree != "" && meta.value.campus != ""
    && ((meta.value.year.Year? && meta.value.year.n == year && year != 0)
        || (meta.value.year.YearText? && meta.value.year.reading == Some(year)))
  }

  // A handbook is stored, marked valid, and of the degree, year and campus that the metadata names.
  predicate HasItsHandbook(s: State) {
    && s.handbookValid && s.handbook != "" && s.handbookYear != 0
    && NamesHandbook(s.meta, s.handbookYear)
    && s.meta.value.degree == s.handbookDegree && s.meta.value.campus == s.handbookCampus
  }

  lemma HandbookMatchesIff(s: State)
    ensures HandbookMatches(s) <==> HasItsHandbook(s)
  {
  }

  // A handbook counts as stored exactly if it is marked valid and its degree, year and campus are all given.
  lemma StoredIff(s: State, degree: string, year: int, campus: string)
    ensures StoredKey(s) == Some(HandbookKey(degree, year, campus)) <==>
      && s.handbookValid && degree != "" && year != 0 && campus != ""
      && s.handbookDegree == degree && s.handbookYear == year && s.handbookCampus == campus
  {
  }

  // ---------------------------------------------------------------- after the conversation

  // A call is run: fewer than two were attempted in this turn, and one is no elective lookup, or a lookup
  // has something to look for, with metadata confirmed and nothing pending.
  predicate RunsTool(s: State, x: Input) {
    && s.toolCalls < 2
    && (|| (exists k :: 0 <= k < |x.calls| && x.calls[k] != LookupElectives)
        || (LookupElectives in x.calls && s.metaConfirmed && s.pending.None? && x.lookupQuery))
  }

  lemma {:induction false} OthersIff(calls: seq<Tool>)
    ensures WithoutLookups(calls) != [] <==> exists k :: 0 <= k < |calls| && calls[k] != LookupElectives
  {
    if calls != [] {
      OthersIff(calls[1..]);
      assert forall k :: 1 <= k < |calls| ==> calls[k] == calls[1..][k - 1];
    }
  }

  // What is asked about electives once no tool is run: what was pending, else what the message asks for,
  // unless an idle lookup answered it or the limit was reached.
  function Asked(s: State, x: Input): Option<ElectiveAction> {
    if s.pending.Some? || s.toolCalls >= 2 then s.pending
    else if s.metaConfirmed && LookupElectives in x.calls then None
    else x.requested
  }

  lemma CallsIff(s: State, x: Input)
    ensures CallsTools(AgentStep(s, x)) <==> RunsTool(s, x)
  {
    hide WithoutLookups;
    OthersIff(x.calls);
    assert x.calls != [] ==> x.calls[0] in x.calls;
  }

  lemma ReplyKeeps(s: State, x: Input)
    ensures SameIdentity(s, AgentStep(s, x)) && AgentStep(s, x).planningRequested == s.planningRequested
  {
    hide WithoutLookups;
  }

  lemma ReplyAsks(s: State, x: Input)
    requires !RunsTool(s, x)
    ensures AgentStep(s, x).pending == Asked(s, x)
  {
    hide WithoutLookups;
    OthersIff(x.calls);
    assert x.calls != [] ==> x.calls[0] in x.calls;
  }

  // The node that serves what is asked about electives.
  function Serving(asked: Option<ElectiveAction>): Node {
    if asked == Some(PopulatePlan) then PopulateElectives
    else if asked == Some(Recommend) then FetchElectives
    else StartPlanning
  }

  // After a reply the graph runs tools exactly if a call is run. Otherwise the turn is over without
  // confirmed metadata, or with neither electives nor a plan asked for; the handbook is fetched if it is not
  // at hand; and what is asked for is served.
  lemma AfterReply(c: Config, inputs: seq<Input>, k: nat)
    requires k + 1 < |Run(c, inputs)| && Run(c, inputs)[k].node == Agent
    ensures k < |inputs|
    ensures var s, x, next := Run(c, inputs)[k].state, inputs[k], Run(c, inputs)[k + 1].node;
      next ==
        if RunsTool(s, x) then RunTools
        else if !s.metaConfirmed || (Asked(s, x).None? && !s.planningRequested) then End
        else if !HasItsHandbook(s) then EnsureHandbook
        else Serving(Asked(s, x))
  {
    hide Run, AgentStep, HandbookMatches, HasItsHandbook, RunsTool, Asked, CallsTools;
    RunSteps(c, inputs, k);
    var s := Run(c, inputs)[k].state;
    ReplyLeads(s, inputs[k]);
  }

  lemma ReplyLeads(s: State, x: Input)
    ensures RouteAfterAgent(AgentStep(s, x)) ==
      if RunsTool(s, x) then RunTools
      else if !s.metaConfirmed || (Asked(s, x).None? && !s.planningRequested) then End
      else if !HasItsHandbook(s) then EnsureHandbook
      else Serving(Asked(s, x))
  {
    hide AgentStep, HandbookMatches, HasItsHandbook, RunsTool, Asked, CallsTools;
    CallsIff(s, x);
    ReplyKeeps(s, x);
    if !RunsTool(s, x) {
      ReplyAsks(s, x);
    }
    SameIdentityMatchesToo(s, AgentStep(s, x));
    HandbookMatchesIff(s);
    var asked := Asked(s, x);
    assert asked.Some? ==> asked.value.Recommend? || asked.value.PopulatePlan?;
  }

  lemma SameIdentityMatchesToo(a: State, b: State)
    requires SameIdentity(a, b)
    ensures HandbookMatches(a) == HandbookMatches(b) && a.metaConfirmed == b.metaConfirmed
  {
    hide MetadataKey;
  }

  // After tool results the conversation goes on, unless a confirmation among them calls for a handbook that
  // is not at hand.
  lemma AfterToolResults(c: Config, inputs: seq<Input>, k: nat)
    requires k + 1 < |Run(c, inputs)| && Run(c, inputs)[k].node == Capture
    ensures var s, t, next := Run(c, inputs)[k].state, Run(c, inputs)[k + 1].state, Run(c, inputs)[k + 1].node;
      next ==
        if s.last.Results? && (exists j :: 0 <= j < |s.last.batch| && s.last.batch[j].Confirmed?)
          && t.metaConfirmed && (t.planningRequested || t.pending.Some?) && !HasItsHandbook(t)
        then EnsureHandbook else Agent
  {
    hide Run, ApplyBatch, HandbookMatches, HasItsHandbook;
    RunSteps(c, inputs, k);
    BatchKeepsLast(Run(c, inputs)[k].state, LatestBatch(Run(c, inputs)[k].state));
    HandbookMatchesIff(Run(c, inputs)[k + 1].state);
  }

  lemma {:induction false} BatchKeepsLast(s: State, batch: seq<ToolResult>)
    ensures ApplyBatch(s, batch).last == s.last && ApplyBatch(s, batch).toolCalls == s.toolCalls
    decreases |batch|
  {
    hide MissingFields, Revised, MetadataKey;
    if batch != [] {
      BatchKeepsLast(ApplyResult(s, batch[0]), batch[1..]);
    }
  }

  // Every attempted call counts towards the two of a turn.
  lemma CallsAreCounted(c: Config, inputs: seq<Input>, k: nat)
    requires k + 1 < |Run(c, inputs)| && Run(c, inputs)[k].node == RunTools && CallsTools(Run(c, inputs)[k].state)
    ensures Run(c, inputs)[k + 1].node == Capture
    ensures Run(c, inputs)[k + 1].state.toolCalls == Run(c, inputs)[k].state.toolCalls + |Run(c, inputs)[k].state.last.calls|
    ensures k < |inputs| && Run(c, inputs)[k + 1].state.last == Results(inputs[k].batch)
  {
    hide Run;
    RunSteps(c, inputs, k);
  }

  // ---------------------------------------------------------------- after the handbook

  // Fetching is followed by what is asked for exactly when a text came back and the metadata names a
  // handbook; and then that text is stored under those names.
  lemma AfterFetch(c: Config, inputs: seq<Input>, k: nat)
    requires k + 1 < |Run(c, inputs)| && Run(c, inputs)[k].node == EnsureHandbook
    ensures k < |inputs|
    ensures var s, x, d := Run(c, inputs)[k].state, inputs[k], Run(c, inputs)[k + 1];
      if x.content.Some? && Trim(x.content.value) != "" && exists year :: NamesHandbook(s.meta, year) && year != 0
      then d.node == Serving(s.pending) && HasItsHandbook(d.state) && d.state.handbook == x.content.value
      else d.node == HandbookMissing && !HasItsHandbook(d.state)
  {
    hide Run, Trim, HandbookMatches;
    RunSteps(c, inputs, k);
    FetchedIff(Run(c, inputs)[k].state, inputs[k]);
    HandbookMatchesIff(Run(c, inputs)[k + 1].state);
  }

  lemma FetchedIff(s: State, x: Input)
    ensures var t := EnsureHandbookStep(s, x);
      if x.content.Some? && Trim(x.content.value) != "" && exists year :: NamesHandbook(s.meta, year) && year != 0
      then HandbookMatches(t) && HasItsHandbook(t) && t.handbook == x.content.value && t.pending == s.pending
      else !HandbookMatches(t)
  {
    hide Trim;
    var t := EnsureHandbookStep(s, x);
    HandbookMatchesIff(t);
    if year :| NamesHandbook(s.meta, year) && year != 0 {
      assert MetadataKey(s.meta) == Some(HandbookKey(s.meta.value.degree, year, s.meta.value.campus));
      TrimOfEmpty();
    } else {
      NoHandbookNamed(s);
    }
  }

  lemma TrimOfEmpty()
    ensures Trim("") == ""
  {
  }

  lemma NoHandbookNamed(s: State)
    requires !exists year :: NamesHandbook(s.meta, year) && year != 0
    ensures MetadataKey(s.meta).None? || MetadataKey(s.meta).value.year == 0
  {
    if MetadataKey(s.meta).Some? && MetadataKey(s.meta).value.year != 0 {
      assert NamesHandbook(s.meta, MetadataKey(s.meta).value.year);
    }
  }

  // ---------------------------------------------------------------- stage 1

  predicate InStage1(n: Node) {
    n == CoreSubjects || n == EvalLists
  }

  // How many of the first n points of a run evaluate the lists.
  function ListEvaluations(r: seq<Config>, n: nat): nat
    requires n <= |r|
    decreases n
  {
    if n == 0 then 0 else (if r[0].node == EvalLists then 1 else 0) + ListEvaluations(r[1..], n - 1)
  }

  lemma Stage1Goes(c: Config, input: Input)
    requires InStage1(c.node)
    ensures var d := Next(c, input);
      && (c.node == CoreSubjects ==> d.node == EvalLists && d.state.stage1Retries == c.state.stage1Retries)
      && (c.node == EvalLists ==>
            && d.node == (if input.verdict.Valid? || c.state.stage1Retries + 1 >= 2 then MakePlan else CoreSubjects)
            && d.state.stage1Retries == c.state.stage1Retries + 1)
  {
    hide HandbookMatches;
  }

  // Once the plan is being made no run comes back to Stage 1.
  lemma {:induction false} NeverBack(c: Config, inputs: seq<Input>, k: nat)
    requires (InStage2(c.node) || c.node in {FormatOutput, End}) && k < |Run(c, inputs)|
    ensures InStage2(Run(c, inputs)[k].node) || Run(c, inputs)[k].node in {FormatOutput, End}
    decreases k
  {
    hide Next, InStage2;
    if k > 0 {
      var d := Next(c, inputs[0]);
      assert Run(c, inputs)[1..] == Run(d, inputs[1..]);
      if InStage2(c.node) {
        Stage2Goes(c, inputs[0]);
      } else {
        OutputEnds(c, inputs[0]);
      }
      NeverBack(d, inputs[1..], k - 1);
    }
  }

  lemma OutputEnds(c: Config, input: Input)
    requires c.node == FormatOutput || c.node == End
    ensures Next(c, input).node == End
  {
    hide FormatOutputStep;
  }

  lemma {:induction false} ListRetriesSoFar(c: Config, inputs: seq<Input>, k: nat)
    requires InStage1(c.node) && k < |Run(c, inputs)| && InStage1(Run(c, inputs)[k].node)
    ensures Run(c, inputs)[k].state.stage1Retries == c.state.stage1Retries + ListEvaluations(Run(c, inputs), k)
    decreases k
  {
    hide Next;
    if k > 0 {
      var d := Next(c, inputs[0]);
      var rest := Run(d, inputs[1..]);
      assert Run(c, inputs)[1..] == rest && rest[k - 1] == Run(c, inputs)[k];
      Stage1Goes(c, inputs[0]);
      if d.node == MakePlan {
        NeverBack(d, inputs[1..], k - 1);
      } else {
        ListRetriesSoFar(d, inputs[1..], k - 1);
      }
    }
  }

  // Over any run that enters Stage 1, an evaluation of the lists is followed by making the plan exactly when
  // it found them valid, or it is the second one, counting those that the turn came with; otherwise the
  // lists are revised.
  lemma AfterListEvaluation(c: Config, inputs: seq<Input>, k: nat)
    requires c.node == CoreSubjects && k + 1 < |Run(c, inputs)| && Run(c, inputs)[k].node == EvalLists
    ensures k < |inputs|
    ensures var r := Run(c, inputs);
      && (r[k + 1].node == MakePlan <==> inputs[k].verdict.Valid? || c.state.stage1Retries + ListEvaluations(r, k + 1) >= 2)
      && (r[k + 1].node != MakePlan ==> r[k + 1].node == CoreSubjects)
  {
    hide Run, Next;
    RunSteps(c, inputs, k);
    ListRetriesSoFar(c, inputs, k);
    Stage1Goes(Run(c, inputs)[k], inputs[k]);
    OneMoreListEvaluation(Run(c, inputs), k);
  }

  lemma {:induction false} OneMoreListEvaluation(r: seq<Config>, k: nat)
    requires k < |r|
    ensures ListEvaluations(r, k + 1) == ListEvaluations(r, k) + if r[k].node == EvalLists then 1 else 0
    decreases k
  {
    if k > 0 {
      assert r[1..][k - 1] == r[k];
      OneMoreListEvaluation(r[1..], k - 1);
    }
  }

  // ---------------------------------------------------------------- stage 2

  // With its handbook at hand the planner's tool calls are run, unless four rounds of them are spent and the
  // attempt is cut off; a reply without calls is evaluated, and its text, if any, becomes the plan.
  lemma AfterPlanning(c: Config, inputs: seq<Input>, k: nat)
    requires k + 1 < |Run(c, inputs)| && Run(c, inputs)[k].node == MakePlan && HasItsHandbook(Run(c, inputs)[k].state)
    ensures k < |inputs|
    ensures var s, x, d := Run(c, inputs)[k].state, inputs[k], Run(c, inputs)[k + 1];
      && d.node == (if x.calls == [] then EvalPlan else if s.toolLoops >= 4 then FormatOutput else Stage2Tools)
      && d.state.plan == (if x.calls == [] && Trim(x.text) != "" then Trim(x.text) else s.plan)
      && d.state.toolLoops == (if x.calls == [] then 0 else s.toolLoops)
  {
    hide Run, Trim, HandbookMatches, HasItsHandbook;
    RunSteps(c, inputs, k);
    HandbookMatchesIff(Run(c, inputs)[k].state);
  }

  // A round of planning tools: the calls are answered, the round is counted, and planning goes on.
  lemma AfterPlanningTools(c: Config, inputs: seq<Input>, k: nat)
    requires k + 2 < |Run(c, inputs)| && Run(c, inputs)[k].node == Stage2Tools
    ensures var r := Run(c, inputs);
      && r[k + 1].node == CaptureStage2 && r[k + 2].node == MakePlan
      && r[k + 2].state.toolLoops == r[k].state.toolLoops + 1 && r[k + 2].state.plan == r[k].state.plan
  {
    hide Run;
    RunSteps(c, inputs, k);
    RunSteps(c, inputs, k + 1);
  }

  // An evaluation is followed by the output exactly when the plan passed, was rejected without feedback, or
  // this was the second unsuccessful one in a row, counting those that the state came with.
  lemma AfterPlanEvaluation(c: Config, inputs: seq<Input>, k: nat)
    requires k + 1 < |Run(c, inputs)| && Run(c, inputs)[k].node == EvalPlan
    ensures k < |inputs|
    ensures var s, x, d := Run(c, inputs)[k].state, inputs[k], Run(c, inputs)[k + 1];
      && d.node == (if (s.plan != "" && (x.verdict.Valid? || x.verdict == Invalid(""))) || s.stage2Retries + 1 >= 2
                    then FormatOutput else MakePlan)
      && d.state.plan == s.plan
      && (s.plan != "" && x.verdict.Invalid? ==> d.state.planFeedback == x.verdict.feedback)
  {
    hide Run;
    RunSteps(c, inputs, k);
  }

  // ---------------------------------------------------------------- electives

  // Filling in electives rewrites the plan exactly when there is one and candidates were found; without a
  // plan the student is asked for electives instead, and nothing else is pending afterwards.
  lemma AfterPopulating(c: Config, inputs: seq<Input>, k: nat)
    requires k + 1 < |Run(c, inputs)| && Run(c, inputs)[k].node == PopulateElectives && HasItsHandbook(Run(c, inputs)[k].state)
    ensures k < |inputs|
    ensures var s, x, d := Run(c, inputs)[k].state, inputs[k], Run(c, inputs)[k + 1];
      && d.node == End
      && d.state.plan == (if s.plan != "" && x.haveCandidates then Trim(x.text) else s.plan)
      && d.state.pending == (if s.plan == "" then Some(Recommend) else None)
  {
    hide Run, Trim, HandbookMatches, HasItsHandbook;
    RunSteps(c, inputs, k);
    HandbookMatchesIff(Run(c, inputs)[k].state);
  }

  // A recommendation answers what was pending and changes no plan.
  lemma AfterRecommending(c: Config, inputs: seq<Input>, k: nat)
    requires k + 1 < |Run(c, inputs)| && Run(c, inputs)[k].node == FetchElectives && HasItsHandbook(Run(c, inputs)[k].state)
    ensures var s, d := Run(c, inputs)[k].state, Run(c, inputs)[k + 1];
      d.node == End && d.state.plan == s.plan && d.state.pending == None
  {
    hide Run, HandbookMatches, HasItsHandbook;
    RunSteps(c, inputs, k);
    HandbookMatchesIff(Run(c, inputs)[k].state);
  }

  // Without a handbook nothing is planned: no plan, no feedback and no request are left.
  lemma AfterNoHandbook(c: Config, inputs: seq<Input>, k: nat)
    requires k + 1 < |Run(c, inputs)| && Run(c, inputs)[k].node == HandbookMissing
    ensures var d := Run(c, inputs)[k + 1];
      && d.node == End && d.state.plan == "" && d.state.planFeedback == "" && d.state.remainingFeedback == ""
      && !d.state.planningRequested
  {
    hide Run;
    RunSteps(c, inputs, k);
  }
}
