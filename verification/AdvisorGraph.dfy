/** The advisor graph of app/agents/graphAPI.py and app/agents/nodes/ as a transition system. */
module AdvisorGraph {
  // Its nodes, its routers and its wiring, with every model reply, tool result and handbook fetch an
  // arbitrary input.

  import opened Text
  import opened AdvisorState

  datatype Node =
    | Agent | RunTools | Capture
    | EnsureHandbook | HandbookMissing
    | StartPlanning | FetchElectives | PopulateElectives | CoreSubjects | EvalLists
    | MakePlan | Stage2Tools | CaptureStage2 | EvalPlan | FormatOutput
    | End

  // What a major validation or a plan evaluation came back with; a failed one raised an error.
  datatype Verdict = Valid | Invalid(feedback: string) | Failed

  // What the outside world answers at one node.
  datatype Input = Input(
    calls: seq<Tool>,            // the tool calls of a model reply
    lookupQuery: bool,           // an elective lookup has something to look for
    requested: Option<ElectiveAction>,  // the student's message asks for electives
    batch: seq<ToolResult>,      // the results of a batch of tool calls
    content: Option<string>,     // a fetched handbook; None when fetching failed
    verdict: Verdict,
    text: string,                // the text of a model reply
    haveCandidates: bool)        // elective candidates were found

  // Feedback a node words itself; the routers only ask whether it is empty.
  const OWN_FEEDBACK := "!"

  // ---------------------------------------------------------------- conversation

  function WithoutLookups(calls: seq<Tool>): seq<Tool> {
    if calls == [] then []
    else (if calls[0] == LookupElectives then [] else [calls[0]]) + WithoutLookups(calls[1..])
  }

  function AgentStep(s: State, input: Input): State {
    if s.toolCalls >= MAX_TOOL_CALLS_PER_TURN then s.(last := Reply([]))
    else
      var pending := if s.pending.None? then input.requested else s.pending;
      var others := WithoutLookups(input.calls);
      if LookupElectives !in input.calls then s.(last := Reply(input.calls), pending := pending)
      else if !s.metaConfirmed || s.pending.Some? then s.(last := Reply(others), pending := pending)
      else if input.lookupQuery then s.(last := Reply(input.calls), pending := None)
      else if others == [] then s.(last := Reply([]), pending := None)
      else s.(last := Reply(others), pending := pending)
  }

  predicate CallsTools(s: State) {
    s.last.Reply? && s.last.calls != []
  }

  // Attempted calls are counted, failed ones included.
  function RunToolsStep(s: State, input: Input): State {
    if CallsTools(s) then s.(last := Results(input.batch), toolCalls := s.toolCalls + |s.last.calls|) else s
  }

  function LatestBatch(s: State): seq<ToolResult> {
    if s.last.Results? then s.last.batch else []
  }

  function CaptureStep(s: State): State {
    ApplyBatch(s, LatestBatch(s))
  }

  function RouteAfterAgent(s: State): Node {
    if CallsTools(s) then RunTools
    else if !s.metaConfirmed then End
    else if s.pending.Some? && !HandbookMatches(s) then EnsureHandbook
    else if s.pending == Some(PopulatePlan) then PopulateElectives
    else if s.pending == Some(Recommend) then FetchElectives
    else if !s.planningRequested then End
    else if !HandbookMatches(s) then EnsureHandbook
    else StartPlanning
  }

  predicate HasConfirmation(batch: seq<ToolResult>) {
    exists k :: 0 <= k < |batch| && batch[k].Confirmed?
  }

  function RouteAfterToolResults(s: State): Node {
    if HasConfirmation(LatestBatch(s)) && s.metaConfirmed && (s.planningRequested || s.pending.Some?)
      && !HandbookMatches(s)
    then EnsureHandbook
    else Agent
  }

  // ---------------------------------------------------------------- handbook

  function EnsureHandbookStep(s: State, input: Input): State {
    var required := MetadataKey(s.meta);
    if required.None? || input.content.None? || Trim(input.content.value) == "" then
      ClearHandbook(s).(planningRequested := false)
    else
      s.(handbook := input.content.value,
         handbookDegree := required.value.degree,
         handbookYear := required.value.year,
         handbookCampus := required.value.campus,
         handbookValid := true)
  }

  function RouteAfterFetch(s: State): Node {
    if !HandbookMatches(s) then HandbookMissing
    else if s.pending == Some(PopulatePlan) then PopulateElectives
    else if s.pending == Some(Recommend) then FetchElectives
    else StartPlanning
  }

  function HandbookMissingStep(s: State): State {
    s.(planningRequested := false, plan := "", remainingFeedback := "", planFeedback := "")
  }

  // ---------------------------------------------------------------- stage 1

  function StartPlanningStep(s: State, input: Input): State {
    if !HandbookMatches(s) then s.(planningRequested := false)
    else
      match input.verdict
      case Valid => ResetPlanning(s.(planningRequested := false, majorPassed := true, mode := Planning))
      case Invalid(_) => s.(planningRequested := false, majorPassed := false, last := Reply([]))
      // The verdict of an earlier turn stays in place.
      case Failed => s.(planningRequested := false, planFeedback := OWN_FEEDBACK)
  }

  function RouteAfterStart(s: State): Node {
    if s.majorPassed then CoreSubjects else End
  }

  function FetchElectivesStep(s: State): State {
    if !HandbookMatches(s) then s else s.(last := Reply([]), pending := None)
  }

  function PopulateElectivesStep(s: State, input: Input): State {
    if !HandbookMatches(s) then s
    else if s.plan == "" then s.(pending := Some(Recommend))
    else if !input.haveCandidates then s.(pending := None)
    else s.(plan := Trim(input.text), last := Reply([]), pending := None)
  }

  function CoreSubjectsStep(s: State): State {
    if !HandbookMatches(s) then s else s.(remainingFeedback := "")
  }

  function EvalListsStep(s: State, input: Input): State {
    var feedback := match input.verdict
      case Valid => ""
      case Invalid(f) => if f == "" then OWN_FEEDBACK else f
      case Failed => OWN_FEEDBACK;
    s.(remainingFeedback := feedback, stage1Retries := s.stage1Retries + 1)
  }

  function RouteStage1(s: State): Node {
    if s.remainingFeedback == "" then MakePlan
    else if s.stage1Retries >= MAX_STAGE1_RETRIES then MakePlan
    else CoreSubjects
  }

  // ---------------------------------------------------------------- stage 2

  function MakePlanStep(s: State, input: Input): State {
    if !HandbookMatches(s) then s.(planningRequested := false, plan := "")
    else
      var t := s.(last := Reply(input.calls));
      if input.calls != [] then t
      else t.(toolLoops := 0, plan := if Trim(input.text) == "" then s.plan else Trim(input.text))
  }

  function RouteAfterMakePlan(s: State): Node {
    if !CallsTools(s) then EvalPlan
    else if s.toolLoops >= MAX_STAGE2_TOOL_LOOPS then FormatOutput
    else Stage2Tools
  }

  // Stage 2 tools answer into the message list only, whichever tool was called.
  function Stage2ToolsStep(s: State, input: Input): State {
    s.(last := Results(input.batch))
  }

  function CaptureStage2Step(s: State): State {
    s.(toolLoops := s.toolLoops + 1)
  }

  function EvalPlanStep(s: State, input: Input): State {
    if s.plan == "" then s.(planFeedback := OWN_FEEDBACK, stage2Retries := s.stage2Retries + 1)
    else
      match input.verdict
      case Valid => s.(planFeedback := "", stage2Retries := 0)
      case Invalid(f) => s.(planFeedback := f, stage2Retries := s.stage2Retries + 1)
      case Failed => s.(planFeedback := OWN_FEEDBACK, stage2Retries := s.stage2Retries + 1)
  }

  function RouteEvaluation(s: State): Node {
    if s.planFeedback == "" then FormatOutput
    else if s.stage2Retries >= MAX_STAGE2_RETRIES then FormatOutput
    else MakePlan
  }

  function FormatOutputStep(s: State): State {
    s.(last := Reply([]), planningRequested := false, mode := PostPlan)
  }

  // ---------------------------------------------------------------- the graph

  function Step(n: Node, s: State, input: Input): State {
    match n
    case Agent => AgentStep(s, input)
    case RunTools => RunToolsStep(s, input)
    case Capture => CaptureStep(s)
    case EnsureHandbook => EnsureHandbookStep(s, input)
    case HandbookMissing => HandbookMissingStep(s)
    case StartPlanning => StartPlanningStep(s, input)
    case FetchElectives => FetchElectivesStep(s)
    case PopulateElectives => PopulateElectivesStep(s, input)
    case CoreSubjects => CoreSubjectsStep(s)
    case EvalLists => EvalListsStep(s, input)
    case MakePlan => MakePlanStep(s, input)
    case Stage2Tools => Stage2ToolsStep(s, input)
    case CaptureStage2 => CaptureStage2Step(s)
    case EvalPlan => EvalPlanStep(s, input)
    case FormatOutput => FormatOutputStep(s)
    case End => s
  }

  // Where a node's router or its only edge leads, on the state it left behind.
  function Route(n: Node, s: State): Node {
    match n
    case Agent => RouteAfterAgent(s)
    case RunTools => Capture
    case Capture => RouteAfterToolResults(s)
    case EnsureHandbook => RouteAfterFetch(s)
    case HandbookMissing => End
    case StartPlanning => RouteAfterStart(s)
    case FetchElectives => End
    case PopulateElectives => End
    case CoreSubjects => EvalLists
    case EvalLists => RouteStage1(s)
    case MakePlan => RouteAfterMakePlan(s)
    case Stage2Tools => CaptureStage2
    case CaptureStage2 => MakePlan
    case EvalPlan => RouteEvaluation(s)
    case FormatOutput => End
    case End => End
  }

  // The targets each node's edges declare; a router may only name one of them.
  function Targets(n: Node): set<Node> {
    match n
    case Agent => {RunTools, EnsureHandbook, FetchElectives, PopulateElectives, StartPlanning, End}
    case RunTools => {Capture}
    case Capture => {Agent, EnsureHandbook, End}
    case EnsureHandbook => {StartPlanning, FetchElectives, PopulateElectives, HandbookMissing}
    case HandbookMissing => {End}
    case FetchElectives => {End}
    case PopulateElectives => {End}
    case StartPlanning => {CoreSubjects, End}
    case CoreSubjects => {EvalLists}
    case EvalLists => {CoreSubjects, MakePlan}
    case MakePlan => {Stage2Tools, EvalPlan, FormatOutput}
    case Stage2Tools => {CaptureStage2}
    case CaptureStage2 => {MakePlan, FormatOutput}
    case EvalPlan => {MakePlan, FormatOutput}
    case FormatOutput => {End}
    case End => {}
  }

  // No router ever names an edge that was not declared.
  lemma RoutesAreWired(n: Node, s: State)
    requires n != End
    ensures Route(n, s) in Targets(n)
  {
    hide HandbookMatches, HasConfirmation;
  }

  // A point of a run: the node about to act, the state it sees, and whether planning was started.
  datatype Config = Config(node: Node, state: State, started: bool)

  function Next(c: Config, input: Input): Config {
    var t := Step(c.node, c.state, input);
    Config(Route(c.node, t), t, c.started || c.node == StartPlanning)
  }

  // The points a run passes through, its first one included, until it ends or the inputs do.
  function Run(c: Config, inputs: seq<Input>): (r: seq<Config>)
    ensures |r| >= 1 && r[0] == c
    decreases |inputs|
  {
    if c.node == End || inputs == [] then [c] else [c] + Run(Next(c, inputs[0]), inputs[1..])
  }

  // ---------------------------------------------------------------- every turn ends

  predicate CountersNonNegative(s: State) {
    s.stage1Retries >= 0 && s.stage2Retries >= 0 && s.toolLoops >= 0 && s.toolCalls >= 0
  }

  function AtLeast(n: int, m: int): int {
    if n < m then m else n
  }

  // Nodes a Stage 2 pass may still take from `make_plan`, the final output included.
  function PlanBudget(s: State): int {
    3 + 3 * AtLeast(MAX_STAGE2_TOOL_LOOPS - s.toolLoops, 0) + 14 * (AtLeast(MAX_STAGE2_RETRIES - s.stage2Retries, 1) - 1)
  }

  // Stage 2 from a fresh tool count takes at most 29 nodes.
  const STAGE2_NODES := 29

  function Stage1Passes(s: State): int {
    AtLeast(MAX_STAGE1_RETRIES - s.stage1Retries, 1)
  }

  const AFTER_CONVERSATION := 35

  // Nodes left before the end, this one included.
  function Budget(c: Config): int {
    var s := c.state;
    match c.node
    case End => 0
    case Agent => 1 + 3 * AtLeast(MAX_TOOL_CALLS_PER_TURN - s.toolCalls, 0) + AFTER_CONVERSATION
    case RunTools => 3 * AtLeast(MAX_TOOL_CALLS_PER_TURN - s.toolCalls, 1) + AFTER_CONVERSATION
    case Capture => 2 + 3 * AtLeast(MAX_TOOL_CALLS_PER_TURN - s.toolCalls, 0) + AFTER_CONVERSATION
    case EnsureHandbook => 35
    case HandbookMissing => 1
    case FetchElectives => 1
    case PopulateElectives => 1
    case StartPlanning => 5 + STAGE2_NODES
    case CoreSubjects => 2 * Stage1Passes(s) + STAGE2_NODES
    case EvalLists => 2 * Stage1Passes(s) - 1 + STAGE2_NODES
    case MakePlan => PlanBudget(s)
    case Stage2Tools => PlanBudget(s) - 1
    case CaptureStage2 => PlanBudget(s) - 2
    case EvalPlan => 2 + 14 * (AtLeast(MAX_STAGE2_RETRIES - s.stage2Retries, 1) - 1)
    case FormatOutput => 1
  }

  // What routing guarantees about the state a node is entered with.
  predicate Entered(c: Config) {
    && CountersNonNegative(c.state)
    && (c.node == RunTools ==> CallsTools(c.state) && c.state.toolCalls < MAX_TOOL_CALLS_PER_TURN)
    && (c.node in {Stage2Tools, CaptureStage2} ==> c.state.toolLoops < MAX_STAGE2_TOOL_LOOPS)
  }

  lemma {:induction false} BatchKeepsCounters(s: State, batch: seq<ToolResult>)
    requires CountersNonNegative(s)
    ensures CountersNonNegative(ApplyBatch(s, batch)) && ApplyBatch(s, batch).toolCalls == s.toolCalls
    decreases |batch|
  {
    hide MissingFields, Revised, MetadataKey;
    if batch != [] {
      BatchKeepsCounters(ApplyResult(s, batch[0]), batch[1..]);
    }
  }

  lemma ConversationSpends(c: Config, input: Input)
    requires Entered(c) && c.node in {Agent, RunTools, Capture}
    ensures Entered(Next(c, input)) && 0 <= Budget(Next(c, input)) < Budget(c)
  {
    hide ApplyBatch, HandbookMatches, HasConfirmation, WithoutLookups;
    match c.node
    case Agent =>
    case RunTools =>
    case Capture =>
      BatchKeepsCounters(c.state, LatestBatch(c.state));
  }

  lemma HandbookSpends(c: Config, input: Input)
    requires Entered(c) && c.node in {EnsureHandbook, HandbookMissing, FetchElectives, PopulateElectives}
    ensures Entered(Next(c, input)) && 0 <= Budget(Next(c, input)) < Budget(c)
  {
    hide HandbookMatches, MetadataKey, Trim;
    match c.node
    case EnsureHandbook =>
    case HandbookMissing =>
    case FetchElectives =>
    case PopulateElectives =>
  }

  lemma Stage1Spends(c: Config, input: Input)
    requires Entered(c) && c.node in {StartPlanning, CoreSubjects, EvalLists}
    ensures Entered(Next(c, input)) && 0 <= Budget(Next(c, input)) < Budget(c)
  {
    hide HandbookMatches;
    match c.node
    case StartPlanning =>
    case CoreSubjects =>
    case EvalLists =>
  }

  lemma MakePlanSpends(c: Config, input: Input)
    requires Entered(c) && c.node == MakePlan
    ensures Entered(Next(c, input)) && 0 <= Budget(Next(c, input)) < Budget(c)
  {
    hide HandbookMatches, Trim, Step, Route;
    var t := MakePlanStep(c.state, input);
    assert Next(c, input) == Config(RouteAfterMakePlan(t), t, c.started) by { MakePlanActs(c, input); }
  }

  lemma MakePlanActs(c: Config, input: Input)
    requires c.node == MakePlan
    ensures var t := MakePlanStep(c.state, input); Next(c, input) == Config(RouteAfterMakePlan(t), t, c.started)
  {
    hide MakePlanStep, RouteAfterMakePlan;
  }

  lemma EvalPlanSpends(c: Config, input: Input)
    requires Entered(c) && c.node == EvalPlan
    ensures Entered(Next(c, input)) && 0 <= Budget(Next(c, input)) < Budget(c)
  {
    hide Step, Route;
    var t := EvalPlanStep(c.state, input);
    assert Next(c, input) == Config(RouteEvaluation(t), t, c.started) by { EvalPlanActs(c, input); }
  }

  lemma EvalPlanActs(c: Config, input: Input)
    requires c.node == EvalPlan
    ensures var t := EvalPlanStep(c.state, input); Next(c, input) == Config(RouteEvaluation(t), t, c.started)
  {
    hide EvalPlanStep, RouteEvaluation;
  }

  lemma ToolLoopSpends(c: Config, input: Input)
    requires Entered(c) && c.node in {Stage2Tools, CaptureStage2, FormatOutput}
    ensures Entered(Next(c, input)) && 0 <= Budget(Next(c, input)) < Budget(c)
  {
    hide MakePlanStep, EvalPlanStep, AgentStep, RunToolsStep, CaptureStep, EnsureHandbookStep, StartPlanningStep, EvalListsStep,
      PopulateElectivesStep, RouteAfterAgent, RouteAfterToolResults, RouteAfterFetch;
  }

  lemma StepSpendsBudget(c: Config, input: Input)
    requires Entered(c) && c.node != End
    ensures Entered(Next(c, input)) && 0 <= Budget(Next(c, input)) < Budget(c)
  {
    hide Entered, Next, Budget;
    match c.node
    case Agent | RunTools | Capture => ConversationSpends(c, input);
    case EnsureHandbook | HandbookMissing | FetchElectives | PopulateElectives => HandbookSpends(c, input);
    case StartPlanning | CoreSubjects | EvalLists => Stage1Spends(c, input);
    case MakePlan => MakePlanSpends(c, input);
    case EvalPlan => EvalPlanSpends(c, input);
    case Stage2Tools | CaptureStage2 | FormatOutput => ToolLoopSpends(c, input);
  }

  lemma {:induction false} RunSpendsBudget(c: Config, inputs: seq<Input>)
    requires Entered(c) && 0 <= Budget(c)
    ensures var r := Run(c, inputs);
      && |r| - 1 <= Budget(c)
      && (|inputs| >= Budget(c) ==> r[|r| - 1].node == End)
    decreases |inputs|
  {
    hide Budget, Entered, Next;
    if c.node != End && inputs != [] {
      StepSpendsBudget(c, inputs[0]);
      RunSpendsBudget(Next(c, inputs[0]), inputs[1..]);
    } else {
      OnlyEndIsFree(c);
    }
  }

  lemma OnlyEndIsFree(c: Config)
    requires Entered(c)
    ensures Budget(c) > 0 || c.node == End
  {
  }

  // The start of a chat turn.
  predicate TurnStart(c: Config) {
    c.node == Agent && !c.started && c.state.toolCalls == 0 && CountersNonNegative(c.state)
  }

  // Whatever the models, tools and fetches return, a turn runs at most 42 nodes: 7 of the
  // conversation, 1 for the handbook, 1 to start planning, 4 of Stage 1 and 29 of Stage 2.
  lemma EveryTurnEnds(c: Config, inputs: seq<Input>)
    requires TurnStart(c)
    ensures var r := Run(c, inputs);
      && |r| - 1 <= 42
      && (|inputs| >= 42 ==> r[|r| - 1].node == End)
  {
    hide Run, Next;
    RunSpendsBudget(c, inputs);
  }

  // ---------------------------------------------------------------- gates

  // Nodes that work on a plan or on electives.
  predicate Gated(n: Node) {
    n in {StartPlanning, FetchElectives, PopulateElectives, CoreSubjects, EvalLists, MakePlan, Stage2Tools, CaptureStage2,
          EvalPlan, FormatOutput}
  }

  // Planning nodes are entered with confirmed metadata and the handbook it asks for.
  predicate GateHolds(c: Config) {
    && (Gated(c.node) ==> c.state.metaConfirmed && HandbookMatches(c.state))
    && (c.node == EnsureHandbook ==> c.state.metaConfirmed)
  }

  lemma StepKeepsGate(c: Config, input: Input)
    requires GateHolds(c) && c.node != End
    ensures GateHolds(Next(c, input))
  {
    hide ApplyBatch, MetadataKey, HasConfirmation, WithoutLookups, Trim;
  }

  lemma {:induction false} RunKeepsGate(c: Config, inputs: seq<Input>, k: nat)
    requires GateHolds(c) && k < |Run(c, inputs)|
    ensures GateHolds(Run(c, inputs)[k])
    decreases |inputs|
  {
    hide GateHolds, Next;
    if c.node != End && inputs != [] && k > 0 {
      StepKeepsGate(c, inputs[0]);
      RunKeepsGate(Next(c, inputs[0]), inputs[1..], k - 1);
    }
  }

  // From any state at all, however its metadata and handbook got there.
  lemma EveryRunIsGated(s: State, inputs: seq<Input>, k: nat)
    requires k < |Run(Config(Agent, s, false), inputs)|
    ensures var c := Run(Config(Agent, s, false), inputs)[k];
      Gated(c.node) ==> c.state.metaConfirmed && HandbookMatches(c.state)
  {
    hide Run, Next, HandbookMatches;
    RunKeepsGate(Config(Agent, s, false), inputs, k);
  }

  // ---------------------------------------------------------------- planning keeps what it plans from

  predicate InPlanning(n: Node) {
    n in {StartPlanning, CoreSubjects, EvalLists, MakePlan, Stage2Tools, CaptureStage2, EvalPlan, FormatOutput}
  }

  // The same metadata, confirmation and handbook.
  predicate SameIdentity(a: State, b: State) {
    a.meta == b.meta && a.metaConfirmed == b.metaConfirmed && SameHandbook(a, b)
  }

  lemma Stage1KeepsIdentity(s: State, input: Input)
    ensures SameIdentity(s, StartPlanningStep(s, input))
    ensures SameIdentity(s, CoreSubjectsStep(s)) && SameIdentity(s, EvalListsStep(s, input))
  {
    hide HandbookMatches;
  }

  lemma MakePlanKeepsIdentity(s: State, input: Input)
    ensures SameIdentity(s, MakePlanStep(s, input))
  {
    hide HandbookMatches, Trim;
  }

  lemma EvalPlanKeepsIdentity(s: State, input: Input)
    ensures SameIdentity(s, EvalPlanStep(s, input))
  {
  }

  lemma Stage2ToolsKeepIdentity(s: State, input: Input)
    ensures SameIdentity(s, Stage2ToolsStep(s, input)) && SameIdentity(s, CaptureStage2Step(s))
    ensures SameIdentity(s, FormatOutputStep(s))
  {
  }

  lemma PlanningStepsKeepIdentity(s: State, input: Input)
    ensures SameIdentity(s, StartPlanningStep(s, input))
    ensures SameIdentity(s, CoreSubjectsStep(s)) && SameIdentity(s, EvalListsStep(s, input))
    ensures SameIdentity(s, MakePlanStep(s, input)) && SameIdentity(s, Stage2ToolsStep(s, input))
    ensures SameIdentity(s, CaptureStage2Step(s)) && SameIdentity(s, EvalPlanStep(s, input))
    ensures SameIdentity(s, FormatOutputStep(s))
  {
    hide SameIdentity, StartPlanningStep, CoreSubjectsStep, EvalListsStep, MakePlanStep, Stage2ToolsStep, CaptureStage2Step,
      EvalPlanStep, FormatOutputStep;
    Stage1KeepsIdentity(s, input);
    MakePlanKeepsIdentity(s, input);
    EvalPlanKeepsIdentity(s, input);
    Stage2ToolsKeepIdentity(s, input);
  }

  // No planning node changes metadata, confirmation or handbook, even when Stage 2 calls the
  // tool that confirms metadata; and planning leads nowhere else.
  lemma PlanningKeepsIdentity(c: Config, input: Input)
    requires InPlanning(c.node)
    ensures var d := Next(c, input);
      && SameIdentity(c.state, d.state)
      && (InPlanning(d.node) || d.node == End) && d.node != StartPlanning
  {
    PlanningStepsKeepIdentity(c.state, input);
    hide SameIdentity, StartPlanningStep, CoreSubjectsStep, EvalListsStep, MakePlanStep, Stage2ToolsStep, CaptureStage2Step,
      EvalPlanStep, FormatOutputStep, AgentStep, RunToolsStep, CaptureStep, EnsureHandbookStep, PopulateElectivesStep, CallsTools;
  }

  lemma {:induction false} PlanningRunKeepsIdentity(c: Config, inputs: seq<Input>, k: nat)
    requires InPlanning(c.node) && k < |Run(c, inputs)|
    ensures var d := Run(c, inputs)[k];
      SameIdentity(c.state, d.state) && (InPlanning(d.node) || d.node == End)
    decreases |inputs|
  {
    hide Next, InPlanning;
    if inputs != [] && c.node != End && k > 0 {
      PlanningKeepsIdentity(c, inputs[0]);
      var d := Next(c, inputs[0]);
      if InPlanning(d.node) {
        PlanningRunKeepsIdentity(d, inputs[1..], k - 1);
      }
    }
  }

  // A started turn is in planning or over, and asks for no more planning.
  predicate StartedSettles(c: Config) {
    c.started ==> !c.state.planningRequested && c.node != StartPlanning && (InPlanning(c.node) || c.node == End)
  }

  lemma StepSettles(c: Config, input: Input)
    requires StartedSettles(c) && c.node != End
    ensures StartedSettles(Next(c, input))
  {
    hide MetadataKey, Trim, ApplyBatch, HandbookMatches, HasConfirmation, WithoutLookups;
  }

  lemma {:induction false} RunSettles(c: Config, inputs: seq<Input>, k: nat)
    requires StartedSettles(c) && k < |Run(c, inputs)|
    ensures StartedSettles(Run(c, inputs)[k])
    decreases |inputs|
  {
    hide StartedSettles, Next;
    if c.node != End && inputs != [] && k > 0 {
      StepSettles(c, inputs[0]);
      RunSettles(Next(c, inputs[0]), inputs[1..], k - 1);
    }
  }

  // A turn that started planning never asks for planning again, at its end or before it.
  lemma PlanningIsRequestedOnce(s: State, inputs: seq<Input>, k: nat)
    requires k < |Run(Config(Agent, s, false), inputs)|
    ensures var c := Run(Config(Agent, s, false), inputs)[k];
      c.started ==> !c.state.planningRequested
  {
    hide Run, Next;
    RunSettles(Config(Agent, s, false), inputs, k);
  }

  // ---------------------------------------------------------------- handbook identity

  lemma FetchedHandbookFits(s: State, input: Input)
    ensures HandbookConsistent(EnsureHandbookStep(s, input))
  {
    hide Trim;
  }

  lemma OtherStepsKeepConsistent(s: State, input: Input)
    requires HandbookConsistent(s)
    ensures HandbookConsistent(AgentStep(s, input)) && HandbookConsistent(RunToolsStep(s, input))
    ensures HandbookConsistent(HandbookMissingStep(s)) && HandbookConsistent(FetchElectivesStep(s))
    ensures HandbookConsistent(PopulateElectivesStep(s, input))
  {
    hide HandbookMatches, Trim, MetadataKey, WithoutLookups;
  }

  lemma SameIdentityIsConsistent(a: State, b: State)
    requires HandbookConsistent(a) && SameIdentity(a, b)
    ensures HandbookConsistent(b)
  {
    hide MetadataKey;
  }

  // Every node keeps a stored handbook fitting the metadata, whatever its input.
  lemma StepKeepsConsistent(n: Node, s: State, input: Input)
    requires HandbookConsistent(s)
    ensures HandbookConsistent(Step(n, s, input))
  {
    hide AgentStep, RunToolsStep, EnsureHandbookStep, HandbookMissingStep, StartPlanningStep, FetchElectivesStep,
      PopulateElectivesStep, CoreSubjectsStep, EvalListsStep, MakePlanStep, Stage2ToolsStep, CaptureStage2Step, EvalPlanStep,
      FormatOutputStep, HandbookConsistent, SameIdentity, LatestBatch, ApplyBatch;
    FetchedHandbookFits(s, input);
    OtherStepsKeepConsistent(s, input);
    BatchStaysConsistent(s, LatestBatch(s));
    PlanningStepsKeepIdentity(s, input);
    if InPlanning(n) {
      SameIdentityIsConsistent(s, Step(n, s, input));
    }
  }

  lemma {:induction false} RunKeepsConsistent(c: Config, inputs: seq<Input>, k: nat)
    requires HandbookConsistent(c.state) && k < |Run(c, inputs)|
    ensures HandbookConsistent(Run(c, inputs)[k].state)
    decreases |inputs|
  {
    hide HandbookConsistent, Step, Route;
    if c.node != End && inputs != [] && k > 0 {
      StepKeepsConsistent(c.node, c.state, inputs[0]);
      RunKeepsConsistent(Next(c, inputs[0]), inputs[1..], k - 1);
    }
  }
}
