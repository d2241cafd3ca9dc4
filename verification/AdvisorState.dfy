/** The state that decides the advisor graph's routing, and what changes it: app/agents/state.py. */
module AdvisorState {
  // Also the identity of handbooks, and the two tool results that may change metadata.

  import opened Text

  // ---------------------------------------------------------------- metadata

  // A commencement year as metadata carries it; text may or may not read as a number.
  datatype YearField =
    | NoYear
    | Year(n: int)
    | YearText(reading: Option<int>)

  datatype Meta = Meta(degree: string, year: YearField, campus: string, session: string, majors: seq<string>)

  const NO_META := Meta("", NoYear, "", "", [])

  datatype HandbookKey = HandbookKey(degree: string, year: int, campus: string)

  // Python's truth of a year: zero is as good as missing.
  predicate YearGiven(y: YearField) {
    y.YearText? || (y.Year? && y.n != 0)
  }

  function ReadYear(y: YearField): Option<int> {
    match y
    case NoYear => None
    case Year(n) => Some(n)
    case YearText(reading) => reading
  }

  predicate MissingFields(m: Meta) {
    m.degree == "" || !YearGiven(m.year) || m.campus == ""
  }

  // The handbook that metadata asks for.
  function MetadataKey(meta: Option<Meta>): Option<HandbookKey> {
    if meta.None? || MissingFields(meta.value) || ReadYear(meta.value.year).None? then None
    else Some(HandbookKey(meta.value.degree, ReadYear(meta.value.year).value, meta.value.campus))
  }

  // ---------------------------------------------------------------- state

  datatype Tool = LookupElectives | ConfirmMetadata | PlanChange | OtherTool

  datatype ElectiveAction = Recommend | PopulatePlan

  datatype Mode = Collecting | Planning | PostPlan

  // A plan-change request as the tool reports it; an unreadable value is None.
  datatype Change =
    | ChangeMajors(majors: Option<seq<string>>)
    | ChangeInterests(interests: Option<seq<string>>)
    | ChangeCourse(course: string)
    | ChangeCampus(campus: string)
    | ChangeYear(year: Option<int>)
    | ChangeSession(session: string)
    | GeneralRevision
    | UnknownChange

  // What a tool sent back: a confirmation carries the sanitised candidate, unless it was unreadable.
  datatype ToolResult =
    | Confirmed(candidate: Option<Meta>)
    | Changed(change: Option<Change>)
    | OtherResult

  // The end of the message list: a student message, a reply with its tool calls, or a batch of results.
  datatype LastMessage =
    | Student
    | Reply(calls: seq<Tool>)
    | Results(batch: seq<ToolResult>)

  // Texts that are missing are empty.
  datatype State = State(
    meta: Option<Meta>,
    metaConfirmed: bool,
    planningRequested: bool,
    pending: Option<ElectiveAction>,
    mode: Mode,
    handbook: string,
    handbookDegree: string,
    handbookYear: int,
    handbookCampus: string,
    handbookValid: bool,
    majorPassed: bool,
    remainingFeedback: string,
    stage1Retries: int,
    plan: string,
    planFeedback: string,
    stage2Retries: int,
    toolLoops: int,
    toolCalls: int,
    last: LastMessage)

  const MAX_STAGE1_RETRIES := 2
  const MAX_STAGE2_RETRIES := 2
  const MAX_STAGE2_TOOL_LOOPS := 4
  const MAX_TOOL_CALLS_PER_TURN := 2

  // The handbook that is stored.
  function StoredKey(s: State): Option<HandbookKey> {
    if !s.handbookValid || s.handbookDegree == "" || s.handbookYear == 0 || s.handbookCampus == "" then None
    else Some(HandbookKey(s.handbookDegree, s.handbookYear, s.handbookCampus))
  }

  predicate HandbookMatches(s: State) {
    MetadataKey(s.meta).Some? && StoredKey(s) == MetadataKey(s.meta) && s.handbook != ""
  }

  // No usable handbook is stored, or it is the one the metadata asks for.
  predicate HandbookConsistent(s: State) {
    StoredKey(s).None? || StoredKey(s) == MetadataKey(s.meta)
  }

  predicate SameHandbook(a: State, b: State) {
    && a.handbook == b.handbook && a.handbookDegree == b.handbookDegree && a.handbookYear == b.handbookYear
    && a.handbookCampus == b.handbookCampus && a.handbookValid == b.handbookValid
  }

  function ClearHandbook(s: State): State {
    s.(handbook := "", handbookDegree := "", handbookYear := 0, handbookCampus := "", handbookValid := false)
  }

  // `PLANNING_RESET`.
  function ResetPlanning(s: State): State {
    s.(remainingFeedback := "", stage1Retries := 0, plan := "", planFeedback := "", stage2Retries := 0, toolLoops := 0)
  }

  // ---------------------------------------------------------------- metadata updates

  function RejectMetadata(s: State): State {
    s.(metaConfirmed := false, planningRequested := false)
  }

  // Accepted metadata invalidates what was generated, and the handbook when its identity changes.
  function AcceptMetadata(s: State, meta: Meta): State {
    var accepted := ResetPlanning(s.(
      meta := Some(meta), metaConfirmed := true, planningRequested := true, mode := Planning));
    if MetadataKey(s.meta) != MetadataKey(Some(meta)) then ClearHandbook(accepted) else accepted
  }

  function ApplyConfirmation(s: State, candidate: Meta): State {
    if MissingFields(candidate) then RejectMetadata(s) else AcceptMetadata(s, candidate)
  }

  function NonBlank(values: seq<string>): seq<string> {
    if values == [] then []
    else (if Trim(values[0]) == "" then [] else [Trim(values[0])]) + NonBlank(values[1..])
  }

  function Distinct(values: seq<string>): seq<string> {
    if values == [] then []
    else
      var front := Distinct(values[..|values| - 1]);
      if values[|values| - 1] in front then front else front + [values[|values| - 1]]
  }

  // The metadata a change asks for, or None when its value cannot be used.
  function Revised(meta: Meta, change: Change): Option<Meta>
    requires !change.ChangeInterests?
  {
    match change
    case ChangeMajors(majors) =>
      if majors.None? || NonBlank(majors.value) == [] then None
      else Some(meta.(majors := Distinct(NonBlank(majors.value))))
    case ChangeCourse(course) => if Trim(course) == "" then None else Some(meta.(degree := Trim(course)))
    case ChangeCampus(campus) => if Trim(campus) == "" then None else Some(meta.(campus := Trim(campus)))
    case ChangeYear(year) => if year.None? then None else Some(meta.(year := Year(year.value)))
    case ChangeSession(session) => if Trim(session) == "" then None else Some(meta.(session := Trim(session)))
    case GeneralRevision => Some(meta)
    case UnknownChange => None
  }

  function ApplyChange(s: State, change: Change): State {
    if change.ChangeInterests? then
      if change.interests.None? || NonBlank(change.interests.value) == [] then s
      else
        s.(planningRequested := true, mode := Planning, remainingFeedback := "", planFeedback := "",
           stage1Retries := 0, stage2Retries := 0, toolLoops := 0)
    else
      var revised := Revised(if s.meta.Some? then s.meta.value else NO_META, change);
      if revised.None? then s
      else if MissingFields(revised.value) then RejectMetadata(s)
      else AcceptMetadata(s, revised.value)
  }

  // A result that cannot be read leaves the state alone.
  function ApplyResult(s: State, result: ToolResult): State {
    match result
    case Confirmed(Some(candidate)) => ApplyConfirmation(s, candidate)
    case Changed(Some(change)) => ApplyChange(s, change)
    case _ => s
  }

  // A batch is folded oldest first, each result seeing the metadata of the ones before it.
  function ApplyBatch(s: State, batch: seq<ToolResult>): State
    decreases |batch|
  {
    if batch == [] then s else ApplyBatch(ApplyResult(s, batch[0]), batch[1..])
  }

  // ---------------------------------------------------------------- laws

  // After any one result the stored handbook is untouched and its metadata key unchanged, or it is gone.
  lemma ResultKeepsOrClears(s: State, result: ToolResult)
    ensures var t := ApplyResult(s, result);
      || (SameHandbook(s, t) && MetadataKey(s.meta) == MetadataKey(t.meta))
      || SameHandbook(ClearHandbook(s), t)
  {
    hide Revised;
  }

  lemma {:induction false} BatchKeepsOrClears(s: State, batch: seq<ToolResult>)
    ensures var t := ApplyBatch(s, batch);
      || (SameHandbook(s, t) && MetadataKey(s.meta) == MetadataKey(t.meta))
      || SameHandbook(ClearHandbook(s), t)
    decreases |batch|
  {
    hide ApplyResult, MetadataKey;
    if batch != [] {
      ResultKeepsOrClears(s, batch[0]);
      BatchKeepsOrClears(ApplyResult(s, batch[0]), batch[1..]);
    }
  }

  // Whatever a batch accepts, rejects or contradicts, a stored handbook still fits the metadata.
  lemma BatchStaysConsistent(s: State, batch: seq<ToolResult>)
    requires HandbookConsistent(s)
    ensures HandbookConsistent(ApplyBatch(s, batch))
  {
    hide ApplyBatch, MetadataKey;
    BatchKeepsOrClears(s, batch);
  }

  // Confirmed metadata always names a degree, a year and a campus.
  lemma {:induction false} ConfirmedMetadataIsComplete(s: State, batch: seq<ToolResult>)
    requires s.metaConfirmed ==> s.meta.Some? && !MissingFields(s.meta.value)
    ensures var t := ApplyBatch(s, batch); t.metaConfirmed ==> t.meta.Some? && !MissingFields(t.meta.value)
    decreases |batch|
  {
    hide MissingFields, Revised;
    if batch != [] {
      ConfirmedMetadataIsComplete(ApplyResult(s, batch[0]), batch[1..]);
    }
  }
}
