/** Folding a batch of tool results into an update: `capture_tool_results` of app/agents/nodes/conversation.py. */
module AdvisorCapture {
  // The node never touches the state; it collects updates, each result seeing the metadata of the
  // updates before it.

  import opened Text
  import opened AdvisorState

  // The keys an update may set; a flag stands for keys that are only ever set together and to one value.
  datatype Updates = Updates(
    meta: Option<Meta>,
    metaConfirmed: Option<bool>,
    planningRequested: Option<bool>,
    resets: bool,           // planning mode, feedback and counters as at a fresh start
    dropsPlan: bool,
    clearsHandbook: bool)

  const NO_UPDATES := Updates(None, None, None, false, false, false)

  // The state once an update is merged into it.
  function Merge(s: State, u: Updates): State {
    s.(
      meta := if u.meta.Some? then u.meta else s.meta,
      metaConfirmed := if u.metaConfirmed.Some? then u.metaConfirmed.value else s.metaConfirmed,
      planningRequested := if u.planningRequested.Some? then u.planningRequested.value else s.planningRequested,
      mode := if u.resets then Planning else s.mode,
      remainingFeedback := if u.resets then "" else s.remainingFeedback,
      planFeedback := if u.resets then "" else s.planFeedback,
      stage1Retries := if u.resets then 0 else s.stage1Retries,
      stage2Retries := if u.resets then 0 else s.stage2Retries,
      toolLoops := if u.resets then 0 else s.toolLoops,
      plan := if u.dropsPlan then "" else s.plan,
      handbook := if u.clearsHandbook then "" else s.handbook,
      handbookDegree := if u.clearsHandbook then "" else s.handbookDegree,
      handbookYear := if u.clearsHandbook then 0 else s.handbookYear,
      handbookCampus := if u.clearsHandbook then "" else s.handbookCampus,
      handbookValid := !u.clearsHandbook && s.handbookValid)
  }

  // `updates.update(more)`
  function Override(u: Updates, more: Updates): Updates {
    Updates(
      if more.meta.Some? then more.meta else u.meta,
      if more.metaConfirmed.Some? then more.metaConfirmed else u.metaConfirmed,
      if more.planningRequested.Some? then more.planningRequested else u.planningRequested,
      u.resets || more.resets, u.dropsPlan || more.dropsPlan, u.clearsHandbook || more.clearsHandbook)
  }

  const REJECTED := NO_UPDATES.(metaConfirmed := Some(false), planningRequested := Some(false))

  function AcceptUpdates(prior: Option<Meta>, meta: Meta): Updates {
    Updates(Some(meta), Some(true), Some(true), true, true, MetadataKey(prior) != MetadataKey(Some(meta)))
  }

  // `apply_confirm_metadata`
  function ConfirmUpdates(prior: Option<Meta>, candidate: Meta): Updates {
    if MissingFields(candidate) then REJECTED else AcceptUpdates(prior, candidate)
  }

  // `apply_plan_change_request`
  function ChangeUpdates(prior: Option<Meta>, change: Change): Updates {
    if change.ChangeInterests? then
      if change.interests.None? || NonBlank(change.interests.value) == [] then NO_UPDATES
      else NO_UPDATES.(planningRequested := Some(true), resets := true)
    else
      var revised := Revised(if prior.Some? then prior.value else NO_META, change);
      if revised.None? then NO_UPDATES
      else if MissingFields(revised.value) then REJECTED
      else AcceptUpdates(prior, revised.value)
  }

  method CaptureToolResults(s: State, batch: seq<ToolResult>) returns (updates: Updates)
    ensures Merge(s, updates) == ApplyBatch(s, batch)
  {
    hide Merge, Override, ConfirmUpdates, ChangeUpdates, ApplyResult;
    updates := NO_UPDATES;
    NoUpdates(s);
    for k := 0 to |batch|
      invariant ApplyBatch(Merge(s, updates), batch[k..]) == ApplyBatch(s, batch)
    {
      assert batch[k..][0] == batch[k] && batch[k..][1..] == batch[k + 1..];
      var prior := if updates.meta.Some? then updates.meta else s.meta;
      PriorIsMerged(s, updates);
      match batch[k] {
        case Confirmed(Some(candidate)) =>
          ConfirmMerges(s, updates, candidate);
          updates := Override(updates, ConfirmUpdates(prior, candidate));
        case Changed(Some(change)) =>
          ChangeMerges(s, updates, change);
          updates := Override(updates, ChangeUpdates(prior, change));
        case _ =>
          OthersChangeNothing(Merge(s, updates), batch[k]);
      }
    }
  }

  lemma NoUpdates(s: State)
    ensures Merge(s, NO_UPDATES) == s
  {
  }

  lemma PriorIsMerged(s: State, u: Updates)
    ensures (if u.meta.Some? then u.meta else s.meta) == Merge(s, u).meta
  {
  }

  lemma OthersChangeNothing(s: State, result: ToolResult)
    requires !(result.Confirmed? && result.candidate.Some?) && !(result.Changed? && result.change.Some?)
    ensures ApplyResult(s, result) == s
  {
  }

  // Merging two updates is merging one after the other.
  lemma OverrideMerges(s: State, u: Updates, more: Updates)
    ensures Merge(s, Override(u, more)) == Merge(Merge(s, u), more)
  {
  }

  lemma AcceptMerges(s: State, meta: Meta)
    ensures Merge(s, AcceptUpdates(s.meta, meta)) == AcceptMetadata(s, meta)
  {
    hide MetadataKey;
  }

  lemma RejectMerges(s: State)
    ensures Merge(s, REJECTED) == RejectMetadata(s)
  {
  }

  lemma InterestsMerge(s: State)
    ensures Merge(s, NO_UPDATES.(planningRequested := Some(true), resets := true)) ==
      s.(planningRequested := true, mode := Planning, remainingFeedback := "", planFeedback := "",
         stage1Retries := 0, stage2Retries := 0, toolLoops := 0)
  {
  }

  // One more update on top of others acts on the state that the others gave.
  lemma ConfirmMerges(s: State, u: Updates, candidate: Meta)
    ensures Merge(s, Override(u, ConfirmUpdates(Merge(s, u).meta, candidate))) ==
      ApplyResult(Merge(s, u), Confirmed(Some(candidate)))
  {
    hide MissingFields, Merge, Override, AcceptUpdates, AcceptMetadata, RejectMetadata;
    var t := Merge(s, u);
    OverrideMerges(s, u, ConfirmUpdates(t.meta, candidate));
    AcceptMerges(t, candidate);
    RejectMerges(t);
  }

  lemma ChangeMerges(s: State, u: Updates, change: Change)
    ensures Merge(s, Override(u, ChangeUpdates(Merge(s, u).meta, change))) ==
      ApplyResult(Merge(s, u), Changed(Some(change)))
  {
    hide MissingFields, Revised, NonBlank, Merge, Override, AcceptUpdates, AcceptMetadata, RejectMetadata;
    var t := Merge(s, u);
    OverrideMerges(s, u, ChangeUpdates(t.meta, change));
    NoUpdates(t);
    RejectMerges(t);
    if change.ChangeInterests? {
      InterestsMerge(t);
    } else {
      var revised := Revised(if t.meta.Some? then t.meta.value else NO_META, change);
      if revised.Some? {
        AcceptMerges(t, revised.value);
      }
    }
  }
}
