/** What one confirmation or plan change does to the stored state, field by field: app/agents/state.py. */
module MetadataChanges {
  import opened Text
  import opened AdvisorState

  // ---------------------------------------------------------------- accepted or rejected

  // No degree, no campus, or no year, which includes the number 0.
  predicate LacksField(m: Meta) {
    m.degree == "" || m.campus == "" || m.year == NoYear || m.year == Year(0)
  }

  predicate NamesYear(y: YearField, year: int) {
    (y == Year(year) && year != 0) || y == YearText(Some(year))
  }

  // The metadata asks for the handbook of this degree, year and campus.
  predicate AsksFor(meta: Option<Meta>, degree: string, year: int, campus: string) {
    && meta.Some? && degree != "" && campus != ""
    && meta.value.degree == degree && meta.value.campus == campus && NamesYear(meta.value.year, year)
  }

  // Both ask for the same handbook, or neither asks for any.
  ghost predicate AskAlike(a: Option<Meta>, b: Option<Meta>) {
    forall degree, year, campus :: AsksFor(a, degree, year, campus) <==> AsksFor(b, degree, year, campus)
  }

  lemma AskedKey(meta: Option<Meta>, degree: string, year: int, campus: string)
    ensures AsksFor(meta, degree, year, campus) <==> MetadataKey(meta) == Some(HandbookKey(degree, year, campus))
  {
  }

  lemma AskAlikeIff(a: Option<Meta>, b: Option<Meta>)
    ensures AskAlike(a, b) <==> MetadataKey(a) == MetadataKey(b)
  {
    hide MetadataKey, AsksFor;
    forall degree, year, campus
      ensures AsksFor(a, degree, year, campus) <==> MetadataKey(a) == Some(HandbookKey(degree, year, campus))
      ensures AsksFor(b, degree, year, campus) <==> MetadataKey(b) == Some(HandbookKey(degree, year, campus))
    {
      AskedKey(a, degree, year, campus);
      AskedKey(b, degree, year, campus);
    }
    if AskAlike(a, b) {
      if MetadataKey(a).Some? {
        var key := MetadataKey(a).value;
        assert AsksFor(a, key.degree, key.year, key.campus);
      }
      if MetadataKey(b).Some? {
        var key := MetadataKey(b).value;
        assert AsksFor(b, key.degree, key.year, key.campus);
      }
    }
  }

  // Rejected metadata takes back confirmation and request, and touches nothing else.
  predicate IsRejected(s: State, t: State) {
    t == s.(metaConfirmed := false, planningRequested := false)
  }

  // Accepted metadata is stored, confirmed and to be planned for; the plan, the feedback and the counters
  // start afresh; the handbook stays exactly if the same one is asked for; the rest is untouched.
  ghost predicate IsAccepted(s: State, meta: Meta, t: State) {
    && t.meta == Some(meta) && t.metaConfirmed && t.planningRequested && t.mode == Planning
    && t.plan == "" && t.planFeedback == "" && t.remainingFeedback == ""
    && t.stage1Retries == 0 && t.stage2Retries == 0 && t.toolLoops == 0
    && t.pending == s.pending && t.majorPassed == s.majorPassed && t.toolCalls == s.toolCalls && t.last == s.last
    && if AskAlike(s.meta, Some(meta)) then SameHandbook(s, t)
       else !t.handbookValid && t.handbook == "" && t.handbookDegree == "" && t.handbookYear == 0 && t.handbookCampus == ""
  }

  ghost predicate IsJudged(s: State, meta: Meta, t: State) {
    if LacksField(meta) then IsRejected(s, t) else IsAccepted(s, meta, t)
  }

  lemma AcceptedIs(s: State, meta: Meta)
    ensures IsAccepted(s, meta, AcceptMetadata(s, meta))
  {
    hide MetadataKey, AskAlike;
    AskAlikeIff(s.meta, Some(meta));
  }

  lemma LacksIff(meta: Meta)
    ensures MissingFields(meta) <==> LacksField(meta)
  {
  }

  // A confirmed candidate is accepted exactly if it lacks no field.
  lemma ConfirmationIs(s: State, candidate: Meta)
    ensures IsJudged(s, candidate, ApplyResult(s, Confirmed(Some(candidate))))
  {
    hide LacksField, MissingFields, IsAccepted, AcceptMetadata;
    LacksIff(candidate);
    AcceptedIs(s, candidate);
  }

  // ---------------------------------------------------------------- plan changes

  function Before(s: State): Meta {
    if s.meta.Some? then s.meta.value else Meta("", NoYear, "", "", [])
  }

  lemma JudgedIs(s: State, change: Change, meta: Meta)
    requires !change.ChangeInterests? && Revised(Before(s), change) == Some(meta)
    ensures IsJudged(s, meta, ApplyResult(s, Changed(Some(change))))
  {
    hide Revised, LacksField, MissingFields, IsAccepted, AcceptMetadata;
    LacksIff(meta);
    AcceptedIs(s, meta);
  }

  // A new course, campus or session is the trimmed text, the other metadata kept; a blank one changes nothing.
  lemma TextChangeIs(s: State, text: string)
    ensures var t := ApplyResult(s, Changed(Some(ChangeCourse(text))));
      if Trim(text) == "" then t == s else IsJudged(s, Before(s).(degree := Trim(text)), t)
    ensures var t := ApplyResult(s, Changed(Some(ChangeCampus(text))));
      if Trim(text) == "" then t == s else IsJudged(s, Before(s).(campus := Trim(text)), t)
    ensures var t := ApplyResult(s, Changed(Some(ChangeSession(text))));
      if Trim(text) == "" then t == s else IsJudged(s, Before(s).(session := Trim(text)), t)
  {
    hide Trim, IsJudged;
    if Trim(text) != "" {
      JudgedIs(s, ChangeCourse(text), Before(s).(degree := Trim(text)));
      JudgedIs(s, ChangeCampus(text), Before(s).(campus := Trim(text)));
      JudgedIs(s, ChangeSession(text), Before(s).(session := Trim(text)));
    }
  }

  // A readable year replaces the year; a general revision asks again for the metadata at hand; an unreadable
  // year and an unknown change do nothing.
  lemma OtherChangeIs(s: State, year: int)
    ensures IsJudged(s, Before(s).(year := Year(year)), ApplyResult(s, Changed(Some(ChangeYear(Some(year))))))
    ensures IsJudged(s, Before(s), ApplyResult(s, Changed(Some(GeneralRevision))))
    ensures ApplyResult(s, Changed(Some(ChangeYear(None)))) == s
    ensures ApplyResult(s, Changed(Some(UnknownChange))) == s
  {
    hide IsJudged;
    JudgedIs(s, ChangeYear(Some(year)), Before(s).(year := Year(year)));
    JudgedIs(s, GeneralRevision, Before(s));
  }

  // ---------------------------------------------------------------- lists of majors

  // The texts without blanks, trimmed, each once, where it first occurs.
  function Tidied(values: seq<string>): seq<string> {
    if values == [] then []
    else
      var front := Tidied(values[..|values| - 1]);
      var last := Trim(values[|values| - 1]);
      if last == "" || last in front then front else front + [last]
  }

  lemma {:induction false} NonBlankAppend(values: seq<string>, v: string)
    ensures NonBlank(values + [v]) == NonBlank(values) + if Trim(v) == "" then [] else [Trim(v)]
  {
    hide Trim;
    if values == [] {
      assert values + [v] == [v] && [v][1..] == [];
    } else {
      assert (values + [v])[1..] == values[1..] + [v];
      NonBlankAppend(values[1..], v);
    }
  }

  lemma DistinctAppend(values: seq<string>, v: string)
    ensures Distinct(values + [v]) == if v in Distinct(values) then Distinct(values) else Distinct(values) + [v]
  {
    assert (values + [v])[..|values|] == values;
  }

  lemma {:induction false} TidiedIs(values: seq<string>)
    ensures Distinct(NonBlank(values)) == Tidied(values)
    ensures NonBlank(values) == [] <==> forall k :: 0 <= k < |values| ==> Trim(values[k]) == ""
  {
    hide Trim, NonBlank, Distinct;
    if values == [] {
      NothingTidied();
    } else {
      var n := |values| - 1;
      TidiedIs(values[..n]);
      assert values == values[..n] + [values[n]];
      NonBlankAppend(values[..n], values[n]);
      if Trim(values[n]) != "" {
        DistinctAppend(NonBlank(values[..n]), Trim(values[n]));
      } else {
        assert NonBlank(values[..n]) + [] == NonBlank(values[..n]);
      }
    }
  }

  lemma NothingTidied()
    ensures NonBlank([]) == [] && Distinct([]) == []
  {
  }

  predicate AllBlank(values: seq<string>) {
    forall k :: 0 <= k < |values| ==> Trim(values[k]) == ""
  }

  // New majors are the tidied list; a list without a text changes nothing.
  lemma MajorChangeIs(s: State, majors: seq<string>)
    ensures var t := ApplyResult(s, Changed(Some(ChangeMajors(Some(majors)))));
      if AllBlank(majors) then t == s else IsJudged(s, Before(s).(majors := Tidied(majors)), t)
    ensures ApplyResult(s, Changed(Some(ChangeMajors(None)))) == s
  {
    hide Trim, IsJudged, NonBlank, Distinct, Tidied;
    TidiedIs(majors);
    if !AllBlank(majors) {
      JudgedIs(s, ChangeMajors(Some(majors)), Before(s).(majors := Tidied(majors)));
    }
  }

  // New interests ask for planning afresh, with metadata, handbook and plan kept.
  lemma InterestChangeIs(s: State, interests: seq<string>)
    ensures var t := ApplyResult(s, Changed(Some(ChangeInterests(Some(interests)))));
      if AllBlank(interests) then t == s
      else t == s.(planningRequested := true, mode := Planning, remainingFeedback := "", planFeedback := "",
                   stage1Retries := 0, stage2Retries := 0, toolLoops := 0)
  {
    hide Trim, NonBlank;
    TidiedIs(interests);
  }

  // ---------------------------------------------------------------- batches

  // The results of a batch are applied in the order in which they came, each to the state that the earlier ones left.
  lemma {:induction false} BatchInOrder(s: State, earlier: seq<ToolResult>, result: ToolResult)
    ensures ApplyBatch(s, earlier + [result]) == ApplyResult(ApplyBatch(s, earlier), result)
    decreases |earlier|
  {
    hide ApplyResult;
    var batch := earlier + [result];
    if earlier == [] {
      assert batch == [result] && batch[1..] == [];
    } else {
      assert batch[0] == earlier[0] && batch[1..] == earlier[1..] + [result];
      BatchInOrder(ApplyResult(s, earlier[0]), earlier[1..], result);
    }
  }
}
