/** Subject records and the catalogue built from them: `ingest_subjects` of app/services/elective_service.py. */
module Catalogue {
  // Also the two readings of a subject's level.

  import opened Text
  import opened PrerequisiteParser
  import opened RequirementLaws

  datatype Offering = Offering(campus: string, session: string)

  // A subject record as it is read; `levelText` is the handbook's own level, when given.
  datatype Subject = Subject(
    code: string,
    title: string,
    cpField: Option<int>,
    levelText: Option<string>,
    prerequisites: seq<string>,
    corequisites: seq<string>,
    exclusions: seq<string>,
    offerings: seq<Offering>,
    tags: seq<string>)

  // Credit points, six when they are missing or zero.
  function SubjectCp(s: Subject): int {
    if s.cpField.Some? && s.cpField.value != 0 then s.cpField.value else 6
  }

  // `_subject_level_value`: "200-level" in the handbook's words, else the code's first digit.
  function LevelValue(s: Subject): Option<int> {
    var level := Trim(if s.levelText.Some? then s.levelText.value else "");
    var n := |level| - 6;
    if n > 0 && level[n..] == "-level" && DigitRun(level[..n]) == n then Some(NatOf(level[..n]))
    else LevelFromCode(s.code)
  }

  predicate Is100Level(s: Subject) {
    LevelValue(s) == Some(100)
  }

  // `subject_level`: explicit metadata first, and metadata that cannot be read is not replaced by the code.
  function PoolLevel(s: Subject): Option<int> {
    var level := Trim(if s.levelText.Some? then s.levelText.value else "");
    if level != "" then ReadLevelText(level) else ReadLevelCode(NormalizeCode(s.code))
  }

  function ReadLevelText(level: string): Option<int> {
    if |level| >= 3 && '1' <= level[0] <= '9' && level[1] == '0' && level[2] == '0' then
      var rest := Trim(level[3..]);
      var word := if rest != "" && rest[0] == '-' then Trim(rest[1..]) else rest;
      if rest == "" || Lower(word) == "level" || Lower(word) == "lv" then Some(100 * DigitValue(level[0])) else None
    else None
  }

  function ReadLevelCode(norm: string): Option<int> {
    var n := LetterRun(norm);
    var d := DigitRun(norm[n..]);
    var tail := |norm| - n - d;
    if 2 <= n <= 8 && 3 <= d <= 4 && (tail == 0 || (tail == 1 && IsUpper(norm[n + d]))) && norm[n] != '0' then
      Some(100 * DigitValue(norm[n]))
    else None
  }

  const ALLOWED_LEVELS: set<Option<int>> := {Some(100), Some(200), Some(300)}

  type Catalog = map<string, Subject>

  // What ingestion guarantees of its keys.
  predicate Indexed(catalog: Catalog) {
    forall key :: key in catalog ==> key != "" && NormalizeCode(key) == key && catalog[key].code == key
  }

  // A subject whose requirements can be judged: every requirement text gets an answer, and its
  // credit points are not negative.
  ghost predicate Judgeable(s: Subject) {
    && AllAnswer(s.prerequisites)
    && AllAnswer(s.corequisites)
    && SubjectCp(s) >= 0
  }

  // ---------------------------------------------------------------- normal codes

  lemma {:induction false} RemoveKeeps(s: string, c: char)
    ensures Upper(s) == s ==> Upper(Remove(s, c)) == Remove(s, c)
  {
    if s != "" {
      RemoveKeeps(s[1..], c);
      if Upper(s) == s {
        assert forall k :: 0 <= k < |s[1..]| ==> Upper(s[1..])[k] == UpperChar(s[k + 1]) == Upper(s)[k + 1];
        assert Upper(s[1..]) == s[1..];
        assert UpperChar(s[0]) == Upper(s)[0];
        var rest := Remove(s[1..], c);
        assert forall k :: 0 <= k < |[s[0]] + rest| ==> Upper([s[0]] + rest)[k] == ([s[0]] + rest)[k] by {
          assert forall k :: 0 <= k < |rest| ==> Upper(rest)[k] == UpperChar(rest[k]);
        }
      }
    }
  }

  lemma NormalizeTwice(code: string)
    ensures NormalizeCode(NormalizeCode(code)) == NormalizeCode(code)
  {
    var up := Upper(code);
    assert Upper(up) == up;
    RemoveKeeps(up, ' ');
  }

  // ---------------------------------------------------------------- ingestion

  // Repeats dropped, first occurrences kept in order; blank tags are not tags.
  function AddTag(tags: seq<string>, tag: string): seq<string> {
    if tag == "" || tag in tags then tags else tags + [tag]
  }

  function AddTags(tags: seq<string>, more: seq<string>): seq<string>
    decreases |more|
  {
    if more == [] then tags else AddTags(AddTag(tags, more[0]), more[1..])
  }

  function AddRecord(catalog: Catalog, record: Subject): Catalog {
    var code := NormalizeCode(record.code);
    if code == "" then catalog
    else if code in catalog then
      catalog[code := catalog[code].(tags := AddTags(catalog[code].tags, record.tags))]
    else catalog[code := record.(code := code, tags := AddTags([], record.tags))]
  }

  function Ingested(records: seq<Subject>): Catalog {
    if records == [] then map[]
    else AddRecord(Ingested(records[..|records| - 1]), records[|records| - 1])
  }

  method MergeTags(tags: seq<string>, more: seq<string>) returns (merged: seq<string>)
    ensures merged == AddTags(tags, more)
  {
    merged := tags;
    for i := 0 to |more|
      invariant AddTags(merged, more[i..]) == AddTags(tags, more)
    {
      assert more[i..][1..] == more[i + 1..];
      if more[i] != "" && more[i] !in merged {
        merged := merged + [more[i]];
      }
    }
  }

  method IngestSubjects(records: seq<Subject>) returns (catalog: Catalog)
    ensures catalog == Ingested(records)
  {
    hide NormalizeCode, AddTags;
    catalog := map[];
    for i := 0 to |records|
      invariant catalog == Ingested(records[..i])
    {
      assert records[..i + 1][..i] == records[..i];
      var record := records[i];
      assert Ingested(records[..i + 1]) == AddRecord(Ingested(records[..i]), record);
      var code := NormalizeCode(record.code);
      if code == "" {
        continue;
      }
      if code !in catalog {
        var tags := MergeTags([], record.tags);
        catalog := catalog[code := record.(code := code, tags := tags)];
      } else {
        var tags := MergeTags(catalog[code].tags, record.tags);
        catalog := catalog[code := catalog[code].(tags := tags)];
      }
    }
    assert records[..|records|] == records;
  }

  // The first record that carries a code.
  function FirstRecord(records: seq<Subject>, code: string): Option<Subject> {
    if records == [] then None
    else if NormalizeCode(records[0].code) == code then Some(records[0])
    else FirstRecord(records[1..], code)
  }

  lemma {:induction false} FirstRecordOfMore(records: seq<Subject>, last: Subject, code: string)
    ensures FirstRecord(records + [last], code) ==
      if FirstRecord(records, code).Some? then FirstRecord(records, code)
      else if NormalizeCode(last.code) == code then Some(last) else None
  {
    if records != [] {
      assert (records + [last])[1..] == records[1..] + [last];
      FirstRecordOfMore(records[1..], last, code);
    } else {
      assert (records + [last])[1..] == [];
    }
  }

  lemma {:induction false} IngestedIsIndexed(records: seq<Subject>)
    ensures Indexed(Ingested(records))
  {
    hide NormalizeCode, AddTags;
    if records != [] {
      IngestedIsIndexed(records[..|records| - 1]);
      NormalizeTwice(records[|records| - 1].code);
    }
  }

  // Every non-empty code of a record is a key, and nothing else is; an entry is the first
  // record of its code, except for the tags that later records add.
  lemma {:induction false} IngestedKeepsFirst(records: seq<Subject>, code: string)
    ensures code in Ingested(records) <==> code != "" && FirstRecord(records, code).Some?
    ensures code in Ingested(records) ==>
      Ingested(records)[code] == FirstRecord(records, code).value.(code := code, tags := Ingested(records)[code].tags)
  {
    hide NormalizeCode, AddTags, FirstRecord;
    if records == [] {
      NoRecords(code);
    } else {
      var front := records[..|records| - 1];
      var last := records[|records| - 1];
      IngestedKeepsFirst(front, code);
      assert records == front + [last];
      FirstRecordOfMore(front, last, code);
    }
  }

  lemma NoRecords(code: string)
    ensures FirstRecord([], code).None?
  {
  }

  // Tags only accumulate: no repeats, and exactly the non-blank tags of the code's records.
  lemma {:induction false} AddTagsCollects(tags: seq<string>, more: seq<string>, tag: string)
    ensures tag in AddTags(tags, more) <==> tag in tags || (tag != "" && tag in more)
    ensures (forall i, j :: 0 <= i < j < |tags| ==> tags[i] != tags[j]) ==>
      forall i, j :: 0 <= i < j < |AddTags(tags, more)| ==> AddTags(tags, more)[i] != AddTags(tags, more)[j]
    decreases |more|
  {
    if more != [] {
      AddTagsCollects(AddTag(tags, more[0]), more[1..], tag);
      assert more == [more[0]] + more[1..];
    }
  }

  // With normal keys the scans of `_lookup` and `_lookup_subject` find nothing a direct read misses.
  lemma LookupIsDirect(catalog: Catalog, code: string, key: string)
    requires Indexed(catalog) && key in catalog
    requires key == code || NormalizeCode(key) == NormalizeCode(code) || NormalizeCode(catalog[key].code) == NormalizeCode(code)
    ensures key == NormalizeCode(code)
  {
  }
}
