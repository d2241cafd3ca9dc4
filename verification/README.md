# Verified model of the study advisor

This project models the parts of the study advisor whose behaviour is hardest to see from one
function at a time, and proves what they promise together. To verify it:

    dafny verify dfyconfig.toml

Five subjects are covered.

**Electives.** Subject records become a catalogue (`Catalogue`), requirement texts are split and
evaluated character by character (`PrerequisiteParser`, `RequirementLeaves`, `RequirementEvaluator`),
equivalent subjects are closed over, pools and eligibility lists are built (`Eligibility`), candidates
are ranked (`ElectiveRanking`) and the placeholders of a study plan are filled by a greedy first fit in
calendar order (`ElectiveService`). A requirement text either gets an answer or recurses without end
(`Overflow`); the laws are in `RequirementLaws` (monotone, answers on every text without the word
"plus"), `PlusWords` (and on every text whose words "plus" stand between operands), `RequirementTrees`,
`RequirementReading` and `RequirementMeaning` (a printed requirement tree means the tree),
`RequirementDepartures` (nested groups and uncut words "plus", with exact conditions), `FilledPlans` (the
finished plan is valid although every slot was checked against the partial plan of its moment),
`RerunFillsMore` and `OneWayExclusions` (the families of plans that a second run fills further, and that
hold a subject beside one that it excludes).
What each of these operations decides is also said without naming how it is computed: the chains that
count as held (`EquivalentSubjects`), the characters that make a code or a threshold and other wordings of
requirements (`RequirementGrammar`, `RequirementWording`), the totals that thresholds ask for
(`Thresholds`), levels and placeholders (`SubjectReadings`), eligibility lists and pools
(`EligibilityRules`), the calendar and the rows of a filled plan (`PlanRules`), and the order of a ranking
(`RankingOrder`).

**Enrolment records.** A pasted record is parsed into typed values by a table parser (`EnrolmentShapes`,
`EnrolmentTable`) or, when the table markup is lost, by a flat parser (`EnrolmentFlat`), and printed
again (`EnrolmentPrinter`). All of it works on characters; the regular expressions are written out as
deterministic matchers for ASCII text. `EnrolmentValues`, `EnrolmentHeadings`, `EnrolmentReading` and
`EnrolmentRoundTrip` prove that a printed record parses back, `EnrolmentMarks` that marks never reach
the projection, the `EnrolmentFlat…` modules that a projection collapsed to one line keeps its rows, and
`Projection` puts both parsers and the printer together: projecting twice is projecting once exactly
when every major is settled. `EnrolmentRange` and `EnrolmentFlatRange` say exactly what each parser can
return. The documentation (app/services/enrolment.py:15-16) promises that no column carries arbitrary
text into the prompt. Years and credit points are integers, and codes, grades, statuses and the header's
course, campus and majors have closed shapes (the last two of letters and a few signs) on both routes; but
the table parser takes session and campus of a row and course and level of a credit as they stand
(lines 264-287), so any cell text in them reaches the prompt (`CellsPassThrough`). The flat parser takes
known sessions and campuses of letters only (`FlatRangeIff`). `EnrolmentLastLabel` says when the last
header value of a collapsed projection is found. The layout that SOLS itself prints, with marks, subject
names and delivery modes, is read back in `SolsRecords`, `SolsOnOneLine` and `SolsProjection`. Which
lines and cells make a record is said of the text itself in `TableLayout`, `TableValues`,
`HeaderGrammar` and `HeaderLines` for the table parser, in `FlatRules` and `FlatHeader` for the flat one,
in `PrintedText` for the printer, and in `TextReadings` for lines and numbers.

**Weighted average mark.** `Wam` models the marks that count, the repeats that are dropped and the
28-digit decimal division; `WamLaws` proves that the result is the exact quotient cut to two decimals,
lies between the marks and rises with them, and says exactly when the order of the rows is irrelevant.
`WamSpelledOut` says the same grade by grade and as an inequality. `WamOfPaste` joins it to the parser, from
the printed marks to their average.

**The advisor graph.** `AdvisorState`, `AdvisorCapture` and `AdvisorGraph` are a transition system over
the nodes and routers, with every model reply, tool result and handbook fetch an arbitrary input: every
turn ends within 42 nodes, no planning or elective node is entered without confirmed metadata and the
handbook it names, and planning changes neither. `AdvisorRuns` says over whole turns which verdict lets
planning start, which plans are shown, and when the student is told that a plan passed. `AdvisorRoutes`
and `AdvisorEffects` say of every point of a run where it goes next and what it changes, and
`MetadataChanges` what each tool result does to the metadata.

**Small cores.** `RateLimiting` (the sliding window over whole runs), `SealedToken` (unpadded base64url
and the six-part token, bit by bit in `TokenFormat`) and `Vault`, `VaultEffects`, `VaultLaws` (default keys,
labels and remote secrets, request by request and over whole runs of requests that may fail at any point).

Shared vocabulary is in `Text` (Python string primitives within ASCII), `Sums` and `Records`.

Where the code does not do what its documentation or a reader would expect, the code is modelled as it
is and the exact condition is proved: `ThresholdReadableIff`, `LevelBeforeCount`, `NestedGroupsReadIff`, `WordsOverflowIff`,
`FillingIsIdempotentIff` with `RerunFillsSkippedSlot`, `NoRowExcludesAnother` with
`OneWayExclusionIsFilled`, `SessionIff`, `RowCampusIff`, `CreditCourseIff` and `CreditLevelIff` with
`CellsPassThrough`, `OrderIsIrrelevantIff`, `ProjectingTwiceIff` with `HonoursIsLost`, `LastCampusIff`,
`LastMajorIff`, `StartOfTurnIff`, `ShownAfterEvaluationIff`, `AnnouncedPassIff` with
`UnevaluatedPlanIsAnnounced`, `DefaultAfterDelete`, `StepKeepsNoOrphans`.

## Model

| member | source | states |
|---|---|---|
| PrerequisiteParser.Expand | app/services/prerequisite_parser.py:31-57 | counting equivalents adds to what is held, and the result is closed under every entry of the table in both directions |
| PrerequisiteParser.ExpandIsLeast | app/services/prerequisite_parser.py:31-57 | no closed set that holds the given codes is smaller |
| PrerequisiteParser.ExpandIsMonotoneAndIdempotent | app/services/prerequisite_parser.py:31-57 | holding more never yields less, and expanding twice adds nothing |
| PrerequisiteParser.ExpandHeld | app/services/prerequisite_parser.py:31-57 | the sweep-until-stable loop ends, with exactly that least closed set |
| EquivalentSubjects.ExpandIffReached | app/services/prerequisite_parser.py:31-57 | a code counts as held exactly when a chain of table entries, each taken in either direction, leads to it from a held code |
| PrerequisiteParser.SplitTopLevel | app/services/prerequisite_parser.py:67-95 | the index, depth and buffer loop computes the recursive reading of a text at depth 0 |
| RequirementTrees.SplitJoin | app/services/prerequisite_parser.py:67-95 | splitting at a separator undoes joining parts that balance their parentheses and hide no separator at depth 0 |
| RequirementWording.PiecesAreNotBlank | app/services/prerequisite_parser.py:67-95 | of every text, splitting yields trimmed pieces and drops the blank ones |
| RequirementGrammar.CodesIff | app/services/prerequisite_parser.py:8 | the codes of a text are exactly its parts of three to five letters, at most one space, and two or three digits that stand as words |
| RequirementGrammar.ThresholdIff | app/services/prerequisite_parser.py:9-13 | the threshold of a text is the first place where, on one line, credit points stand before a level, or else a level before credit points; the wordings are written out character by character |
| RequirementWording.LevelBeforeCount | app/services/prerequisite_parser.py:105-117 | a threshold that states its level first asks for as many credit points as the level's number, whatever count it states |
| RequirementReading.ThresholdReading | app/services/prerequisite_parser.py:105-117 | what a printed credit-point threshold is read as, for every number, level and prefix list: counts below 6 and counts that are themselves a level are replaced |
| RequirementReading.ThresholdReadableIff | app/services/prerequisite_parser.py:105-117 | a threshold is read as it was meant exactly when its count is at least 6 and is no other level |
| RequirementEvaluator.CpAtLevelSatisfied | app/services/prerequisite_parser.py:120-135 | the running total over the held codes is the set total of the matching level and prefixes, compared with the minimum |
| Thresholds.ThresholdMeans | app/services/prerequisite_parser.py:120-135 | a printed threshold of n credit points holds exactly when the held codes of its level and prefixes, listed once each with the catalogue's levels and credit points, give at least n |
| Thresholds.ThresholdCounts | app/services/prerequisite_parser.py:120-135 | the same of every record, where a code of which it says nothing gives 6 and has the level that its first digit says |
| Thresholds.SubjectsNeeded | app/services/prerequisite_parser.py:120-135 | with 6-point subjects a threshold of 6n points holds exactly when n of them are held: one fewer does not do |
| RequirementEvaluator.TermPieces | app/services/prerequisite_parser.py:148-203 | everything a term is rewritten or split into weighs less than the term, although a comma becomes a longer " and ": the evaluator terminates |
| RequirementEvaluator.ExpressionPieces | app/services/prerequisite_parser.py:206-232 | the parts an expression is split into weigh less than the expression |
| RequirementLaws.TermMonotone | app/services/prerequisite_parser.py:148-203 | a term that holds keeps holding when the record grows, unless evaluation overflows |
| RequirementLaws.ExpressionMonotone | app/services/prerequisite_parser.py:206-232 | the same for whole expressions |
| RequirementLaws.ExpressionAnswers | app/services/prerequisite_parser.py:206-232 | every text without the bare word "plus" gets an answer, whatever its parentheses, commas and plus signs |
| RequirementLaws.SatisfiedMonotone | app/services/prerequisite_parser.py:235-247 | a list of texts that always get an answer is answered, and once satisfied stays satisfied as the record grows |
| PlusWords.GuardedAnswers | app/services/prerequisite_parser.py:182-188 | every text in which each word "plus" has a space and an operand on both sides gets an answer, whatever separators, commas and parentheses surround it |
| PlusWords.PlusBetween | app/services/prerequisite_parser.py:182-188 | an operand without the word, the word, and an operand of that form make a text of that form |
| PlusWords.ComputingText | seeds/scraped/subjects_canonical_2026.json:29632 | this catalogue text is of that form |
| PlusWords.EconomicsText | seeds/scraped/subjects_canonical_2026.json:3292 | so is this one, with a threshold and a group |
| PlusWords.OperationsText | seeds/scraped/subjects_canonical_2026.json:23204 | and this one, with the word inside a group |
| RequirementMeaning.LeafEvaluates | app/services/prerequisite_parser.py:148-203 | a printed code or threshold evaluates to what the leaf means |
| RequirementMeaning.AnyGroupEvaluates | app/services/prerequisite_parser.py:148-180 | a parenthesised "or" group evaluates to "some leaf holds" |
| RequirementMeaning.AllGroupEvaluates | app/services/prerequisite_parser.py:181-203 | a parenthesised "and" group of codes evaluates to "all are held" |
| RequirementMeaning.PrintedTreeMeansTree | app/services/prerequisite_parser.py:206-232 | for every tree that is an "or" of "and"s of leaves and one-level groups, evaluating its text is the tree's meaning, whatever is held |
| RequirementWording.PlusAsksForAll | app/services/prerequisite_parser.py:182-188 | codes between plus signs or words "plus" are all asked for |
| RequirementWording.CommasAskForAll | app/services/prerequisite_parser.py:190-195 | and so are codes between commas |
| RequirementWording.SideBySide | app/services/prerequisite_parser.py:200-201 | and codes between slashes |
| RequirementWording.NothingAsked | app/services/prerequisite_parser.py:215-217 | a blank text, or "none" in any case, asks for nothing |
| RequirementDepartures.NestedGroupsEvaluate | app/services/prerequisite_parser.py:148-162 | for all codes, "((a or b) and (c or d))" evaluates to: a is held, or b and c are, or d is |
| RequirementDepartures.NestedGroupsReadIff | app/services/prerequisite_parser.py:148-162 | that is what the text asks for exactly unless a is held with neither c nor d, or d with neither a nor b |
| RequirementDepartures.NestedGroupsMisread | app/services/prerequisite_parser.py:148-162 | whoever holds the last code alone satisfies the text and not what it asks for |
| RequirementDepartures.WordsOverflowIff | app/services/prerequisite_parser.py:182-188 | a text of words (no digit, parenthesis, comma or separator) overflows exactly when cutting it at its separated words "plus" leaves one in a piece, and otherwise asks for nothing |
| RequirementDepartures.OnePieceOverflowsIff | app/services/prerequisite_parser.py:182-188 | a bare text that is cut nowhere and holds no code and no threshold overflows exactly when it has the word "plus" |
| RequirementDepartures.BarePlusOverflows | app/services/prerequisite_parser.py:182-188 | the text "plus" never gets an answer |
| Catalogue.IngestSubjects | app/services/elective_service.py:61-84 | the ingestion loop builds the catalogue of the records |
| Catalogue.IngestedIsIndexed | app/services/elective_service.py:61-84 | every key is a non-empty normal code and is the code of its entry |
| Catalogue.IngestedKeepsFirst | app/services/elective_service.py:61-84 | the keys are exactly the records' codes, and an entry is the first record of its code apart from its tags |
| Catalogue.AddTagsCollects | app/services/elective_service.py:61-84 | merged tags hold exactly the non-blank tags given, none twice |
| Catalogue.LookupIsDirect | app/services/elective_service.py:267-276 | with normal keys the fallback scan finds nothing that a direct read misses |
| SubjectReadings.StatedLevel | app/services/eligibility_service.py:44-49 | a level text of a number and "-level" is the subject's level |
| SubjectReadings.UnstatedLevel | app/services/eligibility_service.py:44-49 | without such a text the level is the one that the code says |
| SubjectReadings.PoolLevelIff | app/services/elective_pools.py:22-59 | for pools a subject has a level exactly when its level text names the hundreds, with "level" or "lv" or nothing behind, or, without a text, its code is of the usual form with that first digit |
| SubjectReadings.PlaceholderIff | app/services/elective_service.py:57-58 | a row is a placeholder exactly when its trimmed code starts with the word "elective" or "tbd", in any case |
| SubjectReadings.SlotLevelIs | app/services/elective_service.py:301-305 | a placeholder asks for the first level that its code and name state |
| SubjectReadings.NoLevelAsked | app/services/elective_service.py:301-305 | and without a digit for none |
| SubjectReadings.NormalCodes | app/services/prerequisite_parser.py:27-28 | spaces and case do not count in a code |
| Eligibility.RequirementMaps | app/services/elective_service.py:279-294 | the loop records credit points and level of exactly the held codes |
| Eligibility.SatisfiedGrows | app/services/elective_service.py:327-365 | requirements met on a record stay met on every larger one, for texts that always get an answer |
| Eligibility.WellWrittenIsSound | app/services/prerequisite_parser.py:235-247 | when every text of a catalogue keeps its words "plus" between operands, every requirement of it gets an answer on every record |
| Eligibility.Total100LevelCp | app/services/eligibility_service.py:78-97 | the loop totals the 100-level credit points of the held codes and one more, none counted twice |
| Eligibility.ResolvePoolCandidates | app/services/elective_pools.py:89-205 | the candidates are exactly the catalogue's unforbidden subjects of an allowed level that the pool lists or describes |
| Eligibility.BuildEligibleElectivePool | app/services/elective_service.py:87-143 | the loop returns exactly the candidates that may be taken |
| Eligibility.GetEligibleSubjects | app/services/eligibility_service.py:159-245 | the loop returns exactly the catalogue's subjects not yet held that may be taken |
| EligibilityRules.EligibleIff | app/services/eligibility_service.py:159-245 | a subject is listed exactly when it is no completed or planned one, is offered on campus in the session, its prerequisites and corequisites hold, nothing completed excludes it or is a core subject that it replaces, and the 100-level points stay within the cap; every condition is written out over the catalogue and a list of the held codes |
| EligibilityRules.ElectiveIff | app/services/elective_service.py:87-143 | a subject is in the elective pool exactly when it is a candidate of the pool, not forbidden, completed or planned, offered if a session is given, and passes the same rules, where planned subjects bar as completed ones do |
| EligibilityRules.CandidateIff | app/services/elective_pools.py:89-205 | what a pool offers, written out: not forbidden, of an allowed and asked level, and listed or described by prefix or general schedule |
| EligibilityRules.OfferedIff | app/services/eligibility_service.py:100-115 | a subject is offered exactly when some offering is of the campus and of the session, annual, or named so that the session occurs in it |
| EligibilityRules.ReplacedIff | app/services/eligibility_service.py:118-130 | a code is barred as a replacement exactly when the table has an entry whose key reads as the code and whose core subject, or an equivalent of it, is held |
| EligibilityRules.ReplacementIsRefused | app/services/eligibility_service.py:118-130 | once the core subject of an entry is completed, itself or by an equivalent, its replacement is in neither list, and once it is planned, not in the pool |
| Eligibility.PoolIsEligible | app/services/elective_service.py:87-143 | the elective pool offers nothing that the eligibility list refuses |
| Eligibility.PoolAgreesWhenNothingPlanned | app/services/elective_service.py:87-143 | with nothing planned the pool is the eligibility list cut to the pool's candidates |
| ElectiveService.HeldAt | app/services/elective_service.py:308-324 | the loop collects completed, planned and earlier (or same-session) codes of the plan |
| ElectiveService.FirstFitIsFirst | app/services/elective_service.py:368-423 | the chosen subject fits and every higher-ranked one does not |
| ElectiveService.FindFirstFit | app/services/elective_service.py:368-423 | the walk over the ranked list, with its shortcuts, finds that subject |
| ElectiveService.ScheduledGrowsByOne | app/services/elective_service.py:146-196 | a filled slot adds exactly its new code to what is scheduled, so `used` and `scheduled` stay equal |
| ElectiveService.FillElectiveSlots | app/services/elective_service.py:146-196 | the loop over the changing plan computes the plan that visiting the slots in calendar order gives |
| ElectiveService.WellWrittenRecordsAreReady | app/services/elective_service.py:61-84 | subject records with such texts, whatever their order and repetition, are ingested to a catalogue that plans can be filled from |
| FilledPlans.OrderVisitsAll | app/services/elective_service.py:297-298 | the walk visits every slot once, in calendar order |
| FilledPlans.FilledPlanIsValid | app/services/elective_service.py:308-365 | in the finished plan every filled slot's prerequisites hold from completed, planned and strictly earlier rows and its corequisites from same-or-earlier rows; level, session and ranking are respected |
| FilledPlans.ExclusionsRespected | app/services/elective_service.py:327-365 | a filled slot's subject is barred, by exclusion or replacement and equivalents counted, by nothing completed, planned, fixed on the plan or filled before it |
| PlanRules.CalendarIff | app/services/elective_service.py:43 | a row comes before another exactly when its year is earlier, or in one year its session comes first in the order autumn, spring, summer, any other |
| PlanRules.VisitedInOrder | app/services/elective_service.py:297-298 | slots are visited in that order, and within a session in the order of the plan |
| PlanRules.HeldIff | app/services/elective_service.py:308-324 | a slot counts on exactly what is completed or planned and what stands in earlier rows, or for corequisites in rows of its session too |
| PlanRules.FitsIff | app/services/elective_service.py:327-423 | a ranked code fits a slot exactly under the conditions of the source, each written out |
| PlanRules.PlacedIsRow | app/services/elective_service.py:146-196 | a filled row has the subject's code, credit points and title, and keeps year and session |
| PlanRules.FilledRowObeys | app/services/elective_service.py:308-365 | in the finished plan a filled row is a ranked subject of an allowed and asked level, offered then, with its prerequisites in rows that come before it in that calendar and its corequisites by then, and nothing that was there excludes it or is replaced by it |
| PlanRules.ReplacementIsNotFilled | app/services/elective_service.py:327-365 | the replacement of a core subject that is completed or planned, itself or by an equivalent, is in no filled slot |
| FilledPlans.NoRowExcludesAnother | app/services/elective_service.py:327-365 | when exclusions are mutual, no filled slot and other row of the finished plan exclude each other in either direction |
| OneWayExclusions.OneWayExclusionIsFilled | app/services/elective_service.py:327-365 | for every pair of which one excludes the other only one way, a plan with two open slots is filled with both |
| OneWayExclusions.OneWayExample | app/services/elective_service.py:327-365 | there is such a pair and plan |
| FilledPlans.PlanIsConserved | app/services/elective_service.py:146-196 | length, years, sessions and all rows that were no placeholder are kept |
| FilledPlans.PlacedCodesAreDistinct | app/services/elective_service.py:146-196 | placed codes are new and differ from the code of every other row |
| FilledPlans.CapIsKept | app/services/elective_service.py:327-365 | the final 100-level total is at most the larger of the cap and the starting total |
| FilledPlans.LeftoverNeedsCorequisite | app/services/elective_service.py:308-324 | a slot that a rerun could still fill needs a subject with corequisites and a slot of its session filled after its turn |
| FilledPlans.FillingIsIdempotentIff | app/services/elective_service.py:146-196 | a second run from the same ranking changes nothing exactly when no slot left open fits any ranked subject on the finished plan |
| FilledPlans.FillingIsIdempotent | app/services/elective_service.py:146-196 | so, when no ranked subject has corequisites, or each session has one open slot, filling a filled plan changes nothing |
| RerunFillsMore.RerunFillsSkippedSlot | app/services/elective_service.py:321-323 | for every pair of subjects where the first is a corequisite of the second, a plan with two open slots in one session is filled further by a second run |
| OneWayExclusions.EntangledExample | app/services/elective_service.py:321-323 | there is such a pair and plan |
| ElectiveRanking.RankSubjects | app/services/elective_ranking.py:107-151 | the result is the best `limit` qualifying candidates in order: whoever is missing ranks behind a full list |
| RankingOrder.RankingIsByScore | app/services/elective_ranking.py:107-151 | scores never rise along the result, equal scores stand in strictly ascending code order, and every relevant candidate that is missing scores no higher than any entry of a full list, with a later code where it scores as high |
| RankingOrder.RankableIff | app/services/elective_service.py:220-237 | what is ranked for a plan is exactly the pool's candidates that are not forbidden, completed, planned, or in a row of the plan that is no placeholder |
| ElectiveRanking.RankingIsUnique | app/services/elective_ranking.py:107-151 | there is only one such list, so the order in which the candidate set is walked leaves no trace |
| ElectiveRanking.FillPlanFromSubjects | app/services/elective_service.py:199-252 | records are ingested, the pool is cut to what is not blocked, ranked, and the plan filled from that ranking |
| ElectiveRanking.FilledFromPool | app/services/elective_service.py:199-252 | every subject placed is a relevant candidate of the pool and none that was forbidden |
| EnrolmentTable.ParseTable | app/services/enrolment.py:483-535 | the line loop with its open table, columns and header computes the record of the text |
| TableLayout.TablesAreRead | app/services/enrolment.py:483-535 | a paste is read exactly when every line that stands under a known heading with nothing but table lines between has as many cells and values of their shapes, and one is an enrolment row; the record then holds these lines, all of them and in order, in their three lists |
| TableValues.RowIff | app/services/enrolment.py:249-276 | cells are a row exactly when each has its shape, and then the row holds them: integers, the session as it stands, the campus before a slash, code and grade in capitals, the status, and the mark from 0 to 100 if it is kept |
| TableValues.CreditIff | app/services/enrolment.py:279-288 | the same of credit rows |
| TableValues.HeadingIs | app/services/enrolment.py:205-207 | a column's name is the words of its heading without stars, in small letters, one space apart |
| HeaderGrammar.CourseIff | app/services/enrolment.py:83 | a line names a course exactly when it is labelled so and a number of three or four digits follows; stars, colon and white space are written out |
| HeaderGrammar.CampusIff | app/services/enrolment.py:84 | and a campus exactly when letters and spaces follow up to a pipe or the end |
| HeaderGrammar.MajorLineGives | app/services/enrolment.py:85 | stars, "second", a number, a colon and stars may stand before a major's value |
| HeaderGrammar.MajorFromIff | app/services/enrolment.py:291-303 | a value is recorded exactly as its leading code of two to six capitals, or else, if it is a title of two to eight words and does not say undeclared, as the title without a last word "Honours" |
| HeaderGrammar.ValueOnNextLine | app/services/enrolment.py:306-330 | a major's label alone on its line takes its value from the next line, unless that is a header line |
| HeaderLines.FirstLinesCount | app/services/enrolment.py:332-338 | course and campus of a record are those of the first lines outside every table that name one |
| SolsRecords.SolsReadsBack | app/services/enrolment.py:483-535 | a record printed in the layout of SOLS, with "Campus/Delivery", subject names and a "Mark" column, is read back whatever stands before it: with its marks of 0 to 100 when they are kept, without them otherwise |
| SolsProjection.SolsIsParsed | app/services/enrolment.py:356-374 | so is it by either call of the parser, and its projection is the print of the record without marks, names and delivery modes |
| EnrolmentPrinter.Render | app/services/enrolment.py:544-582 | the printer's growing list of lines is the record's printed text |
| PrintedText.RenderedIs | app/services/enrolment.py:538-582 | the printed text of every record, written out from its first character to its last |
| EnrolmentValues.MajorFromIsText | app/services/enrolment.py:291-303 | whatever is on a major line, what is recorded is a capitalised text of letters, "&", "-" and spaces |
| EnrolmentValues.TableRecordIsPrintable | app/services/enrolment.py:483-535 | whatever is pasted, a record that comes back holds integers, subject codes, known grades and statuses and a shaped header, cell texts in the four open columns, and no mark unless asked for |
| TextReadings.LineIsCut | app/services/enrolment.py:493 | a paste is cut at each of eight line ends, "\r\n" being one, and nowhere else |
| TextReadings.LastLine | app/services/enrolment.py:493 | and a text without a line end is one line, or none if it is empty |
| TextReadings.IntegerIff | app/services/enrolment.py:233-237 | a cell is an integer exactly when it is white space, perhaps a sign, runs of digits with single underscores between, and white space, and then it is that number |
| EnrolmentReading.LinesJoined | app/services/enrolment.py:493 | splitting a text into lines undoes joining lines |
| EnrolmentReading.SplitRowLine | app/services/enrolment.py:210-212 | a printed row splits into its cells, blank cells included |
| EnrolmentReading.CourseLineIsRead | app/services/enrolment.py:332-334 | a printed course line sets the course and nothing else |
| EnrolmentReading.CampusLineIsRead | app/services/enrolment.py:336-338 | a printed campus line sets the campus and nothing else |
| EnrolmentReading.MajorLineIsRead | app/services/enrolment.py:340-347 | a printed major line, numbered or not, is read as what its text is recorded as |
| EnrolmentHeadings.HeadingsNormalise | app/services/enrolment.py:205-207 | the printed headings normalise to the column names that the parser looks for |
| EnrolmentHeadings.TwoNamesAreTooFew | app/services/enrolment.py:219-230 | a row with at most two cells that could be column names introduces no table |
| EnrolmentRoundTrip.RowReadsBack | app/services/enrolment.py:249-276 | the cells of a printed row give the row back |
| EnrolmentRoundTrip.RenderedReadsBack | app/services/enrolment.py:483-582 | for every record with closed columns of their shapes and cells in the open ones, parsing its printed text gives it back, except specified credit's level and majors that no longer read as majors |
| EnrolmentMarks.TableIgnoresMarks | app/services/enrolment.py:249-276 | two pastes whose rows differ only in cells under "mark" give the same record, or neither gives one |
| EnrolmentMarks.TableErases | app/services/enrolment.py:274-276 | a parse that keeps marks is the ordinary parse with marks added |
| EnrolmentMarks.MarkIsReadBack | app/services/enrolment.py:240-246 | a printed mark of 0 to 100 is read as that mark, and a blank cell as none |
| EnrolmentFlat.ParseFlat | app/services/enrolment.py:377-480 | the flat parser's loops compute the record of the collapsed text |
| EnrolmentFlat.FindAllMissesNone | app/services/enrolment.py:388 | every match is what the row pattern matches at its start, and wherever the pattern matches a match starts or reaches over the place |
| FlatRules.FlatIsRead | app/services/enrolment.py:377-480 | a paste is read exactly when rows are found, only white space lies between them, no credit section with a digit follows, and no kept mark is above 100; its rows are then the captured fields |
| FlatRules.RowIsThere | app/services/enrolment.py:102-115 | a matched row stands in the text as its fields one space apart, with no letter behind the status |
| FlatRules.MarkupIsSpace | app/services/enrolment.py:386 | pipes and stars count as spaces |
| FlatRules.RowValues | app/services/enrolment.py:102-115 | the values that a matched row can have, written out |
| FlatRules.CreditIff | app/services/enrolment.py:119 | a text lists advanced standing exactly when "specified" or "unspecified" and "credit" stand in it as words and a digit follows before any "#" |
| FlatHeader.FlatHeaderIs | app/services/enrolment.py:420-437 | course and campus are the first that stand behind their labels, and the majors all that do, each up to the first place where a value ends |
| FlatHeader.EndIff | app/services/enrolment.py:138-142 | a header value ends exactly before white space and a label of the list with its colon, the column headings, or a year, or at the end of the text |
| EnrolmentFlatLaws.FlatRecordIsPrintable | app/services/enrolment.py:377-480 | the same, and no column is open: every row has a known session, a campus of letters and spaces, a year of 1900 to 2099 and at most two digits of credit points, and no credit is read |
| EnrolmentFlatRange.FlatRangeIff | app/services/enrolment.py:102-115 | rows come from some flat paste exactly when there are any and each is of that form, with single spaces in its campus |
| EnrolmentFlatRange.FlatProjectionKeepsRows | app/services/enrolment.py:356-374 | the projection of every flat paste keeps its rows and course when it loses its table in turn |
| EnrolmentFlatLaws.FlatErases | app/services/enrolment.py:467-471 | also there, a parse that keeps marks is the ordinary parse with marks added |
| EnrolmentFlatRows.StatusIsRead | app/services/enrolment.py:109-115 | the status alternation, longest first with its look-ahead, reads exactly the printed status |
| EnrolmentFlatRows.RowTextIsRead | app/services/enrolment.py:102-115 | the row pattern matches a printed row, all of it and no more, with its fields as captures |
| EnrolmentFlatText.RowWords | app/services/enrolment.py:386 | a printed row collapses to its fields one space apart, a blank grade gone |
| EnrolmentFlatRoundTrip.SkipWords | app/services/enrolment.py:388 | the search passes over words of which none that ends in a digit stands before a session |
| EnrolmentFlatRoundTrip.FlatReadsRendered | app/services/enrolment.py:377-480 | the flat parser recovers the rows of every credit-free printed record with known sessions, years 1900 to 2099, alphabetic campuses and credit points below 100 |
| EnrolmentFlatRoundTrip.FlatReadsCourse | app/services/enrolment.py:430-434 | and its course, if it has one |
| SolsOnOneLine.FlatReadsSols | app/services/enrolment.py:377-480 | the same layout without credit, collapsed to one line, gives its rows, with their marks if they are kept, when no word before them looks like the start of a row |
| SolsProjection.SolsOnOneLineIsParsed | app/services/enrolment.py:356-374 | and goes to the flat parser |
| Projection.ParseEnrolment | app/services/enrolment.py:356-374 | the paste goes to the table parser exactly when more than one line starts with a pipe |
| Projection.Project | app/services/enrolment.py:585-589 | a text comes back exactly when the paste parses; it prints a record without marks and with checked closed columns (all columns, if the paste was flat), goes to the table parser, and is read as the record of the paste but for what `Reread` drops |
| Projection.ParsedIsPrintable | app/services/enrolment.py:356-374 | by either parser closed columns have their shapes, and by the flat parser all columns are closed |
| EnrolmentRange.TableRangeIff | app/services/enrolment.py:249-288 | a record comes from some table paste exactly when its closed columns have their shapes, its open ones hold cells, some major line records each of its majors, and it has no marks |
| EnrolmentRange.ProjectionRangeIff | app/services/enrolment.py:544-589 | a text is the projection of some table paste exactly when it is the print of such a record |
| EnrolmentRange.CellsPassThrough | app/services/enrolment.py:249-288 | for all integers and all cell texts in session, row campus (no slash), credit course and credit level there is a paste that the projection returns unchanged, with them in it |
| EnrolmentRange.SessionIff | app/services/enrolment.py:249-276 | a text is the session of a row of some table paste exactly when a cell can hold it |
| EnrolmentRange.RowCampusIff | app/services/enrolment.py:249-276 | a text is the campus of a row exactly when a cell can hold it and it has no slash |
| EnrolmentRange.CreditCourseIff | app/services/enrolment.py:279-288 | a text is the course of a credit, in either table, exactly when a cell can hold it |
| EnrolmentRange.CreditLevelIff | app/services/enrolment.py:279-288 | a text is the level of an unspecified credit exactly when a cell can hold it and it is not empty |
| Projection.ParsedErases | app/services/enrolment.py:356-374 | by either parser, erasing marks from the marked parse gives the ordinary parse |
| Projection.ProjectionIgnoresMarks | app/services/enrolment.py:585-589 | two table pastes that differ only in marks project to the same text, or neither projects |
| Projection.ParsedReadsBack | app/services/enrolment.py:356-374 | parsing the printed record of any paste gives the record back as above |
| Projection.SettledIff | app/services/enrolment.py:291-303 | a major reads as itself exactly when it is a bare code, or a declared title that does not end in "Honours" |
| Projection.ProjectingTwiceIff | app/services/enrolment.py:585-589 | for every paste, projecting twice is projecting once exactly when all its majors are settled |
| Projection.HonoursIsLost | app/services/enrolment.py:295-303 | every one-word title with "Honours" is recorded as the word, which a second reading drops |
| Projection.OneLineKeepsRows | app/services/enrolment.py:372-374 | a credit-free projection collapsed to one line is routed to the flat parser and keeps its rows and its course |
| EnrolmentLastLabel.LastCampusIff | app/services/enrolment.py:138-146 | a campus that "#" follows on one line is found exactly when the column headings stand inside it, and otherwise lost |
| EnrolmentLastLabel.LastMajorIff | app/services/enrolment.py:138-151 | the same of a major |
| Wam.CheckedMark | app/services/wam.py:55-87 | a row passes exactly when it has 0 to 48 credit points and its grade is not final or agrees with its mark; a counted mark is the row's own, or the technical-fail mark for "TF"; a mark is left out for a grade that is not final only |
| Wam.DropRepeats | app/services/wam.py:90-102 | the dictionary loop refuses exactly the records in which two rows of one subject conflict, and otherwise keeps the first row of every subject in order |
| Wam.CalculateWam | app/services/wam.py:105-118 | the accumulating loop computes credit points and the decimal average of the rows that count |
| WamSpelledOut.CountedIs | app/services/wam.py:55-87 | the mark that a row counts with, and when the row is refused, written out grade by grade |
| WamSpelledOut.WamIs | app/services/wam.py:105-118 | a record is refused exactly when two rows of one subject, year and session differ in mark or credit points or a row that counts is refused; otherwise the average is the largest number of hundredths that, times the counted credit points, does not pass a hundred times the points |
| WamLaws.QuotientIsTruncated | app/services/wam.py:117 | division to 28 digits and cutting to two decimals is the exact truncation for all totals up to 10^23 |
| WamLaws.WamIsTruncated | app/services/wam.py:105-118 | so is the average of every record |
| WamLaws.WamIsBetweenMarks | app/services/wam.py:105-118 | the average lies between the smallest and the largest counted mark |
| WamLaws.WamIsMonotone | app/services/wam.py:105-118 | raising marks never lowers the average nor changes the credit points |
| WamLaws.WamIgnoresOrder | app/services/wam.py:90-118 | the result depends only on which rows there are, when rows that pass for repeats contribute the same |
| WamLaws.OrderIsIrrelevantIff | app/services/wam.py:90-118 | every permutation of a record's rows gives the same result exactly when it is refused anyway, by conflicting rows or a subject with unreadable rows only, or all rows that pass for repeats contribute the same |
| WamLaws.RepeatsMayDisagree | app/services/wam.py:97 | there is a record of which two permutations give different results |
| WamLaws.PastedTwice | app/services/wam.py:90-102 | pasting a record twice changes nothing, whatever it holds |
| WamOfPaste.CalculateWamOfPaste | app/services/wam.py:105-118 | the average of a paste is that of the marked parse, whose marks lie within 0 to 100; an unreadable paste has none |
| WamOfPaste.PrintedMarksAreAveraged | app/services/wam.py:105-118 | for a record in the layout of SOLS the parsed rows are the printed ones, marks included, and the result is that average of the printed marks |
| WamOfPaste.MarksOnOneLineAreAveraged | app/services/wam.py:105-118 | the same when the paste lost its line breaks |
| AdvisorState.BatchKeepsOrClears | app/agents/state.py:836-1100 | after any batch the stored handbook is untouched with an unchanged metadata key, or it is gone |
| AdvisorState.BatchStaysConsistent | app/agents/nodes/conversation.py:475-597 | whatever a batch accepts, rejects or contradicts, a stored handbook still fits the metadata |
| AdvisorState.ConfirmedMetadataIsComplete | app/agents/state.py:836-900 | confirmed metadata names a degree, a year and a campus |
| MetadataChanges.AskAlikeIff | app/agents/state.py:428-509 | two records of metadata have the same key exactly when they ask for the same degree, year and campus, or neither asks for a handbook |
| MetadataChanges.ConfirmationIs | app/agents/state.py:836-900 | a confirmed candidate is accepted exactly if it lacks no field, and then starts planning afresh; a handbook that it no longer asks for is dropped |
| MetadataChanges.TextChangeIs | app/agents/state.py:903-1100 | a new course, campus or session is the trimmed text, the other metadata kept; a blank one changes nothing |
| MetadataChanges.OtherChangeIs | app/agents/state.py:903-1100 | a readable year replaces the year, a general revision asks again for the metadata at hand, and an unreadable year or an unknown change does nothing |
| MetadataChanges.MajorChangeIs | app/agents/state.py:903-1100 | new majors are the list without blanks and repeats, and a list without a text changes nothing |
| MetadataChanges.InterestChangeIs | app/agents/state.py:903-1100 | new interests ask for planning afresh with metadata, handbook and plan kept |
| MetadataChanges.BatchInOrder | app/agents/nodes/conversation.py:475-597 | the results of a batch are applied in the order in which they came, each to the state that the earlier ones left |
| AdvisorCapture.CaptureToolResults | app/agents/nodes/conversation.py:475-597 | the updates that the loop collects, merged into the state, are the results applied one after the other |
| AdvisorCapture.OverrideMerges | app/agents/nodes/conversation.py:475-597 | merging two updates is merging one after the other |
| AdvisorGraph.EveryTurnEnds | app/agents/graphAPI.py:138-227 | whatever the models, tools and fetches return, a turn runs at most 42 nodes |
| AdvisorGraph.EveryRunIsGated | app/agents/nodes/conversation.py:599-635 | from any state, elective, Stage 1 and Stage 2 nodes are entered only with confirmed metadata and its handbook |
| AdvisorGraph.PlanningKeepsIdentity | app/agents/nodes/stage2.py:112-125 | no planning node changes metadata, confirmation or handbook, even when the confirming tool is called there |
| AdvisorGraph.PlanningRunKeepsIdentity | app/agents/nodes/stage2.py:30-145 | nor does any run of planning nodes |
| AdvisorGraph.PlanningIsRequestedOnce | app/agents/nodes/stage1.py:141-262 | a turn that started planning asks for no more planning |
| AdvisorGraph.StepKeepsConsistent | app/agents/graphAPI.py:138-227 | every node keeps a stored handbook fitting the metadata |
| AdvisorGraph.RunKeepsConsistent | app/agents/graphAPI.py:138-227 | and so does every run |
| AdvisorRuns.StartOfTurnIff | app/agents/nodes/stage1.py:131-262 | in any turn, starting to plan leads to Stage 1 exactly when the majors are validated there, or the validation fails and the turn began with an old verdict |
| AdvisorRuns.PlanningWasLet | app/agents/nodes/stage1.py:131-262 | whatever a turn does in Stage 1 or 2, one of these two let it there |
| AdvisorRuns.OldVerdictPlans | app/agents/nodes/stage1.py:244-253 | with an old verdict in place a turn whose validation fails goes on to plan, whichever majors the verdict was about |
| AdvisorRuns.ShownAfterEvaluationIff | app/agents/nodes/stage2.py:173-221 | in any Stage 2 run an evaluation is followed by the final output exactly when the plan passed, was rejected without feedback, or the evaluations so far use up the retries |
| AdvisorRuns.ShownUnpassed | app/agents/nodes/stage2.py:148-221 | a plan that did not pass its last evaluation is shown for one of three reasons: no feedback, retries used up, or the tool limit |
| AdvisorRuns.AnnouncedPassIff | app/agents/nodes/stage2.py:224-252 | over any Stage 2 run the student is told that the plan passed exactly when it did, was rejected without feedback, or was never evaluated; in the last two cases only, it is untrue |
| AdvisorRuns.UnevaluatedPlanIsAnnounced | app/agents/nodes/stage2.py:148-168 | a plan that the tool limit cuts off before any evaluation is announced as passed |
| AdvisorRuns.RunsFollowEdges | app/agents/graphAPI.py:138-227 | every step of every run is an edge that the graph declares |
| AdvisorRoutes.StoredIff | app/agents/state.py:458-486 | a handbook counts as stored exactly if it is marked valid and its degree, year and campus are all given |
| AdvisorRoutes.AfterReply | app/agents/nodes/conversation.py:599-635 | in any run a reply is followed by its tools exactly when a call is run, and otherwise by the end, the handbook, or what is asked for, each under its written-out condition |
| AdvisorRoutes.AfterToolResults | app/agents/nodes/conversation.py:129-159 | tool results lead back to the conversation, unless a confirmation among them calls for a handbook that is not at hand |
| AdvisorRoutes.CallsAreCounted | app/agents/nodes/conversation.py:445-473 | every attempted call counts towards the two of a turn |
| AdvisorRoutes.AfterFetch | app/agents/nodes/handbook.py:21-67 | fetching is followed by what is asked for exactly when a text came back and the metadata names a handbook, and then that text is stored under those names |
| AdvisorRoutes.AfterListEvaluation | app/agents/nodes/stage1.py:578-586 | over any run that enters Stage 1, an evaluation of the lists is followed by making the plan exactly when it found them valid, or the retries at entry and the evaluations so far make two; otherwise by revising the lists |
| AdvisorRoutes.AfterPlanning | app/agents/nodes/stage2.py:147-171 | the planner's calls are run unless four rounds are spent; a reply without calls is evaluated and its text becomes the plan |
| AdvisorRoutes.AfterPlanningTools | app/agents/nodes/stage2.py:112-145 | a round of planning tools answers the calls, is counted, and leads back to planning |
| AdvisorRoutes.AfterPlanEvaluation | app/agents/nodes/stage2.py:173-221 | an evaluation is followed by the output exactly when the plan passed, was rejected without feedback, or it is the second unsuccessful one |
| AdvisorRoutes.AfterPopulating | app/agents/nodes/stage1.py:365-497 | electives are filled in exactly when there is a plan and candidates; without a plan a recommendation is asked for instead |
| AdvisorRoutes.AfterRecommending | app/agents/nodes/stage1.py:305-363 | a recommendation answers what was pending and changes no plan |
| AdvisorRoutes.AfterNoHandbook | app/agents/nodes/handbook.py:69-80 | without a handbook no plan, no feedback and no request are left |
| AdvisorEffects.ReplyChanges | app/agents/nodes/conversation.py:193-443 | a reply carries the calls that are run, without an elective lookup that is not due, settles what is pending, and changes nothing else |
| AdvisorEffects.StartChanges | app/agents/nodes/stage1.py:141-262 | planning starts afresh exactly when the majors are validated with the handbook at hand; a refusal is remembered, a failed validation leaves the earlier verdict, and the request is spent |
| AdvisorEffects.ListsChange | app/agents/nodes/stage1.py:499-576 | making the lists clears their feedback, evaluating them counts a retry and leaves feedback exactly unless they are valid; nothing else changes |
| AdvisorEffects.EvaluationChanges | app/agents/nodes/stage2.py:173-212 | an evaluation changes the plan's feedback and its retries only |
| AdvisorEffects.ToolRoundChanges | app/agents/nodes/stage2.py:112-125 | a round of planning tools changes its count and the last message only |
| AdvisorEffects.NoPlanWithoutHandbook | app/agents/nodes/stage2.py:30-45 | without its handbook no plan is made and the request is dropped |
| AdvisorEffects.ServingChanges | app/agents/nodes/stage1.py:305-497 | serving electives changes what is pending and, when a plan is filled in, the plan |
| AdvisorEffects.FetchChanges | app/agents/nodes/handbook.py:21-50 | fetching keeps the planning work; a failed fetch drops the handbook and the request |
| AdvisorEffects.OutputChanges | app/agents/nodes/stage2.py:224-252 | the final output spends the request, enters the mode after planning, and keeps the plan and everything else |
| RateLimiting.RateLimiter.Allow | app/core/ratelimit.py:19-30 | one key's deque is pruned and extended or refused, and no other key's changes |
| RateLimiting.RateLimiter.Reset | app/core/ratelimit.py:32-37 | one key or all keys are forgotten, the others kept |
| RateLimiting.MemoryAgrees | app/core/ratelimit.py:19-37 | over every run of attempts and resets with a clock that never falls, the pruned memory agrees with the full history since the key's last reset about every later window |
| RateLimiting.RefusedIffFull | app/core/ratelimit.py:19-30 | an attempt is refused exactly when `limit` admissions lie in the window that ends with it |
| RateLimiting.WindowNeverOverfull | app/core/ratelimit.py:19-37 | every closed interval of the window's length holds at most `limit` admissions of a key since its last reset |
| SealedToken.EncodeReadsBack | app/core/crypto.py:240-245 | unpadded base64url of any bytes is url-safe and decodes to them |
| TokenFormat.EncodedBitByBit | app/core/crypto.py:240-241 | each character of the encoding is the letter of the url-safe alphabet (section 5 of RFC 4648) that its six bits number, and there are as many as six-bit groups are begun |
| SealedToken.PaddingRestored | app/core/crypto.py:244-245 | the padding computed from the length is the padding that was cut |
| SealedToken.TokenReadsBack | app/core/crypto.py:248-280 | a sealed secret survives being carried as a token, whatever its version and bytes |
| TokenFormat.TokenParts | app/core/crypto.py:248-259 | a token is six parts between dots: "v1", the key version, nonce, ciphertext, and the wrapped key's nonce and ciphertext |
| TokenFormat.OtherTextsAreNone | app/core/crypto.py:262-280 | a text without six parts, the first of them "v1", is no token |
| Vault.VaultService.CreateKey | app/services/vault_service.py:132-200 | the whole new state for every failure point, cleanup and rollback included |
| Vault.VaultService.UpdateKey | app/services/vault_service.py:202-244 | the whole new state for every combination of new key, new label and default flag, and every failure point |
| Vault.VaultService.DeleteKey | app/services/vault_service.py:246-262 | the secret goes before the row, and the oldest active key takes over a default |
| VaultEffects.CreateAnswers | app/services/vault_service.py:132-200 | when a creation is refused, fails or is done, condition by condition |
| VaultEffects.CreateChanges | app/services/vault_service.py:132-200 | a creation that is done adds an active row with the asked fields, the owner's only default if that was asked or it is its first; any other leaves the rows alone |
| VaultEffects.CreateStores | app/services/vault_service.py:132-200 | the secret of a new remote row is stored, and that of a refused one stays exactly when the cleanup fails |
| VaultEffects.UpdateAnswers | app/services/vault_service.py:202-244 | when a change is refused, fails or is done |
| VaultEffects.UpdateChanges | app/services/vault_service.py:202-244 | a change that is done makes a replaced key active, sets a given label, moves the default if asked, and touches nothing else; any other leaves the rows alone |
| VaultEffects.UpdateStores | app/services/vault_service.py:202-244 | a replacement that reached the remote store is there even if the request fails after it |
| VaultEffects.DeleteAnswers | app/services/vault_service.py:246-262 | when a deletion is refused, fails or is done |
| VaultEffects.DeleteChanges | app/services/vault_service.py:246-262 | a deletion that is done removes the row and, if it was the default, makes an oldest usable key of its owner the default, if there is one; any other leaves the rows alone |
| VaultEffects.DeleteStores | app/services/vault_service.py:246-262 | the secret of an owned remote key is gone once the store deleted it, also when the commit then fails |
| VaultEffects.VerdictChanges | app/services/vault_service.py:280-308 | a verdict on an owned key is its new status, and nothing else changes |
| VaultEffects.RejectionChanges | app/services/vault_service.py:310-326 | a rejected key is invalid, and nothing else changes |
| VaultEffects.CandidateOrder | app/services/credential_resolver.py:126-165 | candidates are the owner's active keys, the default first and then by age |
| VaultLaws.VerdictDecides | app/services/vault_service.py:280-308 | a verdict makes the key a candidate of its owner's turns or takes it away, and touches no other key |
| VaultLaws.RejectedStaysOut | app/services/vault_service.py:280-326 | over every run, a rejected key is used by no turn, as default or pinned, until it is replaced or accepted again |
| Vault.Oldest | app/services/vault_service.py:378-391 | the replacement is an oldest active key, and there is one exactly if an active key is left |
| Vault.Choose | app/services/credential_resolver.py:167-179 | the loop returns the pinned candidate, else the first |
| VaultLaws.StepKeepsSound | app/services/vault_service.py:132-326 | every request keeps at most one default per user and provider, and labels apart |
| VaultLaws.StepKeepsNoOrphans | app/services/vault_service.py:132-326 | a request leaves a secret without its row exactly when a refused creation's cleanup fails |
| VaultLaws.RunKeepsSound | app/services/vault_service.py:132-326 | both uniqueness rules hold over every run from an empty vault |
| VaultLaws.RunKeepsNoOrphans | app/services/vault_service.py:132-326 | over every run whose cleanups succeed, no secret is without its row |
| VaultLaws.DefaultAfterDelete | app/services/vault_service.py:380-391 | after the default is deleted its owner has a default again exactly if an active key is left |
| VaultLaws.EveryTurnHasItsKey | app/services/credential_resolver.py:126-179 | in every state of every run a turn uses its pinned key if that is active, else the default, else an oldest active key, and none exactly if none is active |
| VaultLaws.StepKeepsDefaultIff | app/services/vault_service.py:132-326 | a request leaves a default key its owner's active default exactly unless it makes another key of the owner the default, deletes the key, or refuses it |
| VaultLaws.NewDefaultStaysChosen | app/services/vault_service.py:132-326 | over every run, a key made the default, as an owner's first one or on request, is used by every later turn of its owner that pins no candidate, until such a request |

## Left out

- Text: all text is ASCII; Unicode white space, digits, case folding and the em dash in flat major values are not modelled, nor Python's limit on the number of digits that `int` reads.
- ElectiveRanking.RankSubjects: `keyword_overlap_score` and its tokens are an arbitrary number per subject; codes come in their normal form, as pool resolution gives them.
- Eligibility.BuildEligibleElectivePool: a requirement text that never gets an answer counts as not satisfied, here and in `GetEligibleSubjects`; in the program it ends in a recursion error.
- Eligibility.GetEligibleSubjects: the result is a set; its sort order and the `in_core` and `in_major` flags are not modelled.
- ElectiveService.FillElectiveSlots: requires a catalogue in which every requirement text always gets an answer (`Answers`), no credit points are negative and no code reads as a placeholder; on a text without an answer the program recurses without end. `WellWrittenRecordsAreReady` discharges this for records of well-written texts.
- FilledPlans.FillingIsIdempotent: holds for steady rankings; for all others `FillingIsIdempotentIff` is the condition.
- RequirementMeaning.PrintedTreeMeansTree: the prefix list "CSIT/ISIT" without "CSCI", which the handbooks do not print, is not in the tree class; nested groups are the subject of `NestedGroupsReadIff`.
- RequirementDepartures.WordsOverflowIff: for texts with codes or thresholds only sufficient conditions are given, since an earlier answer may keep the evaluator from an uncut word "plus".
- RateLimiting.RateLimiter.Allow: the clock is a parameter and the lock is not modelled.
- Projection.OneLineKeepsRows: states rows and course only. The last campus or major before "## Enrolment History" is the subject of `LastCampusIff` and `LastMajorIff`; which of several earlier ones survive is not stated.
- EnrolmentFlatRoundTrip.FlatReadsRendered: as for `OneLineKeepsRows`.
- WamLaws.WamIsTruncated: for records of at most 2 * 10^21 rows.
- WamSpelledOut.WamIs: for as many, and so are the averages in `PrintedMarksAreAveraged` and `MarksOnOneLineAreAveraged`.
- SolsProjection.SolsOnOneLineIsParsed: states the rows, for records that the flat pattern can tell apart (known sessions, years 1900 to 2099, alphabetic campuses, credit points below 100) and no word before them that ends in a digit and stands before a session; the header of such a paste is the subject of `FlatHeaderIs`.
- HeaderGrammar.MajorLineGives: for values that start with a letter, or none; which lines name a major at all is the subject of `MajorLabelIff` there.
- SubjectReadings.SlotLevelIs: for a level that no digit stands before; a later one is read only if no earlier number is a level.
- SealedToken.TokenReadsBack: the base64 codec of the Python library is modelled as a state machine; tokens that were not written by the program are read but nothing is claimed of them.
- Vault.VaultService.UpdateKey: the contents of secrets are not modelled, so that a label clash after a key was replaced leaves the new key in the remote store under the old row is visible only as a put that happened.
- Account deletion's purge of all keys, the audit trail, last-used times and the SQL session are not modelled; a local secret is part of its row.
- Sealing, unsealing and rewrapping of secrets, master keys and key derivation are not modelled.
- AdvisorGraph.EveryTurnEnds: exceptions that abort a turn, the graph library's own recursion limit, and message texts other than the tool calls of the last message are not modelled.
- AdvisorState.ConfirmedMetadataIsComplete: the sanitising of confirmed metadata is an arbitrary candidate; recognising majors in free text is not modelled.
- Stage 1 lists, elective recommendation texts, prompts, routes, scraping, model registry and pricing are not modelled.
