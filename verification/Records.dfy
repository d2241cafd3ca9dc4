/** The typed record of app/services/enrolment.py, and the allowlists its values come from. */
module Records {
  import opened Text

  // A parse either succeeds or refuses the whole paste.
  datatype Result<+T> = Ok(value: T) | Unreadable

  // One subject attempt; `mark` stays None unless the parse keeps marks.
  datatype EnrolmentRow = EnrolmentRow(
    year: int, session: string, campus: string, code: string, nomCp: int,
    grade: Option<string>, status: string, mark: Option<int>)

  // One advanced-standing row, for a named subject or not.
  datatype CreditRow = CreditRow(course: string, code: Option<string>, level: Option<string>, nomCp: int)

  datatype EnrolmentRecord = EnrolmentRecord(
    course: Option<string>, campus: Option<string>, majors: seq<string>,
    rows: seq<EnrolmentRow>, specified: seq<CreditRow>, unspecified: seq<CreditRow>)

  predicate IsGrade(s: string) {
    s in {"HD", "D", "C", "P", "PS", "F", "TF", "U", "CO", "S", "E", "IPC", "IPR", "WH", "WD", "WS", "ND"}
  }

  predicate IsStatus(s: string) {
    s in {"Complete", "Enrolled", "Withdrawn", "Approved Withdrawal", "Withheld", "Withheld Deferred",
          "Withheld Supplementary", "Failed", "Provisional", "Leave of Absence", "Not Counted (Prior Course)"}
  }

  predicate IsSession(s: string) {
    s in {"Annual", "Autumn", "Spring", "Summer", "Winter"}
  }
}
