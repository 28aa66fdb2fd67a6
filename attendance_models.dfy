/** The attendance app's model: the two attendance statuses, the attendance
    record, its one-record-per-(event, student) rule and its display string. */
module AttendanceModels {
  import opened Wrappers
  import opened Text

  /** `AttendanceStatus`: the stored value and the human label of each choice. */
  datatype AttendanceStatus = Present | Absent {
    function Value(): string {
      match this
      case Present => "PRESENT"
      case Absent => "ABSENT"
    }

    function Label(): string {
      match this
      case Present => "Present"
      case Absent => "Absent"
    }
  }

  /** The choice whose stored value is `s`, if any. */
  function StatusFromValue(s: string): (r: Option<AttendanceStatus>)
    ensures r.Some? <==> s == "PRESENT" || s == "ABSENT"
    ensures r.Some? ==> r.value.Value() == s
  {
    if s == "PRESENT" then Some(Present)
    else if s == "ABSENT" then Some(Absent)
    else None
  }

  /** Each choice's stored value maps back to that choice. */
  lemma StatusValueRoundTrip(st: AttendanceStatus)
    ensures StatusFromValue(st.Value()) == Some(st)
  {
  }

  /** `status` is a choice value. */
  predicate ValidStatus(s: string) { StatusFromValue(s).Some? }

  /** An attendance record. `status` is a plain string because saving a model
      does not validate choices; `timestamp` is the creation time
      (`auto_now_add`), a number of clock ticks. */
  datatype Attendance = Attendance(eventId: nat, studentId: nat, status: string, timestamp: int)

  predicate IsFor(a: Attendance, eventId: nat, studentId: nat) {
    a.eventId == eventId && a.studentId == studentId
  }

  /** `unique_together = ('event', 'student')` */
  ghost predicate OnePerEventStudent(records: map<nat, Attendance>) {
    forall i, j :: i in records && j in records && i != j ==>
      !IsFor(records[j], records[i].eventId, records[i].studentId)
  }

  /** Every stored status is one of the two choices. */
  ghost predicate StatusesValid(records: map<nat, Attendance>) {
    forall id :: id in records ==> ValidStatus(records[id].status)
  }

  /** The record of `(eventId, studentId)`, when there is one. */
  ghost function RecordFor(records: map<nat, Attendance>, eventId: nat, studentId: nat): (r: Option<nat>)
    ensures r.Some? ==> r.value in records && IsFor(records[r.value], eventId, studentId)
    ensures r.None? ==> forall id :: id in records ==> !IsFor(records[id], eventId, studentId)
  {
    if exists id :: id in records && IsFor(records[id], eventId, studentId) then
      var id :| id in records && IsFor(records[id], eventId, studentId);
      Some(id)
    else None
  }

  /** Under the uniqueness rule the record of a pair is the only one. */
  lemma RecordForUnique(records: map<nat, Attendance>, eventId: nat, studentId: nat, id: nat)
    requires OnePerEventStudent(records)
    requires id in records && IsFor(records[id], eventId, studentId)
    ensures RecordFor(records, eventId, studentId) == Some(id)
  {
  }

  /** `__str__`: `"<student> - <event> (<status>)"`, given the student's and
      the event's own display strings. */
  function AttendanceLabel(student: string, event: string, status: string): (s: string)
  {
    student + " - " + event + " (" + status + ")"
  }

  /** The status read back from a display string: the text between the last
      `(` and the closing `)`. */
  function LabelStatus(s: string): Option<string> {
    if |s| == 0 || s[|s| - 1] != ')' then None
    else LabelStatusFrom(s[..|s| - 1], |s| - 1)
  }

  /** The text after the last `(` in `s[..k]`. */
  function LabelStatusFrom(s: string, k: nat): Option<string>
    requires k <= |s|
  {
    if k == 0 then None
    else if s[k - 1] == '(' then Some(s[k..])
    else LabelStatusFrom(s, k - 1)
  }

  lemma {:induction false} LabelStatusFromSkips(pre: string, st: string, k: nat)
    requires '(' !in st && |pre| <= k <= |pre| + |st| && pre != [] && pre[|pre| - 1] == '('
    ensures LabelStatusFrom(pre + st, k) == Some(st)
    decreases k
  {
    var s := pre + st;
    if k == |pre| {
      assert s[k..] == st;
    } else {
      assert s[k - 1] == st[k - 1 - |pre|];
      LabelStatusFromSkips(pre, st, k - 1);
    }
  }

  /** A status without `(` is recovered from the display string, whatever
      the student and event strings hold. */
  lemma LabelStatusRoundTrip(student: string, event: string, status: string)
    requires '(' !in status
    ensures LabelStatus(AttendanceLabel(student, event, status)) == Some(status)
  {
    var s := AttendanceLabel(student, event, status);
    var pre := student + " - " + event + " (";
    assert s[..|s| - 1] == pre + status;
    LabelStatusFromSkips(pre, status, |s| - 1);
  }
}
