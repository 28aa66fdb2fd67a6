/** Migration 0006 of the attendance app (`normalize_ref_codes`): every record
    whose `ref_code` is null, empty or does not start with a letter gets a new
    code of the form
      letter + event id mod 100 (2 digits) + session id mod 100 (2 digits)
             + last four alphanumerics of the roll number (or student id mod
               10000, 4 digits)
    made unique against the codes of all other records by `-1`, `-2`, ... */
module NormalizeRefCode {
  import opened Wrappers
  import opened Text
  import opened Collections
  import opened RefCode

  /** `max_base_len`: room is kept for a suffix within the 32-character column. */
  const MaxBaseLength: nat := 28

  /** The roll part: the last (at most four) alphanumeric characters of a
      student's non-empty roll number; "" when the student, the roll number or
      any alphanumeric character in it is missing. */
  function RollPart(studentId: nat, students: map<nat, StudentRow>): (roll: string)
    ensures |roll| <= 4
    ensures forall i :: 0 <= i < |roll| ==> IsAlnum(roll[i])
    ensures roll == "" <==>
      studentId !in students || students[studentId].rollNo.None? ||
      KeepAlnum(students[studentId].rollNo.value) == ""
    ensures roll != "" ==>
      var kept := KeepAlnum(students[studentId].rollNo.value);
      |roll| == Min(4, |kept|) && roll == kept[|kept| - |roll|..]
  {
    if studentId in students && students[studentId].rollNo.Some? && students[studentId].rollNo.value != "" then
      LastN(KeepAlnum(students[studentId].rollNo.value), 4)
    else ""
  }

  /** `''.join(parts).upper()`, capped at 28 characters: the two-digit event
      and session parts followed by the roll part, or by the four-digit
      student part when the roll part is empty. */
  function DigitBase(ids: LinkedIds, roll: string, studentId: nat): (base: string)
    requires |roll| <= 4 && forall i :: 0 <= i < |roll| ==> IsAlnum(roll[i])
    ensures 5 <= |base| <= 8
    ensures base[..2] == TwoDigitPart(ids.eventId) && base[2..4] == TwoDigitPart(ids.sessionId)
    ensures base[4..] == if roll != "" then Upper(roll) else FourDigitPart(studentId)
    ensures forall i :: 0 <= i < |base| ==> IsDigit(base[i]) || IsUpper(base[i])
  {
    var e, s := TwoDigitPart(ids.eventId), TwoDigitPart(ids.sessionId);
    var tail := if roll != "" then roll else FourDigitPart(studentId);
    DigitBaseShape(e, s, tail);
    UpperDigits(FourDigitPart(studentId));
    PySliceTo(Upper(e + s + tail), MaxBaseLength)
  }

  /** Two two-digit parts and an alphanumeric tail of at most four
      characters fit under the cap, so nothing is cut. */
  lemma DigitBaseShape(e: string, s: string, tail: string)
    requires |e| == 2 && |s| == 2 && AllDigits(e) && AllDigits(s)
    requires 1 <= |tail| <= 4 && forall i :: 0 <= i < |tail| ==> IsAlnum(tail[i])
    ensures var base := PySliceTo(Upper(e + s + tail), MaxBaseLength);
      && 5 <= |base| <= 8 && base[..2] == e && base[2..4] == s && base[4..] == Upper(tail)
      && forall i :: 0 <= i < |base| ==> IsDigit(base[i]) || IsUpper(base[i])
  {
    var u := Upper(e + s + tail);
    UpperAfterDigits(e + s, tail);
    assert PySliceTo(u, MaxBaseLength) == u;
    assert u == e + s + Upper(tail);
    forall i | 0 <= i < |u| ensures IsDigit(u[i]) || IsUpper(u[i]) {
      if i >= 4 {
        assert u[i] == Upper(tail)[i - 4];
      }
    }
  }

  /** Upper-casing leaves a digit prefix alone and maps alphanumerics to
      digits and upper-case letters. */
  lemma UpperAfterDigits(digits: string, tail: string)
    requires AllDigits(digits)
    requires forall i :: 0 <= i < |tail| ==> IsAlnum(tail[i])
    ensures Upper(digits + tail) == digits + Upper(tail)
    ensures forall i :: 0 <= i < |tail| ==> IsDigit(Upper(tail)[i]) || IsUpper(Upper(tail)[i])
  {
    UpperConcat(digits, tail);
    UpperDigits(digits);
  }

  lemma UpperDigits(digits: string)
    requires AllDigits(digits)
    ensures Upper(digits) == digits
  {
    UpperNoLower(digits);
  }

  /** `event_id or session_id or (student_id or 0)`: the first truthy id. */
  function PrefixSource(ids: LinkedIds, studentId: nat): nat {
    if Truthy(ids.eventId) then ids.eventId.value
    else if Truthy(ids.sessionId) then ids.sessionId.value
    else studentId
  }

  /** `chr(ord('A') + source % 26)` */
  function PrefixLetter(source: nat): (c: char)
    ensures IsUpper(c)
  {
    ('A' as int + source % 26) as char
  }

  /** Lines 45-51: a base that does not start with a letter gets `letter` in
      front, and is cut back to 28 characters. */
  function PrefixIfNeeded(letter: char, base: string): string
    requires base != []
  {
    if !IsAlpha(base[0]) then
      PySliceTo([letter] + base, MaxBaseLength)
    else base
  }

  /** The base the collision loop starts from (lines 33-51). Because the event
      part is two digits, the base never starts with a letter, so the prefix
      letter is always put in front. */
  function CandidateBase(row: AttendanceRow, sessions: map<nat, SessionRow>, students: map<nat, StudentRow>): (base: string)
    ensures 6 <= |base| <= 9 && NoDash(base)
    ensures base[0] == PrefixLetter(PrefixSource(LinkedIdsOf(row.sessionId, sessions), row.studentId))
    ensures base[1..] == DigitBase(LinkedIdsOf(row.sessionId, sessions), RollPart(row.studentId, students), row.studentId)
    ensures forall i :: 0 <= i < |base| ==> IsDigit(base[i]) || IsUpper(base[i])
  {
    var ids := LinkedIdsOf(row.sessionId, sessions);
    var digits := DigitBase(ids, RollPart(row.studentId, students), row.studentId);
    var letter := PrefixLetter(PrefixSource(ids, row.studentId));
    assert digits[0] == digits[..2][0];
    PrefixedShape(letter, digits);
    PrefixIfNeeded(letter, digits)
  }

  /** A digit-led base always gets the letter in front. */
  lemma PrefixedShape(letter: char, digits: string)
    requires IsUpper(letter) && 5 <= |digits| <= 8 && IsDigit(digits[0])
    requires forall i :: 0 <= i < |digits| ==> IsDigit(digits[i]) || IsUpper(digits[i])
    ensures var base := PrefixIfNeeded(letter, digits);
      && base == [letter] + digits && 6 <= |base| <= 9 && NoDash(base)
      && forall i :: 0 <= i < |base| ==> IsDigit(base[i]) || IsUpper(base[i])
  {
    var base := [letter] + digits;
    assert PrefixIfNeeded(letter, digits) == base;
    forall i | 0 <= i < |base| ensures IsDigit(base[i]) || IsUpper(base[i]) {
      if i > 0 { assert base[i] == digits[i - 1]; }
    }
    assert NoDash(base) by {
      forall i | 0 <= i < |base| ensures base[i] != '-' {}
    }
  }

  /** The code `make_candidate` returns for record `id`. */
  function NormalizedCode(rows: map<nat, AttendanceRow>, sessions: map<nat, SessionRow>, students: map<nat, StudentRow>, id: nat): string
    requires id in rows
  {
    Resolve(CandidateBase(rows[id], sessions, students), OtherCodes(rows, id))
  }

  /** `make_candidate(att)`: derive the base, then run the collision loop
      against the codes of all other records. */
  method MakeCandidate(table: AttendanceTable, id: nat) returns (candidate: string)
    requires id in table.rows
    ensures candidate == NormalizedCode(table.rows, table.sessions, table.students, id)
    ensures candidate !in OtherCodes(table.rows, id)
  {
    var base := CandidateBase(table.rows[id], table.sessions, table.students);
    var others := OtherCodes(table.rows, id);
    candidate := ResolveCollision(base, others);
  }

  /** The generated code is letter-led and fits the 32-character column. The
      bound on the table size keeps the suffix under 31 digits. */
  lemma NormalizedCodeShape(rows: map<nat, AttendanceRow>, sessions: map<nat, SessionRow>, students: map<nat, StudentRow>, id: nat)
    requires id in rows && |rows| < Pow10(30)
    ensures var code := NormalizedCode(rows, sessions, students, id);
      1 <= |code| <= MaxCodeLength && IsUpper(code[0]) &&
      code[0] == PrefixLetter(PrefixSource(LinkedIdsOf(rows[id].sessionId, sessions), rows[id].studentId))
  {
    OtherCodesBound(rows, id);
    ResolvedCodeFits(CandidateBase(rows[id], sessions, students), OtherCodes(rows, id));
  }

  /** The worked example: event 7, session 3, roll number "CS042" and no
      other codes give "H0703S042". */
  lemma ExampleCode()
    ensures NormalizedCode(map[1 := AttendanceRow(Some(3), 42, None)],
                           map[3 := SessionRow(Some(7))],
                           map[42 := StudentRow(Some("CS042"))], 1) == "H0703S042"
  {
    var rows := map[1 := AttendanceRow(Some(3), 42, None)];
    var base := CandidateBase(rows[1], map[3 := SessionRow(Some(7))], map[42 := StudentRow(Some("CS042"))]);
    ExampleBase();
    assert OtherCodes(rows, 1) == {};
    assert Resolve(base, {}) == Candidate(base, 0);
  }

  lemma ExampleBase()
    ensures CandidateBase(AttendanceRow(Some(3), 42, None), map[3 := SessionRow(Some(7))],
                          map[42 := StudentRow(Some("CS042"))]) == "H0703S042"
  {
    assert LinkedIdsOf(Some(3), map[3 := SessionRow(Some(7))]) == LinkedIds(Some(7), Some(3));
    ExampleRoll();
    ExampleTwoDigits();
    ExampleLetter();
    ExampleDigitsOf(LinkedIds(Some(7), Some(3)), "S042", 42);
    ExampleBaseOf(AttendanceRow(Some(3), 42, None), map[3 := SessionRow(Some(7))],
                  map[42 := StudentRow(Some("CS042"))]);
  }

  lemma ExampleBaseOf(row: AttendanceRow, sessions: map<nat, SessionRow>, students: map<nat, StudentRow>)
    requires PrefixLetter(PrefixSource(LinkedIdsOf(row.sessionId, sessions), row.studentId)) == 'H'
    requires DigitBase(LinkedIdsOf(row.sessionId, sessions), RollPart(row.studentId, students), row.studentId) == "0703S042"
    ensures CandidateBase(row, sessions, students) == "H0703S042"
  {
    HeadAndTail(CandidateBase(row, sessions, students), 'H', "0703S042");
  }

  lemma ExampleLetter()
    ensures PrefixLetter(PrefixSource(LinkedIds(Some(7), Some(3)), 42)) == 'H'
  {
  }

  lemma HeadAndTail(s: string, c: char, rest: string)
    requires s != [] && s[0] == c && s[1..] == rest
    ensures s == [c] + rest
  {
    assert s == [s[0]] + s[1..];
  }

  lemma ExampleDigitsOf(ids: LinkedIds, roll: string, studentId: nat)
    requires TwoDigitPart(ids.eventId) == "07" && TwoDigitPart(ids.sessionId) == "03"
    requires roll == "S042"
    ensures DigitBase(ids, roll, studentId) == "0703S042"
  {
    UpperNoLower(roll);
    var digits := DigitBase(ids, roll, studentId);
    assert digits == digits[..2] + digits[2..4] + digits[4..];
  }

  lemma ExampleRoll()
    ensures RollPart(42, map[42 := StudentRow(Some("CS042"))]) == "S042"
  {
    KeepAlnumAllAlnum("CS042");
    assert LastN("CS042", 4) == "S042";
  }

  /** Keeping the alphanumerics of an all-alphanumeric string keeps it whole. */
  lemma {:induction false} KeepAlnumAllAlnum(s: string)
    requires forall i :: 0 <= i < |s| ==> IsAlnum(s[i])
    ensures KeepAlnum(s) == s
  {
    if s != [] {
      KeepAlnumAllAlnum(s[1..]);
    }
  }

  lemma ExampleTwoDigits()
    ensures TwoDigitPart(Some(7)) == "07" && TwoDigitPart(Some(3)) == "03"
  {
    assert NatToString(7) == "7";
    assert NatToString(3) == "3";
    assert Zeros(1) == "0";
  }

  // ---------------------------------------------------------------------
  // The batch: `for att in qs: att.ref_code = make_candidate(att); att.save()`
  // ---------------------------------------------------------------------

  /** The filter `ref_code IS NULL OR ref_code = '' OR NOT ref_code ~ '^[A-Za-z]'`. */
  predicate NeedsNormalizing(code: Option<string>) {
    code.None? || code.value == "" || !IsAlpha(code.value[0])
  }

  /** The records the migration's query selects. */
  function Selected(rows: map<nat, AttendanceRow>): set<nat> {
    set id | id in rows && NeedsNormalizing(rows[id].refCode)
  }

  /** `order` lists the selected records, each once, in the order the query
      yields them. */
  ghost predicate EnumeratesSelected(rows: map<nat, AttendanceRow>, order: seq<nat>) {
    && Distinct(order)
    && (forall i :: 0 <= i < |order| ==> order[i] in Selected(rows))
    && (forall id :: id in Selected(rows) ==> id in order)
  }

  /** The table after the records in `order` have been rewritten one at a
      time, each against the codes as they stand when its turn comes. */
  function NormalizeAll(rows: map<nat, AttendanceRow>, sessions: map<nat, SessionRow>, students: map<nat, StudentRow>, order: seq<nat>): (rows': map<nat, AttendanceRow>)
    requires forall i :: 0 <= i < |order| ==> order[i] in rows
    ensures rows'.Keys == rows.Keys
  {
    if order == [] then rows
    else
      var id := order[0];
      NormalizeAll(Assign(rows, id, NormalizedCode(rows, sessions, students, id)), sessions, students, order[1..])
  }

  /** `normalize_ref_codes`: walk the selected records and save a fresh code
      on each. */
  method NormalizeRefCodes(table: AttendanceTable, order: seq<nat>)
    requires EnumeratesSelected(table.rows, order)
    modifies table
    ensures table.rows == NormalizeAll(old(table.rows), table.sessions, table.students, order)
  {
    var i := 0;
    while i < |order|
      invariant 0 <= i <= |order|
      invariant table.rows.Keys == old(table.rows).Keys
      invariant NormalizeAll(table.rows, table.sessions, table.students, order[i..]) ==
                NormalizeAll(old(table.rows), table.sessions, table.students, order)
    {
      var id := order[i];
      var code := MakeCandidate(table, id);
      table.rows := Assign(table.rows, id, code);
      assert order[i..][1..] == order[i + 1..];
      i := i + 1;
    }
  }

  /** A rewritten code never duplicates another record's code, so codes that
      were distinct stay distinct. */
  lemma {:induction false} NormalizeKeepsDistinct(rows: map<nat, AttendanceRow>, sessions: map<nat, SessionRow>, students: map<nat, StudentRow>, order: seq<nat>)
    requires forall i :: 0 <= i < |order| ==> order[i] in rows
    requires DistinctCodes(rows)
    ensures DistinctCodes(NormalizeAll(rows, sessions, students, order))
  {
    if order != [] {
      var id := order[0];
      var code := NormalizedCode(rows, sessions, students, id);
      AssignFreeKeepsDistinct(rows, id, code);
      NormalizeKeepsDistinct(Assign(rows, id, code), sessions, students, order[1..]);
    }
  }

  /** What the batch does to one record: its links are kept; a listed
      record ends with a letter-led code of at most 32 characters, any other
      record is left as it was. */
  ghost predicate NormalizedRow(before: AttendanceRow, after: AttendanceRow, listed: bool) {
    && after.sessionId == before.sessionId && after.studentId == before.studentId
    && (listed ==> after.refCode.Some? && 1 <= |after.refCode.value| <= MaxCodeLength && IsUpper(after.refCode.value[0]))
    && (!listed ==> after == before)
  }

  lemma {:induction false} NormalizeAllEffect(rows: map<nat, AttendanceRow>, sessions: map<nat, SessionRow>, students: map<nat, StudentRow>, order: seq<nat>)
    requires forall i :: 0 <= i < |order| ==> order[i] in rows
    requires Distinct(order)
    requires |rows| < Pow10(30)
    ensures var rows' := NormalizeAll(rows, sessions, students, order);
      forall id :: id in rows ==> NormalizedRow(rows[id], rows'[id], id in order)
  {
    if order != [] {
      var id, rest := order[0], order[1..];
      var next := Assign(rows, id, NormalizedCode(rows, sessions, students, id));
      NormalizeStep(rows, sessions, students, id);
      DistinctTail(order);
      TailInKeys(order, next);
      NormalizeAllEffect(next, sessions, students, rest);
      NormalizeAllFirst(rows, sessions, students, order);
      CombineEffects(rows, next, NormalizeAll(next, sessions, students, rest), order);
    }
  }

  lemma NormalizeAllFirst(rows: map<nat, AttendanceRow>, sessions: map<nat, SessionRow>, students: map<nat, StudentRow>, order: seq<nat>)
    requires order != [] && forall i :: 0 <= i < |order| ==> order[i] in rows
    ensures NormalizeAll(rows, sessions, students, order) ==
      NormalizeAll(Assign(rows, order[0], NormalizedCode(rows, sessions, students, order[0])), sessions, students, order[1..])
  {
  }

  /** The first record's rewrite followed by the rest of the batch. */
  lemma CombineEffects(rows: map<nat, AttendanceRow>, next: map<nat, AttendanceRow>, rows': map<nat, AttendanceRow>, order: seq<nat>)
    requires order != [] && order[0] !in order[1..]
    requires next.Keys == rows.Keys && rows'.Keys == rows.Keys
    requires forall k :: k in rows ==> NormalizedRow(rows[k], next[k], k == order[0])
    requires forall k :: k in next ==> NormalizedRow(next[k], rows'[k], k in order[1..])
    ensures forall k :: k in rows ==> NormalizedRow(rows[k], rows'[k], k in order)
  {
    forall k | k in rows ensures NormalizedRow(rows[k], rows'[k], k in order) {
      assert k in order <==> k == order[0] || k in order[1..] by { assert order == [order[0]] + order[1..]; }
      ComposeRows(rows[k], next[k], rows'[k], k == order[0], k in order[1..]);
    }
  }

  /** One record rewritten: it gets a letter-led code of at most 32
      characters and every other record stays as it was. */
  lemma NormalizeStep(rows: map<nat, AttendanceRow>, sessions: map<nat, SessionRow>, students: map<nat, StudentRow>, id: nat)
    requires id in rows && |rows| < Pow10(30)
    ensures var next := Assign(rows, id, NormalizedCode(rows, sessions, students, id));
      next.Keys == rows.Keys && |next| == |rows| &&
      forall k :: k in rows ==> NormalizedRow(rows[k], next[k], k == id)
  {
    NormalizedCodeShape(rows, sessions, students, id);
    AssignEffect(rows, id, NormalizedCode(rows, sessions, students, id));
  }

  lemma AssignEffect(rows: map<nat, AttendanceRow>, id: nat, code: string)
    requires id in rows && 1 <= |code| <= MaxCodeLength && IsUpper(code[0])
    ensures var next := Assign(rows, id, code);
      next.Keys == rows.Keys && |next| == |rows| &&
      forall k :: k in rows ==> NormalizedRow(rows[k], next[k], k == id)
  {
    var next := Assign(rows, id, code);
    assert next.Keys == rows.Keys;
  }

  /** Two rewrites in a row, touching a record at most once, have the effect
      of the one that touched it. */
  lemma ComposeRows(before: AttendanceRow, mid: AttendanceRow, after: AttendanceRow, first: bool, second: bool)
    requires NormalizedRow(before, mid, first) && NormalizedRow(mid, after, second)
    requires !(first && second)
    ensures NormalizedRow(before, after, first || second)
  {
  }

  /** After the migration no record matches its query any more, so running it
      a second time selects nothing and changes nothing. */
  lemma NormalizeIdempotent(rows: map<nat, AttendanceRow>, sessions: map<nat, SessionRow>, students: map<nat, StudentRow>, order: seq<nat>)
    requires EnumeratesSelected(rows, order) && |rows| < Pow10(30)
    ensures var rows' := NormalizeAll(rows, sessions, students, order);
      Selected(rows') == {} &&
      forall order2 :: EnumeratesSelected(rows', order2) ==> order2 == [] && NormalizeAll(rows', sessions, students, order2) == rows'
  {
    var rows' := NormalizeAll(rows, sessions, students, order);
    NormalizeAllEffect(rows, sessions, students, order);
    NothingLeftSelected(rows, rows', order);
    NothingSelectedIsFixpoint(rows', sessions, students);
  }

  lemma NothingLeftSelected(rows: map<nat, AttendanceRow>, rows': map<nat, AttendanceRow>, order: seq<nat>)
    requires rows'.Keys == rows.Keys
    requires forall id :: id in Selected(rows) ==> id in order
    requires forall id :: id in rows ==> NormalizedRow(rows[id], rows'[id], id in order)
    ensures Selected(rows') == {}
  {
    forall id | id in rows' ensures !NeedsNormalizing(rows'[id].refCode) {
      assert NormalizedRow(rows[id], rows'[id], id in order);
      if id !in order {
        assert id !in Selected(rows);
      }
    }
  }

  lemma NothingSelectedIsFixpoint(rows: map<nat, AttendanceRow>, sessions: map<nat, SessionRow>, students: map<nat, StudentRow>)
    requires Selected(rows) == {}
    ensures forall order :: EnumeratesSelected(rows, order) ==> order == [] && NormalizeAll(rows, sessions, students, order) == rows
  {
    forall order | EnumeratesSelected(rows, order)
      ensures order == [] && NormalizeAll(rows, sessions, students, order) == rows
    {
      assert forall x :: x in multiset(order) ==> x in Selected(rows);
      assert multiset(order) == multiset{};
    }
  }

  /** A record the batch does not list keeps its row. */
  lemma {:induction false} NormalizeAllFrame(rows: map<nat, AttendanceRow>, sessions: map<nat, SessionRow>, students: map<nat, StudentRow>, order: seq<nat>, id: nat)
    requires forall i :: 0 <= i < |order| ==> order[i] in rows
    requires id in rows && id !in order
    ensures NormalizeAll(rows, sessions, students, order)[id] == rows[id]
  {
    if order != [] {
      var next := Assign(rows, order[0], NormalizedCode(rows, sessions, students, order[0]));
      TailInKeys(order, next);
      NormalizeAllFrame(next, sessions, students, order[1..], id);
    }
  }

  /** The migration rewrites only records whose code is null, empty or not
      led by a letter: every other record comes out as it went in. */
  lemma UnselectedUntouched(rows: map<nat, AttendanceRow>, sessions: map<nat, SessionRow>, students: map<nat, StudentRow>, order: seq<nat>)
    requires EnumeratesSelected(rows, order)
    ensures forall id :: id in rows && id !in Selected(rows) ==> NormalizeAll(rows, sessions, students, order)[id] == rows[id]
  {
    forall id | id in rows && id !in Selected(rows)
      ensures NormalizeAll(rows, sessions, students, order)[id] == rows[id]
    {
      NormalizeAllFrame(rows, sessions, students, order, id);
    }
  }
}
