/** What the two attendance data migrations share: the attendance table they
    walk (with the session and student tables they look records up in), the
    lookup of a record's session and event ids, and the loop that makes a code
    unique by trying `base`, then `base-1`, `base-2`, ... against the codes of
    every other record. The two migrations differ only in how they build
    `base` (modules BackfillRefCode and NormalizeRefCode). */
module RefCode {
  import opened Wrappers
  import opened Text
  import opened Collections

  /** Width of the `ref_code` column (`CharField(max_length=32, unique=True)`). */
  const MaxCodeLength: nat := 32

  /** A row of the session table, reduced to what the migrations read. */
  datatype SessionRow = SessionRow(eventId: Option<nat>)

  /** A row of the user table, reduced to what the migrations read. */
  datatype StudentRow = StudentRow(rollNo: Option<string>)

  /** A row of the attendance table as the migrations see it: its session
      (nullable), its student and its (nullable) reference code. */
  datatype AttendanceRow = AttendanceRow(sessionId: Option<nat>, studentId: nat, refCode: Option<string>)

  /** The event and session ids a record contributes to its code; None where
      Python leaves `event_id` / `session_id` at None. */
  datatype LinkedIds = LinkedIds(eventId: Option<nat>, sessionId: Option<nat>)

  /** Python truthiness of a nullable id: None and 0 are both false. */
  predicate Truthy(id: Option<nat>) { id.Some? && id.value != 0 }

  /** The lookup both migrations open with: a truthy `session_id` naming an
      existing session gives that session id, and the session's event id
      when that is truthy. */
  function LinkedIdsOf(sessionId: Option<nat>, sessions: map<nat, SessionRow>): LinkedIds {
    if Truthy(sessionId) && sessionId.value in sessions then
      var session := sessions[sessionId.value];
      LinkedIds(if Truthy(session.eventId) then session.eventId else None, sessionId)
    else LinkedIds(None, None)
  }

  /** `f"{(id % 100) if id is not None else 0:02d}"` */
  function TwoDigitPart(id: Option<nat>): (s: string)
    ensures |s| == 2 && AllDigits(s)
    ensures DigitsValue(s) == if id.Some? then id.value % 100 else 0
  {
    var v := if id.Some? then id.value % 100 else 0;
    assert Pow10(2) == 100;
    ZeroPadRoundTrip(v, 2);
    ZeroPad(v, 2)
  }

  /** `f"{student_id % 10000:04d}"` */
  function FourDigitPart(studentId: nat): (s: string)
    ensures |s| == 4 && AllDigits(s)
    ensures DigitsValue(s) == studentId % 10000
  {
    assert Pow10(4) == 10000;
    ZeroPadRoundTrip(studentId % 10000, 4);
    ZeroPad(studentId % 10000, 4)
  }

  // ---------------------------------------------------------------------
  // The collision loop
  // ---------------------------------------------------------------------

  /** `"-" + str(n)` */
  function Suffix(n: nat): string { "-" + NatToString(n) }

  /** The candidate the loop tries after `n` collisions: `base` itself, then
      `(base[:32 - len(suf)] + suf).upper()` with `suf = "-" + str(n)`. */
  function Candidate(base: string, n: nat): string {
    if n == 0 then base else Upper(PySliceTo(base, MaxCodeLength - |Suffix(n)|) + Suffix(n))
  }

  predicate NoDash(s: string) { '-' !in s }

  /** A candidate with a suffix is the upper-cased prefix of `base`, a dash and
      the suffix number. */
  lemma CandidateShape(base: string, n: nat)
    requires n >= 1
    ensures Candidate(base, n) == Upper(PySliceTo(base, MaxCodeLength - |Suffix(n)|)) + "-" + NatToString(n)
  {
    UpperSuffixed(PySliceTo(base, MaxCodeLength - |Suffix(n)|), n);
  }

  lemma UpperSuffixed(t: string, n: nat)
    ensures Upper(t + Suffix(n)) == Upper(t) + "-" + NatToString(n)
  {
    SuffixUpper(n);
    UpperConcat(t, Suffix(n));
    AppendAssoc(Upper(t), "-", NatToString(n));
  }

  lemma SuffixUpper(n: nat)
    ensures Upper(Suffix(n)) == Suffix(n)
  {
    var suf := Suffix(n);
    forall i | 0 <= i < |suf| ensures !IsLower(suf[i]) {
      if i > 0 {
        assert suf[i] == NatToString(n)[i - 1];
      }
    }
    UpperNoLower(suf);
  }

  lemma UpperKeepsNoDash(s: string)
    requires NoDash(s)
    ensures NoDash(Upper(s))
  {
    assert forall i :: 0 <= i < |s| ==> Upper(s)[i] == UpperChar(s[i]) && s[i] != '-';
  }

  /** The position of the last dash in `s`, or -1. */
  function LastDash(s: string): (i: int)
    ensures -1 <= i < |s|
  {
    if s == [] then -1 else if s[|s| - 1] == '-' then |s| - 1 else LastDash(s[..|s| - 1])
  }

  lemma {:induction false} LastDashOfJoin(a: string, x: string)
    requires NoDash(x)
    ensures LastDash(a + "-" + x) == |a|
    decreases |x|
  {
    var s := a + "-" + x;
    if x == [] {
      assert s[|s| - 1] == '-';
    } else {
      assert s[|s| - 1] == x[|x| - 1];
      assert s[..|s| - 1] == a + "-" + x[..|x| - 1];
      LastDashOfJoin(a, x[..|x| - 1]);
    }
  }

  lemma {:induction false} LastDashAbsent(s: string)
    requires NoDash(s)
    ensures LastDash(s) == -1
    decreases |s|
  {
    if s != [] {
      assert s[..|s| - 1] + [s[|s| - 1]] == s;
      LastDashAbsent(s[..|s| - 1]);
    }
  }

  /** A string made of a head, a dash and a dash-free tail gives back its
      tail as everything after its last dash. */
  lemma DashSplit(a: string, x: string)
    requires NoDash(x)
    ensures LastDash(a + "-" + x) == |a|
    ensures (a + "-" + x)[LastDash(a + "-" + x) + 1..] == x
  {
    LastDashOfJoin(a, x);
  }

  /** Where a candidate's last dash is: nowhere in `base`, before the suffix
      number in every later candidate. */
  lemma CandidateLastDash(base: string, n: nat)
    requires NoDash(base)
    ensures n == 0 ==> LastDash(Candidate(base, n)) == -1
    ensures n >= 1 ==> LastDash(Candidate(base, n)) >= 0
    ensures n >= 1 ==> Candidate(base, n)[LastDash(Candidate(base, n)) + 1..] == NatToString(n)
  {
    if n == 0 {
      LastDashAbsent(base);
    } else {
      CandidateShape(base, n);
      DashSplit(Upper(PySliceTo(base, MaxCodeLength - |Suffix(n)|)), NatToString(n));
    }
  }

  /** The loop never tries the same candidate twice. */
  lemma CandidateInjective(base: string, m: nat, n: nat)
    requires NoDash(base) && m != n
    ensures Candidate(base, m) != Candidate(base, n)
  {
    CandidateLastDash(base, m);
    CandidateLastDash(base, n);
    if m >= 1 && n >= 1 {
      var cm, cn := Candidate(base, m), Candidate(base, n);
      if cm == cn {
        NatToStringInjective(m, n);
      }
    }
  }

  /** The first k candidates. */
  function CandidateSet(base: string, k: nat): set<string> {
    if k == 0 then {} else CandidateSet(base, k - 1) + {Candidate(base, k - 1)}
  }

  lemma {:induction false} CandidateSetMembers(base: string, k: nat, c: string)
    requires c in CandidateSet(base, k)
    ensures exists m :: 0 <= m < k && Candidate(base, m) == c
  {
    if c != Candidate(base, k - 1) {
      CandidateSetMembers(base, k - 1, c);
    }
  }

  lemma {:induction false} CandidateSetSize(base: string, k: nat)
    requires NoDash(base)
    ensures |CandidateSet(base, k)| == k
  {
    if k > 0 {
      CandidateSetSize(base, k - 1);
      LaterCandidatesFresh(base, k - 1, k - 1);
    }
  }

  lemma {:induction false} LaterCandidatesFresh(base: string, k: nat, j: nat)
    requires NoDash(base) && k <= j
    ensures Candidate(base, j) !in CandidateSet(base, k)
  {
    if k > 0 {
      CandidateInjective(base, k - 1, j);
      LaterCandidatesFresh(base, k - 1, j);
    }
  }

  lemma SubsetSize<T>(a: set<T>, b: set<T>)
    requires a <= b
    ensures |a| <= |b|
  {
    assert b == a + (b - a);
    assert a * (b - a) == {};
  }

  /** Every collision consumes a distinct code of another record, so there
      cannot be more collisions than other codes. */
  lemma CollisionsBounded(base: string, others: set<string>, k: nat)
    requires NoDash(base)
    requires forall m :: 0 <= m < k ==> Candidate(base, m) in others
    ensures k <= |others|
  {
    CandidateSetSize(base, k);
    forall c | c in CandidateSet(base, k) ensures c in others {
      CandidateSetMembers(base, k, c);
    }
    SubsetSize(CandidateSet(base, k), others);
  }

  /** The number of collisions the loop meets when it has already met k:
      the least n >= k whose candidate no other record uses. */
  function FirstFree(base: string, others: set<string>, k: nat): (n: nat)
    requires NoDash(base)
    requires forall m :: 0 <= m < k ==> Candidate(base, m) in others
    ensures k <= n <= |others|
    ensures Candidate(base, n) !in others
    ensures forall m :: 0 <= m < n ==> Candidate(base, m) in others
    decreases |others| - k
  {
    CollisionsBounded(base, others, k);
    if Candidate(base, k) !in others then k
    else
      CollisionsBounded(base, others, k + 1);
      FirstFree(base, others, k + 1)
  }

  /** The code the loop settles on. */
  function Resolve(base: string, others: set<string>): string
    requires NoDash(base)
  {
    Candidate(base, FirstFree(base, others, 0))
  }

  /** The `while ... exists(): suffix += 1` loop of both migrations. */
  method ResolveCollision(base: string, others: set<string>) returns (candidate: string)
    requires NoDash(base)
    ensures candidate == Resolve(base, others)
    ensures candidate !in others
  {
    candidate := base;
    var suffix: nat := 0;
    while candidate in others
      invariant candidate == Candidate(base, suffix)
      invariant forall m :: 0 <= m < suffix ==> Candidate(base, m) in others
      decreases |others| - suffix
    {
      CollisionsBounded(base, others, suffix + 1);
      suffix := suffix + 1;
      var suf := "-" + NatToString(suffix);
      var truncateLen := MaxCodeLength - |suf|;
      candidate := Upper(PySliceTo(base, truncateLen) + suf);
    }
    assert FirstFree(base, others, 0) == suffix;
  }

  /** While the suffix has at most 30 digits the resolved code fits the
      32-character column and keeps the first character of `base`. (From
      10^30 collisions on, Python's `base[:32 - len(suf)]` is empty or counts
      from the end, and neither holds.) */
  lemma ResolvedCodeFits(base: string, others: set<string>)
    requires NoDash(base) && 1 <= |base| <= MaxCodeLength && !IsLower(base[0])
    requires |others| < Pow10(30)
    ensures |Resolve(base, others)| <= MaxCodeLength
    ensures Resolve(base, others)[0] == base[0]
  {
    var n := FirstFree(base, others, 0);
    if n >= 1 {
      NatToStringFits(n, 30);
      CandidateShape(base, n);
      var t := PySliceTo(base, MaxCodeLength - |Suffix(n)|);
      assert 1 <= |t| <= MaxCodeLength - |Suffix(n)|;
      assert Upper(t)[0] == base[0];
    }
  }

  /** However many collisions there are, the resolved code of a non-empty
      base is never empty. */
  lemma ResolvedCodeNonEmpty(base: string, others: set<string>)
    requires NoDash(base) && base != []
    ensures Resolve(base, others) != []
  {
    var n := FirstFree(base, others, 0);
    if n >= 1 {
      CandidateShape(base, n);
    }
  }

  // ---------------------------------------------------------------------
  // The attendance table
  // ---------------------------------------------------------------------

  /** A record has a usable code: not null and not empty. */
  predicate HasCode(row: AttendanceRow) { row.refCode.Some? && row.refCode.value != "" }

  /** The non-null codes of the records with ids in `ks`. */
  function CodesOf(rows: map<nat, AttendanceRow>, ks: set<nat>): set<string> {
    set j | j in ks && j in rows && rows[j].refCode.Some? :: rows[j].refCode.value
  }

  /** What `filter(ref_code=candidate).exclude(pk=att.pk).exists()` tests
      against: the non-null codes of every other record. */
  function OtherCodes(rows: map<nat, AttendanceRow>, id: nat): set<string> {
    CodesOf(rows, rows.Keys - {id})
  }

  lemma {:induction false} CodesOfBound(rows: map<nat, AttendanceRow>, ks: set<nat>)
    ensures |CodesOf(rows, ks)| <= |ks|
    decreases ks
  {
    if ks != {} {
      var k :| k in ks;
      CodesOfBound(rows, ks - {k});
      var rest := CodesOf(rows, ks - {k});
      if k in rows && rows[k].refCode.Some? {
        SubsetSize(CodesOf(rows, ks), rest + {rows[k].refCode.value});
      } else {
        SubsetSize(CodesOf(rows, ks), rest);
      }
    }
  }

  /** There are never more other codes than records. */
  lemma OtherCodesBound(rows: map<nat, AttendanceRow>, id: nat)
    ensures |OtherCodes(rows, id)| <= |rows|
  {
    CodesOfBound(rows, rows.Keys - {id});
    SubsetSize(rows.Keys - {id}, rows.Keys);
  }

  /** The uniqueness of `ref_code` among records that have one. */
  ghost predicate DistinctCodes(rows: map<nat, AttendanceRow>) {
    forall i, j :: i in rows && j in rows && i != j && HasCode(rows[i]) && HasCode(rows[j]) ==>
      rows[i].refCode.value != rows[j].refCode.value
  }

  /** `att.ref_code = code; att.save()` */
  function Assign(rows: map<nat, AttendanceRow>, id: nat, code: string): map<nat, AttendanceRow>
    requires id in rows
  {
    rows[id := rows[id].(refCode := Some(code))]
  }

  /** Saving a code no other record holds keeps the codes distinct. */
  lemma AssignFreeKeepsDistinct(rows: map<nat, AttendanceRow>, id: nat, code: string)
    requires id in rows && DistinctCodes(rows)
    requires code !in OtherCodes(rows, id)
    ensures DistinctCodes(Assign(rows, id, code))
  {
    var rows' := Assign(rows, id, code);
    forall i, j | i in rows' && j in rows' && i != j && HasCode(rows'[i]) && HasCode(rows'[j])
      ensures rows'[i].refCode.value != rows'[j].refCode.value
    {
      if i == id {
        assert rows[j].refCode.value in OtherCodes(rows, id);
      } else if j == id {
        assert rows[i].refCode.value in OtherCodes(rows, id);
      }
    }
  }

  /** The attendance table together with the session and user tables the
      migrations read. Only `rows` is written. */
  class AttendanceTable {
    var rows: map<nat, AttendanceRow>
    const sessions: map<nat, SessionRow>
    const students: map<nat, StudentRow>

    constructor (rows: map<nat, AttendanceRow>, sessions: map<nat, SessionRow>, students: map<nat, StudentRow>)
      ensures this.rows == rows && this.sessions == sessions && this.students == students
    {
      this.rows := rows;
      this.sessions := sessions;
      this.students := students;
    }
  }
}
