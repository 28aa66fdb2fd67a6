/** Migration 0004 of the attendance app (`generate_ref_code`): every record
    whose `ref_code` is null or empty gets the eight-digit code
      event id mod 100 (2 digits) + session id mod 100 (2 digits)
        + student id mod 10000 (4 digits)
    made unique against the codes of all other records by `-1`, `-2`, ... */
module BackfillRefCode {
  import opened Wrappers
  import opened Text
  import opened Collections
  import opened RefCode
  import NormalizeRefCode

  /** `''.join(parts).upper()` for the backfill. The roll part is always the
      four-digit student id, so the base is eight digits that read back as
      the linked ids. */
  function BackfillBase(row: AttendanceRow, sessions: map<nat, SessionRow>): (base: string)
    ensures |base| == 8 && AllDigits(base) && NoDash(base)
    ensures var ids := LinkedIdsOf(row.sessionId, sessions);
      && DigitsValue(base[..2]) == (if ids.eventId.Some? then ids.eventId.value % 100 else 0)
      && DigitsValue(base[2..4]) == (if ids.sessionId.Some? then ids.sessionId.value % 100 else 0)
      && DigitsValue(base[4..]) == row.studentId % 10000
  {
    var ids := LinkedIdsOf(row.sessionId, sessions);
    var e, s, r := TwoDigitPart(ids.eventId), TwoDigitPart(ids.sessionId), FourDigitPart(row.studentId);
    DigitPartsShape(e, s, r);
    Upper(e + s + r)
  }

  /** Upper-casing three runs of digits changes nothing. */
  lemma DigitPartsShape(e: string, s: string, r: string)
    requires |e| == 2 && |s| == 2 && |r| == 4 && AllDigits(e) && AllDigits(s) && AllDigits(r)
    ensures var base := Upper(e + s + r);
      && |base| == 8 && AllDigits(base) && NoDash(base)
      && base[..2] == e && base[2..4] == s && base[4..] == r
  {
    var base := e + s + r;
    forall i | 0 <= i < |base| ensures IsDigit(base[i]) {
      if i < 2 { assert base[i] == e[i]; }
      else if i < 4 { assert base[i] == s[i - 2]; }
      else { assert base[i] == r[i - 4]; }
    }
    UpperNoLower(base);
    assert NoDash(base) by {
      forall i | 0 <= i < |base| ensures base[i] != '-' {}
    }
    assert base[..2] == e && base[2..4] == s && base[4..] == r;
  }

  /** The code `generate_ref_code` saves on record `id`. */
  function BackfillCode(rows: map<nat, AttendanceRow>, sessions: map<nat, SessionRow>, id: nat): string
    requires id in rows
  {
    Resolve(BackfillBase(rows[id], sessions), OtherCodes(rows, id))
  }

  /** The body of the backfill loop for one record: build the base, then run
      the collision loop against the codes of all other records. */
  method GenerateCode(table: AttendanceTable, id: nat) returns (candidate: string)
    requires id in table.rows
    ensures candidate == BackfillCode(table.rows, table.sessions, id)
    ensures candidate !in OtherCodes(table.rows, id)
  {
    var base := BackfillBase(table.rows[id], table.sessions);
    var others := OtherCodes(table.rows, id);
    candidate := ResolveCollision(base, others);
  }

  /** A backfilled code is never empty and, as long as the suffix has at most
      30 digits, fits the column and starts with a digit, so the later
      normalisation (0006) picks it up again. */
  lemma BackfillCodeShape(rows: map<nat, AttendanceRow>, sessions: map<nat, SessionRow>, id: nat)
    requires id in rows
    ensures BackfillCode(rows, sessions, id) != []
    ensures |rows| < Pow10(30) ==>
      var code := BackfillCode(rows, sessions, id);
      |code| <= MaxCodeLength && IsDigit(code[0]) && NormalizeRefCode.NeedsNormalizing(Some(code))
  {
    var base := BackfillBase(rows[id], sessions);
    ResolvedCodeNonEmpty(base, OtherCodes(rows, id));
    if |rows| < Pow10(30) {
      OtherCodesBound(rows, id);
      ResolvedCodeFits(base, OtherCodes(rows, id));
    }
  }

  // ---------------------------------------------------------------------
  // The batch: `for att in qs: att.ref_code = ...; att.save()`
  // ---------------------------------------------------------------------

  /** The filter `ref_code IS NULL OR ref_code = ''`. */
  predicate NeedsBackfill(code: Option<string>) {
    code.None? || code.value == ""
  }

  function Blank(rows: map<nat, AttendanceRow>): set<nat> {
    set id | id in rows && NeedsBackfill(rows[id].refCode)
  }

  /** `order` lists the records the query selects, each once. */
  ghost predicate EnumeratesBlank(rows: map<nat, AttendanceRow>, order: seq<nat>) {
    && Distinct(order)
    && (forall i :: 0 <= i < |order| ==> order[i] in Blank(rows))
    && (forall id :: id in Blank(rows) ==> id in order)
  }

  /** The table after the records in `order` have been backfilled one at a
      time, each against the codes as they stand when its turn comes. */
  function BackfillAll(rows: map<nat, AttendanceRow>, sessions: map<nat, SessionRow>, order: seq<nat>): (rows': map<nat, AttendanceRow>)
    requires forall i :: 0 <= i < |order| ==> order[i] in rows
    ensures rows'.Keys == rows.Keys
  {
    if order == [] then rows
    else
      var id := order[0];
      BackfillAll(Assign(rows, id, BackfillCode(rows, sessions, id)), sessions, order[1..])
  }

  /** `generate_ref_code`: walk the blank records and save a code on each. */
  method GenerateRefCodes(table: AttendanceTable, order: seq<nat>)
    requires EnumeratesBlank(table.rows, order)
    modifies table
    ensures table.rows == BackfillAll(old(table.rows), table.sessions, order)
  {
    var i := 0;
    while i < |order|
      invariant 0 <= i <= |order|
      invariant table.rows.Keys == old(table.rows).Keys
      invariant BackfillAll(table.rows, table.sessions, order[i..]) == BackfillAll(old(table.rows), table.sessions, order)
    {
      var id := order[i];
      var code := GenerateCode(table, id);
      table.rows := Assign(table.rows, id, code);
      assert order[i..][1..] == order[i + 1..];
      i := i + 1;
    }
  }

  /** What the backfill does to one record: its links are kept; a listed
      record ends with a non-empty code which, while the table is `bounded`
      (fewer than 10^30 records), fits the column and starts with a digit;
      any other record is left as it was. */
  ghost predicate BackfilledRow(before: AttendanceRow, after: AttendanceRow, listed: bool, bounded: bool) {
    && after.sessionId == before.sessionId && after.studentId == before.studentId
    && (listed ==> HasCode(after))
    && (listed && bounded ==> |after.refCode.value| <= MaxCodeLength && IsDigit(after.refCode.value[0]))
    && (!listed ==> after == before)
  }

  /** One turn of the loop: only the record being saved changes, and it gets
      the shape of a backfilled code. */
  lemma BackfillStep(rows: map<nat, AttendanceRow>, sessions: map<nat, SessionRow>, id: nat)
    requires id in rows
    ensures var next := Assign(rows, id, BackfillCode(rows, sessions, id));
      next.Keys == rows.Keys && |next| == |rows| &&
      forall k :: k in rows ==> BackfilledRow(rows[k], next[k], k == id, |rows| < Pow10(30))
  {
    var next := Assign(rows, id, BackfillCode(rows, sessions, id));
    BackfillCodeShape(rows, sessions, id);
    assert next.Keys == rows.Keys;
  }

  /** A backfilled code never duplicates another record's code, so codes
      that were distinct stay distinct. */
  lemma {:induction false} BackfillKeepsDistinct(rows: map<nat, AttendanceRow>, sessions: map<nat, SessionRow>, order: seq<nat>)
    requires forall i :: 0 <= i < |order| ==> order[i] in rows
    requires DistinctCodes(rows)
    ensures DistinctCodes(BackfillAll(rows, sessions, order))
  {
    if order != [] {
      var id := order[0];
      var code := BackfillCode(rows, sessions, id);
      AssignFreeKeepsDistinct(rows, id, code);
      BackfillKeepsDistinct(Assign(rows, id, code), sessions, order[1..]);
    }
  }

  lemma {:induction false} BackfillAllEffect(rows: map<nat, AttendanceRow>, sessions: map<nat, SessionRow>, order: seq<nat>)
    requires forall i :: 0 <= i < |order| ==> order[i] in rows
    requires Distinct(order)
    ensures var rows' := BackfillAll(rows, sessions, order);
      forall id :: id in rows ==> BackfilledRow(rows[id], rows'[id], id in order, |rows| < Pow10(30))
  {
    if order != [] {
      var id, rest := order[0], order[1..];
      var next := Assign(rows, id, BackfillCode(rows, sessions, id));
      BackfillStep(rows, sessions, id);
      DistinctTail(order);
      TailInKeys(order, next);
      BackfillAllEffect(next, sessions, rest);
      BackfillAllFirst(rows, sessions, order);
      CombineBackfills(rows, next, BackfillAll(next, sessions, rest), order, |rows| < Pow10(30));
    }
  }

  lemma BackfillAllFirst(rows: map<nat, AttendanceRow>, sessions: map<nat, SessionRow>, order: seq<nat>)
    requires order != [] && forall i :: 0 <= i < |order| ==> order[i] in rows
    ensures BackfillAll(rows, sessions, order) ==
      BackfillAll(Assign(rows, order[0], BackfillCode(rows, sessions, order[0])), sessions, order[1..])
  {
  }

  /** The first record's backfill followed by the rest of the batch. */
  lemma CombineBackfills(rows: map<nat, AttendanceRow>, next: map<nat, AttendanceRow>, rows': map<nat, AttendanceRow>, order: seq<nat>, bounded: bool)
    requires order != [] && order[0] !in order[1..]
    requires next.Keys == rows.Keys && rows'.Keys == rows.Keys
    requires forall k :: k in rows ==> BackfilledRow(rows[k], next[k], k == order[0], bounded)
    requires forall k :: k in next ==> BackfilledRow(next[k], rows'[k], k in order[1..], bounded)
    ensures forall k :: k in rows ==> BackfilledRow(rows[k], rows'[k], k in order, bounded)
  {
    forall k | k in rows ensures BackfilledRow(rows[k], rows'[k], k in order, bounded) {
      assert k in order <==> k == order[0] || k in order[1..] by { assert order == [order[0]] + order[1..]; }
      assert BackfilledRow(rows[k], next[k], k == order[0], bounded);
      assert BackfilledRow(next[k], rows'[k], k in order[1..], bounded);
    }
  }

  /** After the backfill every record has a non-empty code, and codes that
      were distinct stay distinct: the column can then be made non-null and
      unique (migration 0005). */
  lemma BackfillReadyForUnique(rows: map<nat, AttendanceRow>, sessions: map<nat, SessionRow>, order: seq<nat>)
    requires EnumeratesBlank(rows, order) && DistinctCodes(rows)
    ensures var rows' := BackfillAll(rows, sessions, order);
      DistinctCodes(rows') && Blank(rows') == {} && forall id :: id in rows' ==> HasCode(rows'[id])
  {
    var rows' := BackfillAll(rows, sessions, order);
    BackfillKeepsDistinct(rows, sessions, order);
    BackfillAllEffect(rows, sessions, order);
    forall id | id in rows' ensures HasCode(rows'[id]) {
      assert BackfilledRow(rows[id], rows'[id], id in order, |rows| < Pow10(30));
      if id !in order {
        assert id !in Blank(rows);
      }
    }
  }
}
