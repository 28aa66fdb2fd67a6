/** The site-wide frontend views (sac_project/frontend_views.py): the month
    calendar, attendance management with its JSON upsert, the notification
    list and the recent activities on the profile page. */
module FrontendViews {
  import opened Wrappers
  import opened Text
  import opened Collections
  import opened Sorting
  import opened UserModels
  import opened AttendanceModels

  // ---------------------------------------------------------------------
  // calendar_view: the month header
  // ---------------------------------------------------------------------

  /** `datetime.MINYEAR` and `datetime.MAXYEAR` */
  const MinYear: int := 1
  const MaxYear: int := 9999

  datatype YearMonth = YearMonth(year: int, month: int)

  /** `datetime(year, month, 1)` does not raise. */
  predicate ValidMonth(ym: YearMonth) {
    MinYear <= ym.year <= MaxYear && 1 <= ym.month <= 12
  }

  /** Months counted from January of year 0. */
  function MonthIndex(ym: YearMonth): int {
    ym.year * 12 + ym.month - 1
  }

  /** The month before: January steps back to December of the previous year. */
  function PrevMonth(ym: YearMonth): (p: YearMonth)
    ensures 1 <= ym.month <= 12 ==> 1 <= p.month <= 12 && MonthIndex(p) == MonthIndex(ym) - 1
  {
    if ym.month == 1 then YearMonth(ym.year - 1, 12) else YearMonth(ym.year, ym.month - 1)
  }

  /** The month after: December steps on to January of the next year. */
  function NextMonth(ym: YearMonth): (n: YearMonth)
    ensures 1 <= ym.month <= 12 ==> 1 <= n.month <= 12 && MonthIndex(n) == MonthIndex(ym) + 1
  {
    if ym.month == 12 then YearMonth(ym.year + 1, 1) else YearMonth(ym.year, ym.month + 1)
  }

  /** A month with a month number in 1..12 is fixed by its index. */
  lemma MonthIndexInjective(a: YearMonth, b: YearMonth)
    requires 1 <= a.month <= 12 && 1 <= b.month <= 12
    requires MonthIndex(a) == MonthIndex(b)
    ensures a == b
  {
    MonthIndexDivMod(a);
    MonthIndexDivMod(b);
  }

  /** The year and month are the quotient and remainder of the index by 12. */
  lemma MonthIndexDivMod(a: YearMonth)
    requires 1 <= a.month <= 12
    ensures MonthIndex(a) / 12 == a.year && MonthIndex(a) % 12 == a.month - 1
  {
    var m := a.month - 1;
    assert MonthIndex(a) == a.year * 12 + m && 0 <= m < 12;
  }

  /** Stepping back then forward, or forward then back, returns to the month. */
  lemma PrevNextInverse(ym: YearMonth)
    requires 1 <= ym.month <= 12
    ensures NextMonth(PrevMonth(ym)) == ym && PrevMonth(NextMonth(ym)) == ym
  {
    MonthIndexInjective(NextMonth(PrevMonth(ym)), ym);
    MonthIndexInjective(PrevMonth(NextMonth(ym)), ym);
  }

  /** `int(request.GET.get(key, default))`: the default when the parameter is
      absent, else the parameter parsed (None for the ValueError). */
  function QueryInt(param: Option<string>, default: int): (r: Option<int>)
    ensures param.None? ==> r == Some(default)
  {
    match param
    case None => Some(default)
    case Some(s) => ParseInt(s)
  }

  /** The shown month and its two neighbours. */
  datatype MonthHeader = MonthHeader(current: YearMonth, prev: YearMonth, next: YearMonth)

  /** The header of `calendar_view`; None stands for the ValueError raised by
      a malformed parameter or by a `datetime` outside the supported range. */
  function CalendarHeader(monthParam: Option<string>, yearParam: Option<string>, now: YearMonth): (r: Option<MonthHeader>)
    ensures r.Some? <==>
      && QueryInt(monthParam, now.month).Some? && QueryInt(yearParam, now.year).Some?
      && ValidMonth(YearMonth(QueryInt(yearParam, now.year).value, QueryInt(monthParam, now.month).value))
      && !(QueryInt(monthParam, now.month).value == 1 && QueryInt(yearParam, now.year).value == MinYear)
      && !(QueryInt(monthParam, now.month).value == 12 && QueryInt(yearParam, now.year).value == MaxYear)
    ensures r.Some? ==>
      && r.value.current == YearMonth(QueryInt(yearParam, now.year).value, QueryInt(monthParam, now.month).value)
      && ValidMonth(r.value.prev) && ValidMonth(r.value.next)
      && MonthIndex(r.value.prev) + 1 == MonthIndex(r.value.current) == MonthIndex(r.value.next) - 1
  {
    match (QueryInt(monthParam, now.month), QueryInt(yearParam, now.year))
    case (Some(month), Some(year)) =>
      var current := YearMonth(year, month);
      if !ValidMonth(current) then None
      else
        var prev := PrevMonth(current);
        var next := NextMonth(current);
        if !ValidMonth(prev) || !ValidMonth(next) then None
        else Some(MonthHeader(current, prev, next))
    case _ => None
  }

  /** Without parameters the calendar shows the current month. */
  lemma CalendarDefaultsToNow(now: YearMonth)
    requires ValidMonth(now) && MonthIndex(now) > MonthIndex(YearMonth(MinYear, 1))
    requires MonthIndex(now) < MonthIndex(YearMonth(MaxYear, 12))
    ensures CalendarHeader(None, None, now).Some?
    ensures CalendarHeader(None, None, now).value.current == now
  {
  }

  /** A month number outside 1..12 and a non-numeric parameter both raise. */
  lemma CalendarRejectsBadMonth(now: YearMonth)
    ensures CalendarHeader(Some("13"), None, now).None?
    ensures CalendarHeader(Some("x"), None, now).None?
  {
    assert Strip("13") == "13" by {
      assert TrimStart("13") == "13";
      assert TrimEnd("13") == "13";
    }
    ParseIntRoundTrip(13);
    assert IntToString(13) == "13";
    assert Strip("x") == "x" by {
      assert TrimStart("x") == "x";
      assert TrimEnd("x") == "x";
    }
    assert !IsDigit("x"[0]);
  }

  // ---------------------------------------------------------------------
  // calendar_view: the week grid
  // ---------------------------------------------------------------------

  /** An approved event of the shown month, with the day of the month of its
      `date_time`. */
  datatype CalendarEvent = CalendarEvent(id: nat, day: nat)

  datatype Date = Date(year: int, month: int, day: int)

  /** A grid cell: a placeholder for a day of a neighbouring month, or a day
      of the shown month with its events. */
  datatype Cell = OtherMonth | DayCell(day: nat, isToday: bool, events: seq<CalendarEvent>)

  /** The cell for entry `day` of `calendar.monthcalendar` (0 for a day
      outside the month). */
  function CellFor(ym: YearMonth, day: nat, events: seq<CalendarEvent>, today: Date): (c: Cell)
    ensures day == 0 <==> c.OtherMonth?
    ensures c.DayCell? ==>
      && c.day == day
      && (c.isToday <==> today == Date(ym.year, ym.month, day))
      && (forall e :: e in c.events <==> e in events && e.day == day)
      && |c.events| <= |events|
  {
    if day == 0 then OtherMonth
    else DayCell(day, Date(ym.year, ym.month, day) == today, Filter(events, (e: CalendarEvent) => e.day == day))
  }

  /** One row of the grid. */
  method BuildWeek(ym: YearMonth, week: seq<nat>, events: seq<CalendarEvent>, today: Date) returns (row: seq<Cell>)
    ensures |row| == |week|
    ensures forall j :: 0 <= j < |week| ==> row[j] == CellFor(ym, week[j], events, today)
  {
    row := [];
    var j := 0;
    while j < |week|
      invariant 0 <= j <= |week| && |row| == j
      invariant forall k :: 0 <= k < j ==> row[k] == CellFor(ym, week[k], events, today)
    {
      var day := week[j];
      if day == 0 {
        row := row + [OtherMonth];
      } else {
        var isToday := Date(ym.year, ym.month, day) == today;
        var dayEvents := Filter(events, (e: CalendarEvent) => e.day == day);
        row := row + [DayCell(day, isToday, dayEvents)];
      }
      j := j + 1;
    }
  }

  /** `calendar_weeks`, built week by week from the `monthcalendar` grid. */
  method BuildGrid(ym: YearMonth, weeks: seq<seq<nat>>, events: seq<CalendarEvent>, today: Date) returns (grid: seq<seq<Cell>>)
    ensures |grid| == |weeks|
    ensures forall i :: 0 <= i < |weeks| ==> |grid[i]| == |weeks[i]|
    ensures forall i, j :: 0 <= i < |weeks| && 0 <= j < |weeks[i]| ==> grid[i][j] == CellFor(ym, weeks[i][j], events, today)
  {
    grid := [];
    var i := 0;
    while i < |weeks|
      invariant 0 <= i <= |weeks| && |grid| == i
      invariant forall k :: 0 <= k < i ==> |grid[k]| == |weeks[k]|
      invariant forall k, j :: 0 <= k < i && 0 <= j < |weeks[k]| ==> grid[k][j] == CellFor(ym, weeks[k][j], events, today)
    {
      var row := BuildWeek(ym, weeks[i], events, today);
      grid := grid + [row];
      i := i + 1;
    }
  }

  /** Every event is listed in exactly the cells of its own day, and nowhere
      else; only the day matching today is marked. */
  lemma GridBuckets(ym: YearMonth, weeks: seq<seq<nat>>, events: seq<CalendarEvent>, today: Date, i: nat, j: nat, e: CalendarEvent)
    requires i < |weeks| && j < |weeks[i]|
    ensures var c := CellFor(ym, weeks[i][j], events, today);
      && (c.DayCell? ==> (e in c.events <==> e in events && e.day == weeks[i][j]))
      && (c.OtherMonth? ==> weeks[i][j] == 0)
      && (c.DayCell? && c.isToday ==> today.day == weeks[i][j])
  {
  }

  // ---------------------------------------------------------------------
  // attendance_manage
  // ---------------------------------------------------------------------

  /** What the view reads of an event: its organizers and its club's
      coordinators and members (the club is a required field). */
  datatype ManagedEvent = ManagedEvent(id: nat, organizers: set<nat>, coordinators: set<nat>, members: set<nat>)

  /** Lines 115-119: organizers, coordinators of the event's club and users
      with the `ADMIN` role may manage attendance. */
  predicate MayManage(userId: nat, roles: seq<string>, event: ManagedEvent) {
    userId in event.organizers || userId in event.coordinators || Admin.Value() in roles
  }

  /** The record table of `Attendance`, as a value. */
  datatype StoreState = StoreState(records: map<nat, Attendance>, nextId: nat)

  /** Keys stay below the next id, and each (event, student) pair has at most
      one record. */
  ghost predicate StoreValid(st: StoreState) {
    && OnePerEventStudent(st.records)
    && forall id :: id in st.records ==> id < st.nextId
  }

  /** `User.objects.get(id=key)`: the key is converted as `int()` would and
      must name a user; None stands for the ValueError or DoesNotExist. */
  function StudentOf(key: string, users: set<nat>): (r: Option<nat>)
    ensures r.Some? ==> r.value in users && ParseInt(key) == Some(r.value as int)
    ensures r.None? ==> ParseInt(key).None? || ParseInt(key).value < 0 || ParseInt(key).value as nat !in users
  {
    match ParseInt(key)
    case Some(i) => if i >= 0 && i as nat in users then Some(i as nat) else None
    case None => None
  }

  /** One submitted `(student_id, status)` entry of the JSON object. The
      status is None for a JSON `null`. */
  type Entry = (string, Option<string>)

  /** The (student, status) pair an entry writes. None when the key names
      no user, or when the status is null: the status column is NOT NULL, so
      both the create and the update raise before anything is written. */
  function PairOf(entry: Entry, users: set<nat>): Option<(nat, string)> {
    match StudentOf(entry.0, users)
    case None => None
    case Some(s) => if entry.1.Some? then Some((s, entry.1.value)) else None
  }

  /** `get_or_create(event, student, defaults={'status': status})` followed,
      for an existing record, by setting its status and saving. A new record
      gets the creation time `now`. */
  ghost function MarkOne(st: StoreState, eventId: nat, studentId: nat, status: string, now: int): StoreState {
    match RecordFor(st.records, eventId, studentId)
    case Some(id) => st.(records := st.records[id := st.records[id].(status := status)])
    case None => StoreState(st.records[st.nextId := Attendance(eventId, studentId, status, now)], st.nextId + 1)
  }

  /** The loop over the submitted `(student_id, status)` pairs: it stops with
      `success: False` at the first entry whose key names no user or whose
      status is null, keeping what it wrote before. */
  ghost function UpsertAll(st: StoreState, eventId: nat, data: seq<Entry>, users: set<nat>, now: int): (StoreState, bool)
    decreases |data|
  {
    if data == [] then (st, true)
    else
      match PairOf(data[0], users)
      case None => (st, false)
      case Some(p) => UpsertAll(MarkOne(st, eventId, p.0, p.1, now), eventId, data[1..], users, now)
  }

  /** The resolved pairs the loop applies: those before the first failure. */
  function Applied(data: seq<Entry>, users: set<nat>): (pairs: seq<(nat, string)>)
    ensures |pairs| <= |data|
    ensures forall p :: p in pairs ==> p.0 in users
    decreases |data|
  {
    if data == [] then []
    else
      match PairOf(data[0], users)
      case None => []
      case Some(p) => [p] + Applied(data[1..], users)
  }

  /** Every key names a user and every status is non-null. */
  predicate AllResolve(data: seq<Entry>, users: set<nat>) {
    forall i :: 0 <= i < |data| ==> PairOf(data[i], users).Some?
  }

  /** The status the table ends with for `s`: the last applied pair for it. */
  function LastStatus(pairs: seq<(nat, string)>, s: nat): (r: Option<string>)
    ensures r.Some? <==> exists i :: 0 <= i < |pairs| && pairs[i].0 == s
    decreases |pairs|
  {
    if pairs == [] then None
    else
      match LastStatus(pairs[1..], s)
      case Some(st) => Some(st)
      case None =>
        assert forall i :: 1 <= i < |pairs| ==> pairs[i] == pairs[1..][i - 1];
        if pairs[0].0 == s then Some(pairs[0].1) else None
  }

  /** One `get_or_create` keeps the table valid. */
  lemma MarkOneValid(st: StoreState, eventId: nat, studentId: nat, status: string, now: int)
    requires StoreValid(st)
    ensures StoreValid(MarkOne(st, eventId, studentId, status, now))
  {
  }

  /** The pair's record holds the status, other records are untouched, and a
      created record carries the time `now`. */
  lemma MarkOneEffect(st: StoreState, eventId: nat, studentId: nat, status: string, now: int)
    requires StoreValid(st)
    ensures var st' := MarkOne(st, eventId, studentId, status, now);
      && st.records.Keys <= st'.records.Keys
      && RecordFor(st'.records, eventId, studentId).Some?
      && st'.records[RecordFor(st'.records, eventId, studentId).value].status == status
      && (forall id :: id in st.records && !IsFor(st.records[id], eventId, studentId) ==> st'.records[id] == st.records[id])
      && (forall id :: id in st.records ==> st'.records[id].timestamp == st.records[id].timestamp)
      && (forall id :: id in st'.records && id !in st.records ==> st'.records[id] == Attendance(eventId, studentId, status, now))
  {
    var st' := MarkOne(st, eventId, studentId, status, now);
    MarkOneValid(st, eventId, studentId, status, now);
    match RecordFor(st.records, eventId, studentId)
    case Some(id) =>
      RecordForUnique(st'.records, eventId, studentId, id);
    case None =>
      RecordForUnique(st'.records, eventId, studentId, st.nextId);
  }

  /** The loop is the application of the resolved pairs before the first
      failure; it reports success exactly when every key names a user. */
  lemma {:induction false} UpsertIsApplied(st: StoreState, eventId: nat, data: seq<Entry>, users: set<nat>, now: int)
    ensures UpsertAll(st, eventId, data, users, now) == (ApplyAll(st, eventId, Applied(data, users), now), AllResolve(data, users))
    decreases |data|
  {
    if data != [] {
      match PairOf(data[0], users)
      case None =>
      case Some(p) =>
        UpsertIsApplied(MarkOne(st, eventId, p.0, p.1, now), eventId, data[1..], users, now);
        assert AllResolve(data, users) <==> AllResolve(data[1..], users) by {
          if AllResolve(data[1..], users) {
            forall i | 0 <= i < |data| ensures PairOf(data[i], users).Some? {
              if i > 0 {
                assert data[i] == data[1..][i - 1];
              }
            }
          }
        }
    }
  }

  /** Applying resolved pairs one `get_or_create` at a time. */
  ghost function ApplyAll(st: StoreState, eventId: nat, pairs: seq<(nat, string)>, now: int): StoreState
    decreases |pairs|
  {
    if pairs == [] then st
    else ApplyAll(MarkOne(st, eventId, pairs[0].0, pairs[0].1, now), eventId, pairs[1..], now)
  }

  /** Applying the pairs keeps the table valid and deletes nothing; an
      existing record changes at most in its status. */
  lemma {:induction false} ApplyAllFrame(st: StoreState, eventId: nat, pairs: seq<(nat, string)>, now: int)
    requires StoreValid(st)
    ensures var st' := ApplyAll(st, eventId, pairs, now);
      && StoreValid(st')
      && st.records.Keys <= st'.records.Keys
      && (forall id :: id in st.records ==> st'.records[id] == st.records[id].(status := st'.records[id].status))
    decreases |pairs|
  {
    if pairs != [] {
      var st1 := MarkOne(st, eventId, pairs[0].0, pairs[0].1, now);
      MarkOneValid(st, eventId, pairs[0].0, pairs[0].1, now);
      MarkOneEffect(st, eventId, pairs[0].0, pairs[0].1, now);
      ApplyAllFrame(st1, eventId, pairs[1..], now);
    }
  }

  /** A record whose student has no applied pair, or which belongs to another
      event, is left as it was. */
  lemma {:induction false} ApplyAllUnlisted(st: StoreState, eventId: nat, pairs: seq<(nat, string)>, now: int)
    requires StoreValid(st)
    ensures var st' := ApplyAll(st, eventId, pairs, now);
      forall id :: id in st.records && !(st.records[id].eventId == eventId && LastStatus(pairs, st.records[id].studentId).Some?) ==>
        id in st'.records && st'.records[id] == st.records[id]
    decreases |pairs|
  {
    ApplyAllFrame(st, eventId, pairs, now);
    if pairs != [] {
      var s0 := pairs[0].0;
      var st1 := MarkOne(st, eventId, s0, pairs[0].1, now);
      MarkOneValid(st, eventId, s0, pairs[0].1, now);
      MarkOneEffect(st, eventId, s0, pairs[0].1, now);
      ApplyAllUnlisted(st1, eventId, pairs[1..], now);
      var st' := ApplyAll(st, eventId, pairs, now);
      forall id | id in st.records && !(st.records[id].eventId == eventId && LastStatus(pairs, st.records[id].studentId).Some?)
        ensures id in st'.records && st'.records[id] == st.records[id]
      {
        var s := st.records[id].studentId;
        if st.records[id].eventId == eventId {
          assert pairs[0].0 != s;
          assert LastStatus(pairs[1..], s).None?;
        }
      }
    }
  }

  /** Each listed student has exactly one record for the event, holding the
      last status submitted for them. */
  lemma {:induction false} ApplyAllStatus(st: StoreState, eventId: nat, pairs: seq<(nat, string)>, now: int, s: nat)
    requires StoreValid(st)
    requires LastStatus(pairs, s).Some?
    ensures var st' := ApplyAll(st, eventId, pairs, now);
      && RecordFor(st'.records, eventId, s).Some?
      && st'.records[RecordFor(st'.records, eventId, s).value].status == LastStatus(pairs, s).value
    decreases |pairs|
  {
    var s0 := pairs[0].0;
    var st1 := MarkOne(st, eventId, s0, pairs[0].1, now);
    MarkOneValid(st, eventId, s0, pairs[0].1, now);
    if LastStatus(pairs[1..], s).Some? {
      ApplyAllStatus(st1, eventId, pairs[1..], now, s);
    } else {
      MarkOneEffect(st, eventId, s0, pairs[0].1, now);
      var id := RecordFor(st1.records, eventId, s0).value;
      ApplyAllUnlisted(st1, eventId, pairs[1..], now);
      ApplyAllFrame(st1, eventId, pairs[1..], now);
      var st' := ApplyAll(st1, eventId, pairs[1..], now);
      assert st'.records[id] == st1.records[id];
      RecordForUnique(st'.records, eventId, s0, id);
    }
  }

  /** Records the pairs create belong to the event, to a listed student, and
      carry the time `now`. */
  lemma {:induction false} ApplyAllCreated(st: StoreState, eventId: nat, pairs: seq<(nat, string)>, now: int)
    requires StoreValid(st)
    ensures var st' := ApplyAll(st, eventId, pairs, now);
      forall id :: id in st'.records && id !in st.records ==>
        st'.records[id].eventId == eventId && st'.records[id].timestamp == now
        && LastStatus(pairs, st'.records[id].studentId).Some?
    decreases |pairs|
  {
    if pairs != [] {
      var s0 := pairs[0].0;
      var st1 := MarkOne(st, eventId, s0, pairs[0].1, now);
      MarkOneValid(st, eventId, s0, pairs[0].1, now);
      MarkOneEffect(st, eventId, s0, pairs[0].1, now);
      ApplyAllCreated(st1, eventId, pairs[1..], now);
      ApplyAllFrame(st1, eventId, pairs[1..], now);
      var st' := ApplyAll(st, eventId, pairs, now);
      forall id | id in st'.records && id !in st.records
        ensures st'.records[id].eventId == eventId && st'.records[id].timestamp == now
        ensures LastStatus(pairs, st'.records[id].studentId).Some?
      {
        var s := st'.records[id].studentId;
        if id in st1.records {
          assert st'.records[id] == st1.records[id].(status := st'.records[id].status);
          assert st1.records[id].studentId == s0 == pairs[0].0;
          assert LastStatus(pairs, s).Some?;
        } else {
          var k :| 0 <= k < |pairs[1..]| && pairs[1..][k].0 == s;
          assert pairs[k + 1].0 == s;
        }
      }
    }
  }

  /** When every key names a user, every pair is applied, in order. */
  lemma {:induction false} AppliedAllResolve(data: seq<Entry>, users: set<nat>)
    requires AllResolve(data, users)
    ensures |Applied(data, users)| == |data|
    ensures forall i :: 0 <= i < |data| ==> Applied(data, users)[i] == PairOf(data[i], users).value
    decreases |data|
  {
    if data != [] {
      assert PairOf(data[0], users).Some?;
      forall i | 0 <= i < |data[1..]| ensures PairOf(data[1..][i], users).Some? {
        assert data[1..][i] == data[i + 1];
      }
      AppliedAllResolve(data[1..], users);
    }
  }

  /** A successful upsert: every submitted student has exactly one record
      for the event, holding the status submitted last for them; the table
      stays valid and every record of another event or of an unlisted
      student is unchanged. */
  lemma UpsertEffect(st: StoreState, eventId: nat, data: seq<Entry>, users: set<nat>, now: int, i: nat)
    requires StoreValid(st) && AllResolve(data, users) && i < |data|
    ensures var (st', ok) := UpsertAll(st, eventId, data, users, now);
      var s := PairOf(data[i], users).value.0;
      && ok && StoreValid(st')
      && RecordFor(st'.records, eventId, s).Some? && LastStatus(Applied(data, users), s).Some?
      && st'.records[RecordFor(st'.records, eventId, s).value].status == LastStatus(Applied(data, users), s).value
      && (forall id :: id in st.records && !(st.records[id].eventId == eventId && LastStatus(Applied(data, users), st.records[id].studentId).Some?) ==>
            id in st'.records && st'.records[id] == st.records[id])
  {
    var pairs := Applied(data, users);
    UpsertIsApplied(st, eventId, data, users, now);
    AppliedAllResolve(data, users);
    var s := PairOf(data[i], users).value.0;
    assert pairs[i].0 == s;
    ApplyAllFrame(st, eventId, pairs, now);
    ApplyAllStatus(st, eventId, pairs, now, s);
    ApplyAllUnlisted(st, eventId, pairs, now);
  }

  /** The upsert stops at the first entry whose key names no user or whose
      status is null: it answers `success: False`, and the table is the one
      the pairs before it leave. */
  lemma UpsertStopsAtFirstFailure(st: StoreState, eventId: nat, data: seq<Entry>, users: set<nat>, now: int, k: nat)
    requires k < |data| && PairOf(data[k], users).None?
    requires forall i :: 0 <= i < k ==> PairOf(data[i], users).Some?
    ensures !UpsertAll(st, eventId, data, users, now).1
    ensures UpsertAll(st, eventId, data[..k], users, now).1
    ensures UpsertAll(st, eventId, data, users, now).0 == UpsertAll(st, eventId, data[..k], users, now).0
  {
    UpsertIsApplied(st, eventId, data, users, now);
    UpsertIsApplied(st, eventId, data[..k], users, now);
    AppliedPrefix(data, users, k);
  }

  /** Before the first failure the full data and its prefix apply the same
      pairs. */
  lemma {:induction false} AppliedPrefix(data: seq<Entry>, users: set<nat>, k: nat)
    requires k < |data| && PairOf(data[k], users).None?
    requires forall i :: 0 <= i < k ==> PairOf(data[i], users).Some?
    ensures Applied(data, users) == Applied(data[..k], users)
    decreases k
  {
    if k > 0 {
      assert data[..k][1..] == data[1..][..k - 1];
      assert data[..k][0] == data[0];
      forall i | 0 <= i < k - 1 ensures PairOf(data[1..][i], users).Some? {
        assert data[1..][i] == data[i + 1];
      }
      AppliedPrefix(data[1..], users, k - 1);
    }
  }

  /** The stored `Attendance` table. */
  class AttendanceStore {
    var records: map<nat, Attendance>
    var nextId: nat

    ghost function State(): StoreState
      reads this
    {
      StoreState(records, nextId)
    }

    ghost predicate Valid()
      reads this
    {
      StoreValid(State())
    }

    constructor()
      ensures records == map[] && nextId == 1
      ensures Valid()
    {
      records := map[];
      nextId := 1;
    }

    /** `get_or_create` followed by the status update. */
    method Mark(eventId: nat, studentId: nat, status: string, now: int)
      requires Valid()
      modifies this
      ensures Valid()
      ensures State() == MarkOne(old(State()), eventId, studentId, status, now)
    {
      MarkOneValid(State(), eventId, studentId, status, now);
      if id :| id in records && IsFor(records[id], eventId, studentId) {
        RecordForUnique(records, eventId, studentId, id);
        records := records[id := records[id].(status := status)];
      } else {
        records := records[nextId := Attendance(eventId, studentId, status, now)];
        nextId := nextId + 1;
      }
    }

    /** The `try` block of lines 124-140 for a parsed JSON object. */
    method Upsert(eventId: nat, data: seq<Entry>, users: set<nat>, now: int) returns (success: bool)
      requires Valid()
      modifies this
      ensures Valid()
      ensures (State(), success) == UpsertAll(old(State()), eventId, data, users, now)
    {
      var i := 0;
      while i < |data|
        invariant 0 <= i <= |data|
        invariant Valid()
        invariant UpsertAll(State(), eventId, data[i..], users, now) == UpsertAll(old(State()), eventId, data, users, now)
      {
        assert data[i..][0] == data[i] && data[i..][1..] == data[i + 1..];
        var pair := PairOf(data[i], users);
        if pair.None? {
          return false;
        }
        Mark(eventId, pair.value.0, pair.value.1, now);
        i := i + 1;
      }
      assert data[i..] == [];
      return true;
    }
  }

  /** The answers of `attendance_manage`. */
  datatype ManageOutcome =
    | NoPermission
    | JsonAnswer(success: bool)
    | ManagePage(total: nat, present: nat, absent: nat)

  /** Records of the event with the given status. */
  function StatusCount(records: map<nat, Attendance>, eventId: nat, status: string): (n: nat)
    ensures n <= |records|
  {
    var ids := set id | id in records && records[id].eventId == eventId && records[id].status == status;
    assert ids <= records.Keys;
    Cardinality(ids, records.Keys);
    |ids|
  }

  lemma Cardinality(a: set<nat>, b: set<nat>)
    requires a <= b
    ensures |a| <= |b|
  {
    assert b == a + (b - a);
  }

  /** `attendance_manage(request, event_id)` for an existing event. `json`
      is None when the request is not a JSON POST; its value is None when the
      body is not a JSON object. */
  method AttendanceManage(store: AttendanceStore, userId: nat, roles: seq<string>, event: ManagedEvent,
                          json: Option<Option<seq<Entry>>>, users: set<nat>, now: int)
    returns (outcome: ManageOutcome)
    requires store.Valid()
    modifies store
    ensures store.Valid()
    ensures !MayManage(userId, roles, event) ==> outcome == NoPermission && store.State() == old(store.State())
    ensures MayManage(userId, roles, event) && json.Some? && json.value.None? ==>
      outcome == JsonAnswer(false) && store.State() == old(store.State())
    ensures MayManage(userId, roles, event) && json.Some? && json.value.Some? ==>
      && outcome == JsonAnswer(UpsertAll(old(store.State()), event.id, json.value.value, users, now).1)
      && store.State() == UpsertAll(old(store.State()), event.id, json.value.value, users, now).0
    ensures MayManage(userId, roles, event) && json.None? ==>
      && store.State() == old(store.State())
      && outcome == ManagePage(|event.members|, StatusCount(store.records, event.id, AttendanceStatus.Present.Value()),
                                StatusCount(store.records, event.id, AttendanceStatus.Absent.Value()))
  {
    if !(userId in event.organizers || userId in event.coordinators || "ADMIN" in roles) {
      return NoPermission;
    }
    if json.Some? {
      if json.value.None? {
        return JsonAnswer(false);
      }
      var success := store.Upsert(event.id, json.value.value, users, now);
      return JsonAnswer(success);
    }
    var present := StatusCount(store.records, event.id, "PRESENT");
    var absent := StatusCount(store.records, event.id, "ABSENT");
    return ManagePage(|event.members|, present, absent);
  }

  // ---------------------------------------------------------------------
  // notifications_list
  // ---------------------------------------------------------------------

  function IsUnread(n: Notification): bool { !n.read }
  function IsRead(n: Notification): bool { n.read }
  function CreatedAt(n: Notification): int { n.createdAt }

  /** The listed notifications, newest first: the unread ones for `unread`,
      the read ones for `read`, all of them for any other filter. */
  function FilterNotifications(ns: seq<Notification>, filter: string): (r: seq<Notification>)
    ensures SortedDesc(r, CreatedAt)
    ensures filter == "unread" ==> forall n :: multiset(r)[n] == if n.read then 0 else multiset(ns)[n]
    ensures filter == "read" ==> forall n :: multiset(r)[n] == if n.read then multiset(ns)[n] else 0
    ensures filter != "unread" && filter != "read" ==> multiset(r) == multiset(ns)
  {
    var chosen := if filter == "unread" then Filter(ns, IsUnread)
                  else if filter == "read" then Filter(ns, IsRead)
                  else ns;
    FilteredCopies(ns, filter);
    SortDesc(chosen, CreatedAt)
  }

  /** Each notification keeps all its copies when the filter accepts it and
      none when it rejects it. */
  lemma FilteredCopies(ns: seq<Notification>, filter: string)
    ensures filter == "unread" ==> forall n :: multiset(Filter(ns, IsUnread))[n] == if n.read then 0 else multiset(ns)[n]
    ensures filter == "read" ==> forall n :: multiset(Filter(ns, IsRead))[n] == if n.read then multiset(ns)[n] else 0
  {
    forall n ensures multiset(Filter(ns, IsUnread))[n] == if n.read then 0 else multiset(ns)[n] {
      FilterMultiplicity(ns, IsUnread, n);
    }
    forall n ensures multiset(Filter(ns, IsRead))[n] == if n.read then multiset(ns)[n] else 0 {
      FilterMultiplicity(ns, IsRead, n);
    }
  }

  /** The three counters of the page. */
  datatype NotificationCounts = NotificationCounts(total: nat, unread: nat, read: nat)

  function CountNotifications(ns: seq<Notification>): NotificationCounts {
    NotificationCounts(|ns|, |Filter(ns, IsUnread)|, |Filter(ns, IsRead)|)
  }

  /** Every notification is read or unread, never both. */
  lemma {:induction false} ReadSplit(ns: seq<Notification>)
    ensures |Filter(ns, IsUnread)| + |Filter(ns, IsRead)| == |ns|
  {
    if ns != [] {
      ReadSplit(ns[1..]);
    }
  }

  /** total = unread + read */
  lemma CountsAddUp(ns: seq<Notification>)
    ensures CountNotifications(ns).total == CountNotifications(ns).unread + CountNotifications(ns).read
  {
    ReadSplit(ns);
  }

  // ---------------------------------------------------------------------
  // profile_view: recent activities
  // ---------------------------------------------------------------------

  const ActivitiesPerKind: nat := 5
  const MaxActivities: nat := 10

  /** An event the user organized or attended, with its date. */
  datatype Activity = Activity(eventId: nat, dateTime: int, role: string)

  function ActivityDate(a: Activity): int { a.dateTime }

  /** The events, each with the given role. */
  function Tagged(events: seq<(nat, int)>, role: string): (r: seq<Activity>)
    ensures |r| == |events|
    ensures forall i :: 0 <= i < |events| ==> r[i] == Activity(events[i].0, events[i].1, role)
  {
    seq(|events|, i requires 0 <= i < |events| => Activity(events[i].0, events[i].1, role))
  }

  /** The first five organized events and the first five attended ones. */
  function Collected(organized: seq<(nat, int)>, attended: seq<(nat, int)>): (r: seq<Activity>)
    ensures |r| <= ActivitiesPerKind + ActivitiesPerKind
  {
    Tagged(organized[..Min(ActivitiesPerKind, |organized|)], "organizer")
      + Tagged(attended[..Min(ActivitiesPerKind, |attended|)], "attendee")
  }

  /** One of the two loops: append the first five events with their role. */
  method AppendFirstFive(acts: seq<Activity>, events: seq<(nat, int)>, role: string) returns (acts': seq<Activity>)
    ensures acts' == acts + Tagged(events[..Min(ActivitiesPerKind, |events|)], role)
  {
    acts' := acts;
    var i := 0;
    while i < |events| && i < ActivitiesPerKind
      invariant 0 <= i <= Min(ActivitiesPerKind, |events|)
      invariant acts' == acts + Tagged(events[..i], role)
    {
      assert events[..i + 1] == events[..i] + [events[i]];
      acts' := acts' + [Activity(events[i].0, events[i].1, role)];
      i := i + 1;
    }
  }

  /** Lines 208-226: the two loops, the sort newest first and the cut to 10,
      which never drops anything since at most ten are collected. */
  method RecentActivities(organized: seq<(nat, int)>, attended: seq<(nat, int)>) returns (r: seq<Activity>)
    ensures SortedDesc(r, ActivityDate)
    ensures |r| <= MaxActivities
    ensures multiset(r) == multiset(Collected(organized, attended))
  {
    var acts := AppendFirstFive([], organized, "organizer");
    acts := AppendFirstFive(acts, attended, "attendee");
    var sorted := SortDesc(acts, ActivityDate);
    r := sorted[..Min(MaxActivities, |sorted|)];
    assert r == sorted;
  }
}
