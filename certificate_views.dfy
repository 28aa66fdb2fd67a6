/** The certificate app's views (certificate/views.py): the club template
    lookup, where a text field is placed on the certificate, the list of
    attended events on the landing page and the rules of the per-event
    download. */
module CertificateViews {
  import opened Wrappers
  import opened Text
  import opened Collections
  import opened Sorting
  import opened UserModels

  // ---------------------------------------------------------------------
  // get_template_for_club
  // ---------------------------------------------------------------------

  /** A club choice and its certificate template. */
  datatype ClubOption = ClubOption(name: string, template: string)

  const ClubOptions: seq<ClubOption> := [
    ClubOption("Tech Club", "tech_club.jpg"),
    ClubOption("Sports Club", "sports_club.jpg"),
    ClubOption("Cultural Club", "cultural_club.jpg"),
    ClubOption("Science Club", "science_club.jpg")]

  const SampleTemplate: string := "sample.jpg"

  /** The template of the first option named `clubName`, scanning from `k`. */
  function FirstTemplate(options: seq<ClubOption>, clubName: string, k: nat): (r: string)
    requires k <= |options|
    ensures (forall i :: k <= i < |options| ==> options[i].name != clubName) ==> r == SampleTemplate
    ensures forall i :: (k <= i < |options| && options[i].name == clubName
                         && (forall j :: k <= j < i ==> options[j].name != clubName)) ==> r == options[i].template
    decreases |options| - k
  {
    if k == |options| then SampleTemplate
    else if options[k].name == clubName then options[k].template
    else FirstTemplate(options, clubName, k + 1)
  }

  /** `get_template_for_club(club_name)` */
  function TemplateForClub(clubName: string): string {
    FirstTemplate(ClubOptions, clubName, 0)
  }

  /** The four clubs get their own templates; any other name, including a
      different letter case, gets the sample. */
  lemma ClubTemplates()
    ensures TemplateForClub("Tech Club") == "tech_club.jpg"
    ensures TemplateForClub("Sports Club") == "sports_club.jpg"
    ensures TemplateForClub("Cultural Club") == "cultural_club.jpg"
    ensures TemplateForClub("Science Club") == "science_club.jpg"
    ensures TemplateForClub("tech club") == SampleTemplate
    ensures TemplateForClub("") == SampleTemplate
  {
    assert ClubOptions[0].name == "Tech Club";
    assert ClubOptions[1].name == "Sports Club";
    assert ClubOptions[2].name == "Cultural Club";
    assert ClubOptions[3].name == "Science Club";
  }

  /** A name that is no option's name gets the sample template. */
  lemma UnknownClubGetsSample(clubName: string)
    requires forall o :: o in ClubOptions ==> o.name != clubName
    ensures TemplateForClub(clubName) == SampleTemplate
  {
  }

  // ---------------------------------------------------------------------
  // draw_field
  // ---------------------------------------------------------------------

  /** The settings of one field; each key may be missing. The colour is not
      modelled. */
  datatype FieldLayout = FieldLayout(y: Option<int>, x1: Option<int>, x2: Option<int>, fontSize: Option<int>, bold: Option<bool>)

  const NoSettings: FieldLayout := FieldLayout(None, None, None, None, None)

  function Field(y: int, x1: int, x2: int, fontSize: int): FieldLayout {
    FieldLayout(Some(y), Some(x1), Some(x2), Some(fontSize), Some(true))
  }

  /** `DEFAULT_LAYOUT` */
  const DefaultLayout: map<string, FieldLayout> := map[
    "name" := Field(1020, 633, 1258, 45),
    "department" := Field(1093, 214, 1040, 40),
    "event" := Field(1160, 773, 1257, 30),
    "date" := Field(1237, 213, 453, 40),
    "club" := Field(1229, 756, 1260, 40)]

  const LongNameLength: nat := 23
  const LongNameFontSize: int := 35

  /** Where and how a field is drawn. */
  datatype Placement = Placement(x: int, y: int, fontSize: int, bold: bool)

  /** The field span after clamping both ends into the image. */
  function ClampX(x: int, imgWidth: nat): (r: int)
    ensures 0 <= r <= imgWidth
    ensures 0 <= x <= imgWidth ==> r == x
  {
    Max(0, Min(x, imgWidth))
  }

  /** The left edge of text `textWidth` wide, centred in the span from `x1`
      (the span at least 1). Python's `//` by 2 floors, as Dafny's `/` does
      for a positive divisor. */
  function CentredX(x1: int, span: int, textWidth: int): (x: int)
    requires span >= 1
    ensures x >= x1
    ensures textWidth >= span ==> x == x1
    ensures 0 <= textWidth <= span ==>
      var left := x - x1;
      var right := x1 + span - (x + textWidth);
      0 <= left && 0 <= right && left <= right <= left + 1
  {
    x1 + Max(0, (span - textWidth) / 2)
  }

  /** `draw_field(value, field_key)` on an image `imgWidth` wide. `measure`
      gives the drawn width of a text at a font size in regular or bold
      weight. */
  function DrawField(layout: map<string, FieldLayout>, key: string, value: Option<string>, imgWidth: nat,
                     measure: (int, bool, string) -> int): (p: Placement)
  {
    var field := if key in layout then layout[key] else NoSettings;
    var x1 := ClampX(field.x1.GetOr(0), imgWidth);
    var x2 := ClampX(field.x2.GetOr(imgWidth), imgWidth);
    var span := Max(1, x2 - x1);
    var text := value.GetOr("");
    var fontSize := if key == "name" && |text| > LongNameLength then LongNameFontSize else field.fontSize.GetOr(40);
    var bold := field.bold.GetOr(false);
    Placement(CentredX(x1, span, measure(fontSize, bold, text)), field.y.GetOr(0), fontSize, bold)
  }

  /** The text starts inside the clamped span of the field: at the span's
      left end when it does not fit, centred when it does. */
  lemma DrawFieldInSpan(layout: map<string, FieldLayout>, key: string, value: Option<string>, imgWidth: nat,
                        measure: (int, bool, string) -> int)
    ensures var p := DrawField(layout, key, value, imgWidth, measure);
      var field := if key in layout then layout[key] else NoSettings;
      var x1 := ClampX(field.x1.GetOr(0), imgWidth);
      var x2 := ClampX(field.x2.GetOr(imgWidth), imgWidth);
      var width := measure(p.fontSize, p.bold, value.GetOr(""));
      && 0 <= x1 <= p.x
      && (width >= Max(1, x2 - x1) ==> p.x == x1)
      && (0 <= width <= x2 - x1 ==> p.x + width <= x2 && (x2 - (p.x + width)) - (p.x - x1) in {0, 1})
  {
  }

  /** A field the layout does not name sits at y 0 in regular weight and
      font size 40, centred over the whole image width. */
  lemma MissingFieldDefaults(key: string, value: Option<string>, imgWidth: nat, measure: (int, bool, string) -> int)
    requires imgWidth >= 1
    requires key !in DefaultLayout
    ensures var p := DrawField(DefaultLayout, key, value, imgWidth, measure);
      && p.y == 0 && !p.bold && p.fontSize == 40
      && p.x == Max(0, (imgWidth - measure(40, false, value.GetOr(""))) / 2)
  {
  }

  /** A name longer than 23 characters is drawn at font size 35, whatever
      the layout says; other fields keep their size. */
  lemma LongNameShrinks(layout: map<string, FieldLayout>, key: string, value: Option<string>, imgWidth: nat,
                        measure: (int, bool, string) -> int)
    ensures key == "name" && |value.GetOr("")| > LongNameLength ==>
      DrawField(layout, key, value, imgWidth, measure).fontSize == LongNameFontSize
    ensures key != "name" && key in layout && layout[key].fontSize.Some? ==>
      DrawField(layout, key, value, imgWidth, measure).fontSize == layout[key].fontSize.value
  {
  }

  /** On an image at least 1260 pixels wide the default spans are kept as
      written: the name is centred between 633 and 1258. */
  lemma DefaultNameSpan(value: Option<string>, imgWidth: nat, measure: (int, bool, string) -> int)
    requires imgWidth >= 1260
    requires |value.GetOr("")| <= LongNameLength
    ensures var p := DrawField(DefaultLayout, "name", value, imgWidth, measure);
      && p.y == 1020 && p.fontSize == 45 && p.bold
      && p.x == 633 + Max(0, (1258 - 633 - measure(45, true, value.GetOr(""))) / 2)
  {
  }

  // ---------------------------------------------------------------------
  // home
  // ---------------------------------------------------------------------

  /** An event with its date. */
  datatype EventRef = EventRef(id: nat, dateTime: int)

  /** A `PRESENT` attendance of the user: its session, when it has one, and
      that session's event, when it has one; and its creation time. */
  datatype PresentRow = PresentRow(session: Option<Option<EventRef>>, timestamp: int)

  /** An entry of the landing page. */
  datatype AttendedEvent = AttendedEvent(event: EventRef, attendanceDate: int)

  function EventDate(a: AttendedEvent): int { a.event.dateTime }

  /** The event a row points to, if both links are present. */
  function RowEvent(row: PresentRow): Option<EventRef> {
    if row.session.Some? && row.session.value.Some? then row.session.value else None
  }

  function EntryIds(entries: seq<AttendedEvent>): set<nat> {
    set e | e in entries :: e.event.id
  }

  /** The entries the loop of lines 48-56 appends, as a function of the
      rows it has seen: one per event id, in the order first seen. */
  function FirstPerEvent(rows: seq<PresentRow>): (r: seq<AttendedEvent>)
    decreases |rows|
  {
    if rows == [] then []
    else
      var before := FirstPerEvent(rows[..|rows| - 1]);
      var row := rows[|rows| - 1];
      match RowEvent(row)
      case Some(ev) =>
        if ev.id !in EntryIds(before) then before + [AttendedEvent(ev, row.timestamp)] else before
      case None => before
  }

  predicate IdsDistinct(entries: seq<AttendedEvent>) {
    forall i, j :: 0 <= i < j < |entries| ==> entries[i].event.id != entries[j].event.id
  }

  /** The index of the first row pointing to event `id`, if any. */
  function FirstRowFor(rows: seq<PresentRow>, id: nat): (k: Option<nat>)
    ensures k.Some? ==> k.value < |rows| && RowEvent(rows[k.value]).Some? && RowEvent(rows[k.value]).value.id == id
    ensures k.Some? ==> forall i :: 0 <= i < k.value ==> RowEvent(rows[i]).None? || RowEvent(rows[i]).value.id != id
    ensures k.None? ==> forall i :: 0 <= i < |rows| ==> RowEvent(rows[i]).None? || RowEvent(rows[i]).value.id != id
    decreases |rows|
  {
    if rows == [] then None
    else
      match FirstRowFor(rows[..|rows| - 1], id)
      case Some(k) => Some(k)
      case None =>
        var ev := RowEvent(rows[|rows| - 1]);
        if ev.Some? && ev.value.id == id then Some(|rows| - 1) else None
  }

  /** One entry per event; an event is listed iff some row reaches it, and
      its entry holds that event and the timestamp of the first such row. */
  lemma {:induction false} FirstPerEventSpec(rows: seq<PresentRow>)
    ensures IdsDistinct(FirstPerEvent(rows))
    ensures forall id :: id in EntryIds(FirstPerEvent(rows)) <==> FirstRowFor(rows, id).Some?
    ensures forall e :: e in FirstPerEvent(rows) ==>
      && FirstRowFor(rows, e.event.id).Some?
      && RowEvent(rows[FirstRowFor(rows, e.event.id).value]) == Some(e.event)
      && e.attendanceDate == rows[FirstRowFor(rows, e.event.id).value].timestamp
    decreases |rows|
  {
    if rows != [] {
      var init := rows[..|rows| - 1];
      FirstPerEventSpec(init);
      var before := FirstPerEvent(init);
      var row := rows[|rows| - 1];
      assert forall i :: 0 <= i < |init| ==> rows[i] == init[i];
      match RowEvent(row)
      case Some(ev) =>
        if ev.id !in EntryIds(before) {
          var r := FirstPerEvent(rows);
          assert r == before + [AttendedEvent(ev, row.timestamp)];
          forall i, j | 0 <= i < j < |r| ensures r[i].event.id != r[j].event.id {
            if j == |before| {
              assert r[i] in before;
            }
          }
          assert EntryIds(r) == EntryIds(before) + {ev.id};
        }
      case None =>
    }
  }

  /** The landing page's loop: keep the first row of each event, skipping
      rows without a session or an event. */
  method CollectAttended(rows: seq<PresentRow>) returns (entries: seq<AttendedEvent>)
    ensures entries == FirstPerEvent(rows)
  {
    entries := [];
    var seen: set<nat> := {};
    var i := 0;
    while i < |rows|
      invariant 0 <= i <= |rows|
      invariant entries == FirstPerEvent(rows[..i])
      invariant seen == EntryIds(entries)
    {
      assert rows[..i + 1][..i] == rows[..i];
      var row := rows[i];
      if row.session.Some? && row.session.value.Some? {
        var ev := row.session.value.value;
        if ev.id !in seen {
          seen := seen + {ev.id};
          entries := entries + [AttendedEvent(ev, row.timestamp)];
        }
      }
      i := i + 1;
    }
    assert rows[..i] == rows;
  }

  /** A reordering of entries with distinct event ids has distinct ids. */
  lemma PermutationKeepsIdsDistinct(a: seq<AttendedEvent>, b: seq<AttendedEvent>)
    requires IdsDistinct(a) && multiset(a) == multiset(b)
    ensures IdsDistinct(b)
  {
    assert Distinct(a);
    DistinctMultiplicity(a);
    forall i, j | 0 <= i < j < |b| ensures b[i].event.id != b[j].event.id {
      RepeatMultiplicity(b, i, j);
      assert b[i] in multiset(a) && b[j] in multiset(a);
      var p :| 0 <= p < |a| && a[p] == b[i];
      var q :| 0 <= q < |a| && a[q] == b[j];
      assert p == q ==> multiset(a)[a[p]] <= 1;
    }
  }

  /** `home(request)`: the attended events, newest event first. */
  method AttendedEvents(rows: seq<PresentRow>) returns (entries: seq<AttendedEvent>)
    ensures SortedDesc(entries, EventDate)
    ensures multiset(entries) == multiset(FirstPerEvent(rows))
    ensures IdsDistinct(entries)
  {
    var collected := CollectAttended(rows);
    entries := SortDesc(collected, EventDate);
    FirstPerEventSpec(rows);
    PermutationKeepsIdsDistinct(collected, entries);
  }

  // ---------------------------------------------------------------------
  // download_event_certificate
  // ---------------------------------------------------------------------

  /** An attendance of the requesting user: its status and its session's
      event id (None without a session). */
  datatype UserAttendance = UserAttendance(status: string, sessionEvent: Option<nat>)

  /** What the view reads of the event's club. */
  datatype ClubRef = ClubRef(name: string, uploadedTemplate: Option<string>)

  /** What goes on the certificate and the download's file name. */
  datatype Certificate = Certificate(name: string, department: string, eventName: string, clubName: string,
                                     template: string, filename: string)

  const DefaultDepartment: string := "Student"
  const DefaultClub: string := "MITS SAC"

  /** `s.replace(" ", "_")` */
  function ReplaceSpaces(s: string): (r: string)
    ensures |r| == |s|
    ensures forall i :: 0 <= i < |s| ==> r[i] == (if s[i] == ' ' then '_' else s[i])
  {
    if s == [] then []
    else [if s[0] == ' ' then '_' else s[0]] + ReplaceSpaces(s[1..])
  }

  /** The user has a `PRESENT` attendance in one of the event's sessions. */
  predicate HasPresentAttendance(attendances: seq<UserAttendance>, eventId: nat) {
    exists a :: a in attendances && a.status == "PRESENT" && a.sessionEvent == Some(eventId)
  }

  /** `download_event_certificate(request, event_id)` for an existing event;
      None stands for the 403 answer. */
  function DownloadCertificate(attendances: seq<UserAttendance>, eventId: nat, eventName: string,
                               user: UserRecord, department: Option<string>, club: Option<ClubRef>): (r: Option<Certificate>)
    ensures r.None? <==> !HasPresentAttendance(attendances, eventId)
    ensures r.Some? ==>
      && r.value.name == (if FullName(user) != "" then FullName(user) else user.username)
      && r.value.department == department.GetOr(DefaultDepartment)
      && r.value.clubName == (if club.Some? then club.value.name else DefaultClub)
      && r.value.eventName == eventName
      && (club.Some? && Filled(club.value.uploadedTemplate) ==> r.value.template == club.value.uploadedTemplate.value)
      && (!(club.Some? && Filled(club.value.uploadedTemplate)) ==> r.value.template == TemplateForClub(r.value.clubName))
      && ' ' !in r.value.filename
  {
    if !(exists a :: a in attendances && a.status == "PRESENT" && a.sessionEvent == Some(eventId)) then None
    else
      var name := if FullName(user) != "" then FullName(user) else user.username;
      var dept := if department.Some? then department.value else DefaultDepartment;
      var clubName := if club.Some? then club.value.name else DefaultClub;
      var template := if club.Some? && club.value.uploadedTemplate.Some? && club.value.uploadedTemplate.value != ""
                      then club.value.uploadedTemplate.value else TemplateForClub(clubName);
      var filename := ReplaceSpaces(name + "_" + eventName + "_certificate.pdf");
      Some(Certificate(name, dept, eventName, clubName, template, filename))
  }

  /** Without a `PRESENT` attendance for the event (none at all, only absent
      ones, or present ones for other events) the download is refused. */
  lemma DownloadRefused(eventId: nat, other: nat, eventName: string, user: UserRecord, department: Option<string>, club: Option<ClubRef>)
    requires other != eventId
    ensures DownloadCertificate([], eventId, eventName, user, department, club).None?
    ensures DownloadCertificate([UserAttendance("ABSENT", Some(eventId)), UserAttendance("PRESENT", Some(other)),
                                 UserAttendance("PRESENT", None)], eventId, eventName, user, department, club).None?
  {
  }

  /** The stored `Club` has no `certificate_template`, so a club reaches the
      view without an uploaded template and the static template named after
      the club is used. */
  lemma SchemaClubStaticTemplate(attendances: seq<UserAttendance>, eventId: nat, eventName: string,
                                 user: UserRecord, department: Option<string>, clubName: string)
    requires HasPresentAttendance(attendances, eventId)
    ensures var r := DownloadCertificate(attendances, eventId, eventName, user, department, Some(ClubRef(clubName, None)));
      r.Some? && r.value.clubName == clubName && r.value.template == TemplateForClub(clubName)
  {
  }

  /** A user with no name, no department and an event without a club gets a
      certificate under their username, for "Student" and "MITS SAC", on the
      sample template. */
  lemma DownloadFallbacks(eventId: nat, eventName: string, user: UserRecord)
    requires user.firstName == "" && user.lastName == ""
    ensures var r := DownloadCertificate([UserAttendance("PRESENT", Some(eventId))], eventId, eventName, user, None, None);
      && r.Some?
      && r.value.name == user.username
      && r.value.department == DefaultDepartment
      && r.value.clubName == DefaultClub
      && r.value.template == SampleTemplate
  {
    NoNameNoFullName(user);
    DefaultClubGetsSample();
    var a := UserAttendance("PRESENT", Some(eventId));
    assert a in [a];
  }

  lemma NoNameNoFullName(user: UserRecord)
    requires user.firstName == "" && user.lastName == ""
    ensures FullName(user) == ""
  {
    assert user.firstName + " " + user.lastName == " ";
    assert TrimStart(" ") == "";
  }

  lemma DefaultClubGetsSample()
    ensures TemplateForClub(DefaultClub) == SampleTemplate
  {
    assert forall o :: o in ClubOptions ==> o.name != DefaultClub;
    UnknownClubGetsSample(DefaultClub);
  }
}
