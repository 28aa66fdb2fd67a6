/** `student_dashboard(request)` (sac_project/student_views.py): which roles
    count, the redirect for club coordinators, the dashboard switcher, the
    SAC-admin flag, and the merged "my events" list. */
module StudentViews {
  import opened Wrappers
  import opened Text
  import opened Collections
  import opened Sorting
  import opened AdminViews

  /** The stored `roles` value: a JSON list, or any other JSON value. */
  datatype RolesField = RoleList(items: seq<string>) | NotAList

  /** The roles the view honours: the list of a logged-in user, otherwise
      none. */
  function UserRoles(authenticated: bool, roles: RolesField): (r: seq<string>)
    ensures authenticated && roles.RoleList? ==> r == roles.items
    ensures !authenticated || roles.NotAList? ==> r == []
  {
    if authenticated then
      match roles
      case RoleList(items) => items
      case NotAList => []
    else []
  }

  /** `"CLUB_COORDINATOR" in user_roles or "CO_COORDINATOR" in user_roles` */
  predicate CoordinatorLike(roles: seq<string>) {
    "CLUB_COORDINATOR" in roles || "CO_COORDINATOR" in roles
  }

  // ---------------------------------------------------------------------
  // Dashboard switcher
  // ---------------------------------------------------------------------

  datatype DashboardEntry = DashboardEntry(name: string, url: string, icon: string, description: string)

  /** The switcher's groups, each granting at most one entry. */
  datatype Group =
    | OrganizerGroup | SacAdminGroup | DepartmentGroup | PresidentGroup | SvpGroup
    | FinanceGroup | AdvisorGroup | VolunteerGroup | FacultyGroup
  {
    /** The roles that grant the group's entry. */
    predicate Applies(roles: seq<string>) {
      match this
      case OrganizerGroup => "EVENT_ORGANIZER" in roles
      case SacAdminGroup => "SAC_COORDINATOR" in roles || "ADMIN" in roles
      case DepartmentGroup => "DEPARTMENT_ADMIN" in roles || "DEPARTMENT_VP" in roles
      case PresidentGroup => "PRESIDENT" in roles
      case SvpGroup => "SVP" in roles
      case FinanceGroup => "SECRETARY" in roles || "TREASURER" in roles
      case AdvisorGroup => "CLUB_ADVISOR" in roles
      case VolunteerGroup => "STUDENT_VOLUNTEER" in roles
      case FacultyGroup => "FACULTY" in roles
    }

    /** The entry; `advised` is the number of clubs the user advises. */
    function Entry(roles: seq<string>, advised: nat): DashboardEntry {
      match this
      case OrganizerGroup =>
        DashboardEntry("Event Organizer Dashboard", "/dashboard/event-organizer/", "bi bi-calendar-event", "Manage events and activities")
      case SacAdminGroup =>
        DashboardEntry("SAC Admin Dashboard", "/dashboard/admin/", "bi bi-gear", "Oversee all student activities and approve events")
      case DepartmentGroup =>
        DashboardEntry("Department Admin Dashboard", "/dashboard/department-admin/", "bi bi-building", "Manage department activities")
      case PresidentGroup =>
        DashboardEntry("President Dashboard", "/dashboard/president/", "bi bi-award", "Executive oversight and decisions")
      case SvpGroup =>
        DashboardEntry("SVP Dashboard", "/dashboard/svp/", "bi bi-star", "Strategic planning and review")
      case FinanceGroup =>
        var secretary := "SECRETARY" in roles;
        DashboardEntry(
          (if secretary then "Secretary" else "Treasurer") + " Dashboard",
          if secretary then "/dashboard/secretary/" else "/dashboard/treasurer/",
          if secretary then "bi bi-journal-text" else "bi bi-calculator",
          "Administrative and financial management")
      case AdvisorGroup =>
        DashboardEntry("Club Advisor Dashboard", "/dashboard/club-advisor/", "bi bi-person-check", "Advise " + NatToString(advised) + " club(s)")
      case VolunteerGroup =>
        DashboardEntry("Student Volunteer Dashboard", "/dashboard/student-volunteer/", "bi bi-hand-thumbs-up", "Volunteer activities and tasks")
      case FacultyGroup =>
        DashboardEntry("Faculty Dashboard", "/dashboard/faculty/", "bi bi-mortarboard", "Faculty oversight and activities")
    }
  }

  /** The groups in the order the view tests them. */
  const Groups: seq<Group> := [
    OrganizerGroup, SacAdminGroup, DepartmentGroup, PresidentGroup, SvpGroup,
    FinanceGroup, AdvisorGroup, VolunteerGroup, FacultyGroup]

  /** The group an entry's URL belongs to. */
  function GroupOfUrl(url: string): Option<Group> {
    if url == "/dashboard/event-organizer/" then Some(OrganizerGroup)
    else if url == "/dashboard/admin/" then Some(SacAdminGroup)
    else if url == "/dashboard/department-admin/" then Some(DepartmentGroup)
    else if url == "/dashboard/president/" then Some(PresidentGroup)
    else if url == "/dashboard/svp/" then Some(SvpGroup)
    else if url == "/dashboard/secretary/" || url == "/dashboard/treasurer/" then Some(FinanceGroup)
    else if url == "/dashboard/club-advisor/" then Some(AdvisorGroup)
    else if url == "/dashboard/student-volunteer/" then Some(VolunteerGroup)
    else if url == "/dashboard/faculty/" then Some(FacultyGroup)
    else None
  }

  /** Each entry's URL names its own group. */
  lemma GroupOfEntryUrl(g: Group, roles: seq<string>, advised: nat)
    ensures GroupOfUrl(g.Entry(roles, advised).url) == Some(g)
  {
    if g.OrganizerGroup? || g.SacAdminGroup? || g.DepartmentGroup? {
      GroupOfEntryUrlFirst(g, roles, advised);
    } else if g.PresidentGroup? || g.SvpGroup? || g.FinanceGroup? {
      GroupOfEntryUrlMiddle(g, roles, advised);
    } else {
      GroupOfEntryUrlLast(g, roles, advised);
    }
  }

  lemma GroupOfEntryUrlFirst(g: Group, roles: seq<string>, advised: nat)
    requires g.OrganizerGroup? || g.SacAdminGroup? || g.DepartmentGroup?
    ensures GroupOfUrl(g.Entry(roles, advised).url) == Some(g)
  {
  }

  lemma GroupOfEntryUrlMiddle(g: Group, roles: seq<string>, advised: nat)
    requires g.PresidentGroup? || g.SvpGroup? || g.FinanceGroup?
    ensures GroupOfUrl(g.Entry(roles, advised).url) == Some(g)
  {
  }

  lemma GroupOfEntryUrlLast(g: Group, roles: seq<string>, advised: nat)
    requires g.AdvisorGroup? || g.VolunteerGroup? || g.FacultyGroup?
    ensures GroupOfUrl(g.Entry(roles, advised).url) == Some(g)
  {
  }

  /** The entries of the applicable groups among `gs`, in order. */
  function SwitcherEntries(gs: seq<Group>, roles: seq<string>, advised: nat): (es: seq<DashboardEntry>)
    ensures |es| <= |gs|
  {
    if gs == [] then []
    else
      var es := SwitcherEntries(gs[..|gs| - 1], roles, advised);
      var last := gs[|gs| - 1];
      if last.Applies(roles) then es + [last.Entry(roles, advised)] else es
  }

  /** An entry is listed for every applicable group, and every listed entry
      is the entry of the applicable group of `gs` its URL names. */
  lemma {:induction false} SwitcherEntriesMembers(gs: seq<Group>, roles: seq<string>, advised: nat)
    ensures var es := SwitcherEntries(gs, roles, advised);
      && (forall g :: g in gs && g.Applies(roles) ==> g.Entry(roles, advised) in es)
      && (forall e :: e in es ==>
            && GroupOfUrl(e.url).Some?
            && GroupOfUrl(e.url).value in gs
            && GroupOfUrl(e.url).value.Applies(roles)
            && e == GroupOfUrl(e.url).value.Entry(roles, advised))
  {
    if gs != [] {
      var last := gs[|gs| - 1];
      var prefix := gs[..|gs| - 1];
      SwitcherEntriesMembers(prefix, roles, advised);
      assert gs == prefix + [last];
      GroupOfEntryUrl(last, roles, advised);
    }
  }

  /** The switcher after testing one more group. */
  lemma SwitcherStep(gs: seq<Group>, g: Group, roles: seq<string>, advised: nat)
    ensures SwitcherEntries(gs + [g], roles, advised) ==
      SwitcherEntries(gs, roles, advised) + if g.Applies(roles) then [g.Entry(roles, advised)] else []
  {
    assert (gs + [g])[..|gs|] == gs;
  }

  /** One block of the view: append the group's entry when the user holds
      one of its roles. */
  method AddIfApplies(dashboards: seq<DashboardEntry>, g: Group, roles: seq<string>, advised: nat)
    returns (dashboards': seq<DashboardEntry>)
    ensures g.Applies(roles) ==> dashboards' == dashboards + [g.Entry(roles, advised)]
    ensures !g.Applies(roles) ==> dashboards' == dashboards
  {
    dashboards' := dashboards;
    if g.Applies(roles) {
      dashboards' := dashboards' + [g.Entry(roles, advised)];
    }
  }

  /** The dashboard list the view builds: the groups are tested in turn. */
  method BuildSwitcher(roles: seq<string>, advised: nat) returns (dashboards: seq<DashboardEntry>)
    ensures dashboards == SwitcherEntries(Groups, roles, advised)
  {
    dashboards := [];
    ghost var done: seq<Group> := [];
    SwitcherStep(done, OrganizerGroup, roles, advised);
    dashboards := AddIfApplies(dashboards, OrganizerGroup, roles, advised);
    done := done + [OrganizerGroup];
    SwitcherStep(done, SacAdminGroup, roles, advised);
    dashboards := AddIfApplies(dashboards, SacAdminGroup, roles, advised);
    done := done + [SacAdminGroup];
    SwitcherStep(done, DepartmentGroup, roles, advised);
    dashboards := AddIfApplies(dashboards, DepartmentGroup, roles, advised);
    done := done + [DepartmentGroup];
    SwitcherStep(done, PresidentGroup, roles, advised);
    dashboards := AddIfApplies(dashboards, PresidentGroup, roles, advised);
    done := done + [PresidentGroup];
    SwitcherStep(done, SvpGroup, roles, advised);
    dashboards := AddIfApplies(dashboards, SvpGroup, roles, advised);
    done := done + [SvpGroup];
    SwitcherStep(done, FinanceGroup, roles, advised);
    dashboards := AddIfApplies(dashboards, FinanceGroup, roles, advised);
    done := done + [FinanceGroup];
    SwitcherStep(done, AdvisorGroup, roles, advised);
    dashboards := AddIfApplies(dashboards, AdvisorGroup, roles, advised);
    done := done + [AdvisorGroup];
    SwitcherStep(done, VolunteerGroup, roles, advised);
    dashboards := AddIfApplies(dashboards, VolunteerGroup, roles, advised);
    done := done + [VolunteerGroup];
    SwitcherStep(done, FacultyGroup, roles, advised);
    dashboards := AddIfApplies(dashboards, FacultyGroup, roles, advised);
    done := done + [FacultyGroup];
    assert done == Groups;
  }

  /** No two entries of the switcher share a URL: each group contributes at
      most one entry. */
  lemma {:induction false} SwitcherUrlsDistinct(gs: seq<Group>, roles: seq<string>, advised: nat)
    requires Distinct(gs)
    ensures var es := SwitcherEntries(gs, roles, advised);
      forall i, j :: 0 <= i < j < |es| ==> es[i].url != es[j].url
  {
    if gs != [] {
      var last := gs[|gs| - 1];
      var prefix := gs[..|gs| - 1];
      assert Distinct(prefix) by {
        forall i, j | 0 <= i < j < |prefix| ensures prefix[i] != prefix[j] {
          assert prefix[i] == gs[i] && prefix[j] == gs[j];
        }
      }
      assert last !in prefix by {
        forall i | 0 <= i < |prefix| ensures prefix[i] != last {
          assert prefix[i] == gs[i];
        }
      }
      SwitcherUrlsDistinct(prefix, roles, advised);
      SwitcherEntriesMembers(prefix, roles, advised);
      var rest := SwitcherEntries(prefix, roles, advised);
      GroupOfEntryUrl(last, roles, advised);
      forall i | 0 <= i < |rest| ensures rest[i].url != last.Entry(roles, advised).url {
        assert rest[i] in rest;
      }
    }
  }

  /** A group's entry is listed exactly when the user holds one of its
      roles; the switcher lists at most nine entries. */
  lemma SwitcherMembership(roles: seq<string>, advised: nat, g: Group)
    ensures g.Entry(roles, advised) in SwitcherEntries(Groups, roles, advised) <==> g.Applies(roles)
    ensures |SwitcherEntries(Groups, roles, advised)| <= 9
  {
    SwitcherEntriesMembers(Groups, roles, advised);
    GroupOfEntryUrl(g, roles, advised);
    GroupListed(g);
  }

  /** The view tests every group. */
  lemma GroupListed(g: Group)
    ensures g in Groups && |Groups| == 9
  {
    match g
    case OrganizerGroup => assert Groups[0] == g;
    case SacAdminGroup => assert Groups[1] == g;
    case DepartmentGroup => assert Groups[2] == g;
    case PresidentGroup => assert Groups[3] == g;
    case SvpGroup => assert Groups[4] == g;
    case FinanceGroup => assert Groups[5] == g;
    case AdvisorGroup => assert Groups[6] == g;
    case VolunteerGroup => assert Groups[7] == g;
    case FacultyGroup => assert Groups[8] == g;
  }

  /** A secretary's entries never point to the treasurer dashboard. */
  lemma SecretaryNotTreasurer(g: Group, roles: seq<string>, advised: nat)
    requires "SECRETARY" in roles
    ensures g.Entry(roles, advised).url != "/dashboard/treasurer/"
  {
  }

  lemma GroupsDistinct()
    ensures Distinct(Groups)
  {
  }

  /** A secretary who is also treasurer gets one finance entry: the
      secretary one. */
  lemma SecretaryAndTreasurer(roles: seq<string>, advised: nat)
    requires "SECRETARY" in roles && "TREASURER" in roles
    ensures var es := SwitcherEntries(Groups, roles, advised);
      && DashboardEntry("Secretary Dashboard", "/dashboard/secretary/", "bi bi-journal-text", "Administrative and financial management") in es
      && (forall e :: e in es ==> e.url != "/dashboard/treasurer/")
      && (forall i, j :: 0 <= i < j < |es| ==> es[i].url != es[j].url)
  {
    SwitcherMembership(roles, advised, FinanceGroup);
    assert FinanceGroup.Entry(roles, advised) ==
      DashboardEntry("Secretary Dashboard", "/dashboard/secretary/", "bi bi-journal-text", "Administrative and financial management");
    SwitcherEntriesMembers(Groups, roles, advised);
    var es := SwitcherEntries(Groups, roles, advised);
    forall e | e in es ensures e.url != "/dashboard/treasurer/" {
      SecretaryNotTreasurer(GroupOfUrl(e.url).value, roles, advised);
    }
    GroupsDistinct();
    SwitcherUrlsDistinct(Groups, roles, advised);
  }

  /** No group applies to an empty role list. */
  lemma {:induction false} NoRolesNoEntries(gs: seq<Group>, advised: nat)
    ensures SwitcherEntries(gs, [], advised) == []
  {
    if gs != [] {
      NoRolesNoEntries(gs[..|gs| - 1], advised);
    }
  }

  // ---------------------------------------------------------------------
  // My events
  // ---------------------------------------------------------------------

  /** An event as the list shows it: its id and date-time (in clock ticks). */
  datatype EventRef = EventRef(id: nat, dateTime: int)

  /** One entry of the list; it is sorted by the event's date-time. */
  datatype MyEvent = MyEvent(event: EventRef, status: string, display: string)

  function SortDate(item: MyEvent): int { item.event.dateTime }

  /** One entry per active registration, in the order given. */
  function RegisteredItems(regs: seq<EventRef>): (items: seq<MyEvent>)
    ensures |items| == |regs|
    ensures forall i :: 0 <= i < |items| ==> items[i] == MyEvent(regs[i], "REGISTERED", "Registered")
  {
    seq(|regs|, i requires 0 <= i < |regs| => MyEvent(regs[i], "REGISTERED", "Registered"))
  }

  /** One entry per `PRESENT` attendance whose session and event exist
      (None stands for a missing session or event). */
  function AttendedItems(atts: seq<Option<EventRef>>): (items: seq<MyEvent>)
    ensures |items| <= |atts|
    ensures forall item :: item in items <==> Some(item.event) in atts && item.status == "PRESENT" && item.display == "Attended"
  {
    if atts == [] then []
    else
      var rest := AttendedItems(atts[1..]);
      assert forall a :: a in atts <==> a == atts[0] || a in atts[1..];
      match atts[0]
      case None => rest
      case Some(e) => [MyEvent(e, "PRESENT", "Attended")] + rest
  }

  /** The id → entry map after writing `items` in order. */
  function EventsMap(items: seq<MyEvent>): (m: map<nat, MyEvent>)
    ensures forall id :: id in m ==> m[id].event.id == id
  {
    if items == [] then map[]
    else
      var last := items[|items| - 1];
      EventsMap(items[..|items| - 1])[last.event.id := last]
  }

  /** The map's keys in insertion order (Python dictionaries keep it). */
  function KeyOrder(items: seq<MyEvent>): (keys: seq<nat>)
    ensures Distinct(keys)
    ensures forall id :: id in keys <==> id in EventsMap(items)
  {
    if items == [] then []
    else
      var keys := KeyOrder(items[..|items| - 1]);
      var id := items[|items| - 1].event.id;
      if id in keys then keys else keys + [id]
  }

  /** Writing one more entry. */
  lemma WriteSnoc(items: seq<MyEvent>, item: MyEvent)
    ensures EventsMap(items + [item]) == EventsMap(items)[item.event.id := item]
    ensures KeyOrder(items + [item]) ==
      if item.event.id in KeyOrder(items) then KeyOrder(items) else KeyOrder(items) + [item.event.id]
  {
    assert (items + [item])[..|items|] == items;
  }

  /** The last entry written for an event: what the map keeps for it. */
  function LastFor(items: seq<MyEvent>, id: nat): (r: Option<MyEvent>)
    ensures r.Some? ==> r.value in items && r.value.event.id == id
    ensures r.None? ==> forall item :: item in items ==> item.event.id != id
  {
    if items == [] then None
    else
      var last := items[|items| - 1];
      assert items == items[..|items| - 1] + [last];
      if last.event.id == id then Some(last) else LastFor(items[..|items| - 1], id)
  }

  /** The map holds exactly the listed events, each with its last entry. */
  lemma {:induction false} EventsMapIsLast(items: seq<MyEvent>, id: nat)
    ensures id in EventsMap(items) <==> LastFor(items, id).Some?
    ensures id in EventsMap(items) ==> EventsMap(items)[id] == LastFor(items, id).value
  {
    if items != [] {
      EventsMapIsLast(items[..|items| - 1], id);
    }
  }

  /** A later batch overrides an earlier one for the events it names. */
  lemma {:induction false} LastForConcat(a: seq<MyEvent>, b: seq<MyEvent>, id: nat)
    ensures LastFor(a + b, id) == if LastFor(b, id).Some? then LastFor(b, id) else LastFor(a, id)
  {
    if b != [] {
      assert (a + b)[..|a + b| - 1] == a + b[..|b| - 1];
      LastForConcat(a, b[..|b| - 1], id);
    } else {
      assert a + b == a;
    }
  }

  /** The map's values in insertion order. */
  function Values(m: map<nat, MyEvent>, keys: seq<nat>): (vs: seq<MyEvent>)
    requires forall k :: k in keys ==> k in m
    ensures |vs| == |keys|
    ensures forall i :: 0 <= i < |keys| ==> vs[i] == m[keys[i]]
  {
    seq(|keys|, i requires 0 <= i < |keys| => m[keys[i]])
  }

  /** The `my_events` list: registrations, then attendances, merged by
      event id, sorted by date-time, newest first. */
  function MyEvents(regs: seq<EventRef>, atts: seq<Option<EventRef>>): seq<MyEvent> {
    var items := RegisteredItems(regs) + AttendedItems(atts);
    SortDesc(Values(EventsMap(items), KeyOrder(items)), SortDate)
  }

  /** The two loops filling `events_map`, registrations first. */
  method MergeEvents(regs: seq<EventRef>, atts: seq<Option<EventRef>>) returns (m: map<nat, MyEvent>, keys: seq<nat>)
    ensures m == EventsMap(RegisteredItems(regs) + AttendedItems(atts))
    ensures keys == KeyOrder(RegisteredItems(regs) + AttendedItems(atts))
  {
    var registered := RegisteredItems(regs);
    var attended := AttendedItems(atts);
    m, keys := WriteEvents(map[], [], [], registered);
    assert [] + registered == registered;
    m, keys := WriteEvents(m, keys, registered, attended);
  }

  /** One of the two loops: `events_map[item.event.id] = item` for each
      item, on top of what earlier items wrote. */
  method WriteEvents(m0: map<nat, MyEvent>, keys0: seq<nat>, prior: seq<MyEvent>, items: seq<MyEvent>)
    returns (m: map<nat, MyEvent>, keys: seq<nat>)
    requires m0 == EventsMap(prior) && keys0 == KeyOrder(prior)
    ensures m == EventsMap(prior + items) && keys == KeyOrder(prior + items)
  {
    m, keys := m0, keys0;
    assert prior + items[..0] == prior;
    for j := 0 to |items|
      invariant m == EventsMap(prior + items[..j]) && keys == KeyOrder(prior + items[..j])
    {
      var done := prior + items[..j];
      assert prior + items[..j + 1] == done + [items[j]] by {
        assert items[..j + 1] == items[..j] + [items[j]];
        AppendAssoc(prior, items[..j], [items[j]]);
      }
      WriteSnoc(done, items[j]);
      var item := items[j];
      if item.event.id !in keys {
        keys := keys + [item.event.id];
      }
      m := m[item.event.id := item];
    }
    assert items[..|items|] == items;
  }

  /** The entries in the order the two loops write them. */
  function MergedItems(regs: seq<EventRef>, atts: seq<Option<EventRef>>): seq<MyEvent> {
    RegisteredItems(regs) + AttendedItems(atts)
  }

  /** An entry is listed exactly when it is the last one written for its
      event. */
  lemma InMyEvents(regs: seq<EventRef>, atts: seq<Option<EventRef>>, item: MyEvent)
    ensures item in MyEvents(regs, atts) <==> LastFor(MergedItems(regs, atts), item.event.id) == Some(item)
  {
    var items := MergedItems(regs, atts);
    var m := EventsMap(items);
    var keys := KeyOrder(items);
    var vs := Values(m, keys);
    EventsMapIsLast(items, item.event.id);
    assert item in MyEvents(regs, atts) <==> item in multiset(vs);
    if item.event.id in m {
      var p :| 0 <= p < |keys| && keys[p] == item.event.id;
      assert vs[p] == m[item.event.id];
    }
  }

  /** `my_events` is sorted by date-time, newest first, and lists each
      event once. */
  lemma MyEventsOnePerEvent(regs: seq<EventRef>, atts: seq<Option<EventRef>>)
    ensures var es := MyEvents(regs, atts);
      && SortedDesc(es, SortDate)
      && (forall i, j :: 0 <= i < j < |es| ==> es[i].event.id != es[j].event.id)
  {
    var items := MergedItems(regs, atts);
    var m := EventsMap(items);
    var keys := KeyOrder(items);
    var vs := Values(m, keys);
    var es := SortDesc(vs, SortDate);
    assert Distinct(vs) by {
      forall i, j | 0 <= i < j < |vs| ensures vs[i] != vs[j] {
        assert vs[i].event.id == keys[i] && vs[j].event.id == keys[j];
      }
    }
    PermutationKeepsDistinct(vs, es);
    forall i, j | 0 <= i < j < |es| ensures es[i].event.id != es[j].event.id {
      assert es[i] in multiset(vs) && es[j] in multiset(vs);
      SameIdSameEntry(m, keys, es[i], es[j]);
    }
  }

  /** Every registered or attended event is listed. */
  lemma MyEventsCoverAll(regs: seq<EventRef>, atts: seq<Option<EventRef>>, e: EventRef)
    requires e in regs || Some(e) in atts
    ensures exists item :: item in MyEvents(regs, atts) && item.event.id == e.id
  {
    var items := MergedItems(regs, atts);
    if e in regs {
      var r :| 0 <= r < |regs| && regs[r] == e;
      assert RegisteredItems(regs)[r] in items;
    } else {
      assert MyEvent(e, "PRESENT", "Attended") in AttendedItems(atts);
    }
    var last := LastFor(items, e.id).value;
    InMyEvents(regs, atts, last);
  }

  /** For an event the user attended, the listed entry is the attendance
      one, whatever registration there was. */
  lemma MyEventsAttendanceWins(regs: seq<EventRef>, atts: seq<Option<EventRef>>, item: MyEvent)
    requires item in MyEvents(regs, atts)
    requires exists a :: Some(a) in atts && a.id == item.event.id
    ensures item.status == "PRESENT" && item.display == "Attended" && Some(item.event) in atts
  {
    var a :| Some(a) in atts && a.id == item.event.id;
    assert MyEvent(a, "PRESENT", "Attended") in AttendedItems(atts);
    InMyEvents(regs, atts, item);
    LastForConcat(RegisteredItems(regs), AttendedItems(atts), item.event.id);
  }

  /** Two listed values with the same event id are the same entry. */
  lemma SameIdSameEntry(m: map<nat, MyEvent>, keys: seq<nat>, x: MyEvent, y: MyEvent)
    requires forall k :: k in keys ==> k in m
    requires forall id :: id in m ==> m[id].event.id == id
    requires x in Values(m, keys) && y in Values(m, keys)
    ensures x.event.id == y.event.id ==> x == y
  {
  }

  // ---------------------------------------------------------------------
  // The view
  // ---------------------------------------------------------------------

  /** How the view answers: a redirect to a club page, a server error (a
      coordinator without a club), or the dashboard page. */
  datatype DashboardOutcome =
    | ClubRedirect(clubId: nat)
    | Crash
    | Page(dashboards: seq<DashboardEntry>, isSacAdmin: bool, myEvents: seq<MyEvent>)

  /** `student_dashboard(request)`. `coordinatedClubs` are the ids of the
      user's coordinated clubs in the order `.first()` reads them (by id);
      `regs` the events of the user's active registrations; `atts` the events
      of the user's `PRESENT` attendances. */
  method StudentDashboard(authenticated: bool, roles: RolesField, coordinatedClubs: seq<nat>, advised: nat,
                          regs: seq<EventRef>, atts: seq<Option<EventRef>>)
    returns (outcome: DashboardOutcome)
    ensures var rs := UserRoles(authenticated, roles);
      && (CoordinatorLike(rs) && coordinatedClubs != [] ==> outcome == ClubRedirect(coordinatedClubs[0]))
      && (CoordinatorLike(rs) && coordinatedClubs == [] ==> outcome == Crash)
      && (!CoordinatorLike(rs) ==> outcome == Page(
            SwitcherEntries(Groups, rs, advised),
            IsSacOrAdmin(rs),
            if authenticated then MyEvents(regs, atts) else []))
  {
    var userRoles := UserRoles(authenticated, roles);
    if CoordinatorLike(userRoles) {
      if coordinatedClubs == [] {
        return Crash;
      }
      return ClubRedirect(coordinatedClubs[0]);
    }
    var dashboards := BuildSwitcher(userRoles, advised);
    var myEvents: seq<MyEvent> := [];
    if authenticated {
      var m, keys := MergeEvents(regs, atts);
      myEvents := SortDesc(Values(m, keys), SortDate);
    }
    var isSacAdmin := IsSacOrAdmin(userRoles);
    return Page(dashboards, isSacAdmin, myEvents);
  }

  /** A visitor who is not logged in, or whose roles are not a list, sees
      no switcher entry and is not a SAC admin. */
  lemma NoRolesNoSwitcher(authenticated: bool, roles: RolesField, advised: nat)
    requires !authenticated || roles.NotAList?
    ensures SwitcherEntries(Groups, UserRoles(authenticated, roles), advised) == []
    ensures !IsSacOrAdmin(UserRoles(authenticated, roles))
  {
    NoRolesNoEntries(Groups, advised);
  }
}
