/** `dashboard_redirect(request, role)` (sac_project/role_dashboards.py):
    the route a role string leads to. */
module RoleDashboards {
  import opened Wrappers
  import opened Text
  import opened UserModels

  const StudentDashboard: string := "student-dashboard"
  const AdminDashboard: string := "admin-dashboard-template"

  /** The twelve mapped role strings and their route names. */
  const Routes: map<string, string> := map[
    "CLUB_COORDINATOR" := "club-coordinator-dashboard-template",
    "EVENT_ORGANIZER" := "event-organizer-dashboard-template",
    "SAC_COORDINATOR" := AdminDashboard,
    "ADMIN" := AdminDashboard,
    "DEPARTMENT_ADMIN" := "department-admin-dashboard-template",
    "PRESIDENT" := StudentDashboard,
    "SVP" := "svp-dashboard-template",
    "SECRETARY" := "secretary-dashboard-template",
    "TREASURER" := "treasurer-dashboard-template",
    "CLUB_ADVISOR" := "club-advisor-dashboard-template",
    "STUDENT_VOLUNTEER" := "student-volunteer-dashboard-template",
    "FACULTY" := "faculty-dashboard-template"]

  /** The route `dashboard_redirect` sends to: the role is upper-cased (None
      read as "") and looked up; anything unmapped goes to the student
      dashboard. */
  function DashboardRoute(role: Option<string>): (route: string)
    ensures route == StudentDashboard || route in Routes.Values
  {
    var norm := Upper(role.GetOr(""));
    if norm in Routes && Routes[norm] != "" then Routes[norm] else StudentDashboard
  }

  /** Where each of the fifteen roles leads, written per role. */
  function RoleDashboard(r: Role): string {
    match r
    case ClubCoordinator => "club-coordinator-dashboard-template"
    case EventOrganizer => "event-organizer-dashboard-template"
    case SacCoordinator => AdminDashboard
    case Admin => AdminDashboard
    case DepartmentAdmin => "department-admin-dashboard-template"
    case President => StudentDashboard
    case Svp => "svp-dashboard-template"
    case Secretary => "secretary-dashboard-template"
    case Treasurer => "treasurer-dashboard-template"
    case ClubAdvisor => "club-advisor-dashboard-template"
    case StudentVolunteer => "student-volunteer-dashboard-template"
    case Faculty => "faculty-dashboard-template"
    case CoCoordinator => StudentDashboard
    case DepartmentVp => StudentDashboard
    case Student => StudentDashboard
  }

  /** A role's stored value has no lower-case letter. */
  lemma RoleValueUpper(r: Role)
    ensures Upper(r.Value()) == r.Value()
  {
    match r
    case SacCoordinator => UpperNoLower(SacCoordinator.Value());
    case CoCoordinator => UpperNoLower(CoCoordinator.Value());
    case DepartmentAdmin => UpperNoLower(DepartmentAdmin.Value());
    case President => UpperNoLower(President.Value());
    case Svp => UpperNoLower(Svp.Value());
    case Secretary => UpperNoLower(Secretary.Value());
    case Treasurer => UpperNoLower(Treasurer.Value());
    case DepartmentVp => UpperNoLower(DepartmentVp.Value());
    case ClubCoordinator => UpperNoLower(ClubCoordinator.Value());
    case ClubAdvisor => UpperNoLower(ClubAdvisor.Value());
    case EventOrganizer => UpperNoLower(EventOrganizer.Value());
    case StudentVolunteer => UpperNoLower(StudentVolunteer.Value());
    case Student => UpperNoLower(Student.Value());
    case Faculty => UpperNoLower(Faculty.Value());
    case Admin => UpperNoLower(Admin.Value());
  }

  /** Every role reaches its route, whatever the letter case of the string
      naming it: `SAC_COORDINATOR` and `ADMIN` share the admin dashboard;
      `PRESIDENT`, `CO_COORDINATOR`, `DEPARTMENT_VP` and `STUDENT` fall to the
      student dashboard. */
  lemma DashboardForRole(r: Role, spelled: string)
    requires Upper(spelled) == r.Value()
    ensures DashboardRoute(Some(spelled)) == RoleDashboard(r)
  {
    RouteOfRole(r);
  }

  /** The map entry for a role's stored value, if any, is its dashboard. */
  lemma RouteOfRole(r: Role)
    ensures var v := r.Value();
      if v in Routes && Routes[v] != "" then Routes[v] == RoleDashboard(r) else RoleDashboard(r) == StudentDashboard
  {
    match r
    case SacCoordinator => {}
    case CoCoordinator => {}
    case DepartmentAdmin => {}
    case President => {}
    case Svp => {}
    case Secretary => {}
    case Treasurer => {}
    case DepartmentVp => {}
    case ClubCoordinator => {}
    case ClubAdvisor => {}
    case EventOrganizer => {}
    case StudentVolunteer => {}
    case Student => {}
    case Faculty => {}
    case Admin => {}
  }

  /** `ADMIN` and `SAC_COORDINATOR` lead to the same dashboard. */
  lemma AdminRolesShareDashboard()
    ensures DashboardRoute(Some("admin")) == DashboardRoute(Some("SAC_COORDINATOR")) == AdminDashboard
  {
    assert Upper("admin") == Admin.Value();
    DashboardForRole(Admin, "admin");
    RoleValueUpper(SacCoordinator);
    DashboardForRole(SacCoordinator, SacCoordinator.Value());
  }

  /** Upper-casing twice is upper-casing once. */
  lemma UpperIdempotent(s: string)
    ensures Upper(Upper(s)) == Upper(s)
  {
  }

  lemma UpperOfLower(s: string)
    ensures Upper(Lower(s)) == Upper(s)
  {
    assert forall i :: 0 <= i < |s| ==> Upper(Lower(s))[i] == Upper(s)[i];
  }

  /** The lookup ignores letter case. */
  lemma DashboardCaseInsensitive(s: string)
    ensures DashboardRoute(Some(s)) == DashboardRoute(Some(Upper(s))) == DashboardRoute(Some(Lower(s)))
  {
    UpperIdempotent(s);
    UpperOfLower(s);
  }

  /** A missing role, the empty string and any string outside the map go
      to the student dashboard. */
  lemma UnmappedGoesToStudent(role: Option<string>)
    requires Upper(role.GetOr("")) !in Routes
    ensures DashboardRoute(role) == StudentDashboard
  {
  }

  lemma MissingRoleGoesToStudent()
    ensures DashboardRoute(None) == DashboardRoute(Some("")) == StudentDashboard
  {
    assert Upper("") == "";
  }
}
