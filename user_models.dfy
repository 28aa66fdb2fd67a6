/** The users app's models: the fifteen roles, the user record with its
    username rule and display string, and the notification with its
    defaults and display string. */
module UserModels {
  import opened Wrappers
  import opened Text
  import opened Collections

  datatype Role =
    | SacCoordinator | CoCoordinator | DepartmentAdmin | President | Svp
    | Secretary | Treasurer | DepartmentVp | ClubCoordinator | ClubAdvisor
    | EventOrganizer | StudentVolunteer | Student | Faculty | Admin
  {
    /** The string stored in a user's `roles` list. */
    function Value(): string {
      match this
      case SacCoordinator => "SAC_COORDINATOR"
      case CoCoordinator => "CO_COORDINATOR"
      case DepartmentAdmin => "DEPARTMENT_ADMIN"
      case President => "PRESIDENT"
      case Svp => "SVP"
      case Secretary => "SECRETARY"
      case Treasurer => "TREASURER"
      case DepartmentVp => "DEPARTMENT_VP"
      case ClubCoordinator => "CLUB_COORDINATOR"
      case ClubAdvisor => "CLUB_ADVISOR"
      case EventOrganizer => "EVENT_ORGANIZER"
      case StudentVolunteer => "STUDENT_VOLUNTEER"
      case Student => "STUDENT"
      case Faculty => "FACULTY"
      case Admin => "ADMIN"
    }

    function Label(): string {
      match this
      case SacCoordinator => "SAC Coordinator"
      case CoCoordinator => "Co-Coordinator"
      case DepartmentAdmin => "Department Admin"
      case President => "President"
      case Svp => "Senior VP"
      case Secretary => "Secretary"
      case Treasurer => "Treasurer"
      case DepartmentVp => "Department VP"
      case ClubCoordinator => "Club Coordinator"
      case ClubAdvisor => "Club Advisor"
      case EventOrganizer => "Event Organizer"
      case StudentVolunteer => "Student Volunteer"
      case Student => "Student"
      case Faculty => "Faculty"
      case Admin => "Admin"
    }
  }

  /** The roles in declaration order. */
  const AllRoles: seq<Role> := [
    SacCoordinator, CoCoordinator, DepartmentAdmin, President, Svp,
    Secretary, Treasurer, DepartmentVp, ClubCoordinator, ClubAdvisor,
    EventOrganizer, StudentVolunteer, Student, Faculty, Admin]

  /** The role whose stored value is `s`, if any. */
  function RoleFromValue(s: string): (r: Option<Role>)
    ensures r.Some? ==> r.value.Value() == s
  {
    if s == "SAC_COORDINATOR" then Some(SacCoordinator)
    else if s == "CO_COORDINATOR" then Some(CoCoordinator)
    else if s == "DEPARTMENT_ADMIN" then Some(DepartmentAdmin)
    else if s == "PRESIDENT" then Some(President)
    else if s == "SVP" then Some(Svp)
    else if s == "SECRETARY" then Some(Secretary)
    else if s == "TREASURER" then Some(Treasurer)
    else if s == "DEPARTMENT_VP" then Some(DepartmentVp)
    else if s == "CLUB_COORDINATOR" then Some(ClubCoordinator)
    else if s == "CLUB_ADVISOR" then Some(ClubAdvisor)
    else if s == "EVENT_ORGANIZER" then Some(EventOrganizer)
    else if s == "STUDENT_VOLUNTEER" then Some(StudentVolunteer)
    else if s == "STUDENT" then Some(Student)
    else if s == "FACULTY" then Some(Faculty)
    else if s == "ADMIN" then Some(Admin)
    else None
  }

  lemma RoleValueRoundTrip(r: Role)
    ensures RoleFromValue(r.Value()) == Some(r)
  {
  }

  /** There are exactly fifteen roles and no two share a stored value. */
  lemma RolesDistinct()
    ensures |AllRoles| == 15 && Distinct(AllRoles)
    ensures forall r: Role :: r in AllRoles
    ensures forall a: Role, b: Role :: a.Value() == b.Value() ==> a == b
  {
    forall r: Role ensures r in AllRoles {
      match r
        case SacCoordinator => assert AllRoles[0] == r;
        case CoCoordinator => assert AllRoles[1] == r;
        case DepartmentAdmin => assert AllRoles[2] == r;
        case President => assert AllRoles[3] == r;
        case Svp => assert AllRoles[4] == r;
        case Secretary => assert AllRoles[5] == r;
        case Treasurer => assert AllRoles[6] == r;
        case DepartmentVp => assert AllRoles[7] == r;
        case ClubCoordinator => assert AllRoles[8] == r;
        case ClubAdvisor => assert AllRoles[9] == r;
        case EventOrganizer => assert AllRoles[10] == r;
        case StudentVolunteer => assert AllRoles[11] == r;
        case Student => assert AllRoles[12] == r;
        case Faculty => assert AllRoles[13] == r;
        case Admin => assert AllRoles[14] == r;
    }
    forall a: Role, b: Role | a.Value() == b.Value() ensures a == b {
      RoleValueRoundTrip(a);
      RoleValueRoundTrip(b);
    }
  }

  // ---------------------------------------------------------------------
  // User
  // ---------------------------------------------------------------------

  /** The user fields the application reads. `roles` is the JSON list of
      role strings; `first_name`/`last_name` are never null, `roll_no` and
      `email` may be. */
  datatype UserRecord = UserRecord(
    username: string, firstName: string, lastName: string,
    rollNo: Option<string>, email: Option<string>, roles: seq<string>)

  /** Python truthiness of a nullable string. */
  predicate Filled(s: Option<string>) { s.Some? && s.value != "" }

  /** `Role.STUDENT in self.roles and self.roll_no` */
  predicate IsStudentWithRoll(u: UserRecord) {
    Student.Value() in u.roles && Filled(u.rollNo)
  }

  /** What `save()` writes: a student with a roll number gets it as
      username; nothing else changes. */
  function Saved(u: UserRecord): (r: UserRecord)
    ensures IsStudentWithRoll(u) ==> r.username == u.rollNo.value
    ensures !IsStudentWithRoll(u) ==> r.username == u.username
    ensures r.(username := u.username) == u
  {
    if IsStudentWithRoll(u) then u.(username := u.rollNo.value) else u
  }

  /** Saving twice writes what saving once did. */
  lemma SaveIdempotent(u: UserRecord)
    ensures Saved(Saved(u)) == Saved(u)
  {
  }

  /** `get_full_name()`: first and last name joined by a space, stripped. */
  function FullName(u: UserRecord): string {
    Strip(u.firstName + " " + u.lastName)
  }

  /** `str(x)` of a nullable string field. */
  function ShowOptional(s: Option<string>): string {
    match s
    case Some(v) => v
    case None => "None"
  }

  /** `__str__`: the full name followed by the roll number in parentheses
      for a student who has one, otherwise by the e-mail address. */
  function UserLabel(u: UserRecord): (s: string)
    ensures |FullName(u)| < |s| && s[..|FullName(u)|] == FullName(u)
    ensures IsStudentWithRoll(u) ==> s[|FullName(u)|..] == " (" + u.rollNo.value + ")"
    ensures !IsStudentWithRoll(u) ==> s[|FullName(u)|..] == " (" + ShowOptional(u.email) + ")"
  {
    if IsStudentWithRoll(u) then FullName(u) + " (" + u.rollNo.value + ")"
    else FullName(u) + " (" + ShowOptional(u.email) + ")"
  }

  /** Once saved, a student with a roll number is displayed with the
      username they log in with. */
  lemma SavedStudentShowsUsername(u: UserRecord)
    requires IsStudentWithRoll(u)
    ensures UserLabel(Saved(u)) == FullName(u) + " (" + Saved(u).username + ")"
  {
  }

  /** `roll_no` is `unique=True`: no two users share a roll number (several
      may have none). */
  ghost predicate RollNumbersUnique(users: map<nat, UserRecord>) {
    forall a, b :: a in users && b in users && a != b && users[a].rollNo.Some? && users[b].rollNo.Some? ==>
      users[a].rollNo != users[b].rollNo
  }

  /** Two different students with roll numbers, once saved, have different
      usernames. */
  lemma SavedStudentUsernamesDistinct(users: map<nat, UserRecord>, a: nat, b: nat)
    requires RollNumbersUnique(users) && a in users && b in users && a != b
    requires IsStudentWithRoll(users[a]) && IsStudentWithRoll(users[b])
    ensures Saved(users[a]).username != Saved(users[b]).username
  {
  }

  /** A user object, whose `save()` rewrites its own username. */
  class User {
    var username: string
    var firstName: string
    var lastName: string
    var rollNo: Option<string>
    var email: Option<string>
    var roles: seq<string>

    function Record(): UserRecord
      reads this
    {
      UserRecord(username, firstName, lastName, rollNo, email, roles)
    }

    /** A new user: `roles` defaults to the empty list. */
    constructor (username: string, firstName: string, lastName: string, rollNo: Option<string>, email: Option<string>)
      ensures Record() == UserRecord(username, firstName, lastName, rollNo, email, [])
    {
      this.username := username;
      this.firstName := firstName;
      this.lastName := lastName;
      this.rollNo := rollNo;
      this.email := email;
      this.roles := [];
    }

    /** `save()` */
    method Save()
      modifies this
      ensures Record() == Saved(old(Record()))
    {
      if Student.Value() in roles && rollNo.Some? && rollNo.value != "" {
        username := rollNo.value;
      }
    }
  }

  // ---------------------------------------------------------------------
  // Notification
  // ---------------------------------------------------------------------

  /** A notification row; `createdAt` is the creation time in clock ticks. */
  datatype Notification = Notification(userId: nat, message: string, important: bool, createdAt: int, read: bool)

  /** A notification created with only its user and message: not important
      and not read. */
  function NewNotification(userId: nat, message: string, now: int): (n: Notification)
    ensures !n.read && !n.important
    ensures n.userId == userId && n.message == message && n.createdAt == now
  {
    Notification(userId, message, false, now, false)
  }

  const PreviewLength: nat := 40

  /** `message[:40]`, followed by `...` only when something was cut. */
  function Preview(message: string): (p: string)
    ensures |message| <= PreviewLength ==> p == message
    ensures |message| > PreviewLength ==>
      |p| == PreviewLength + 3 && p[..PreviewLength] == message[..PreviewLength] && p[PreviewLength..] == "..."
  {
    PySliceTo(message, PreviewLength) + (if |message| > PreviewLength then "..." else "")
  }

  /** `__str__`: `"To: <user> | <preview>"`. */
  function NotificationLabel(user: string, message: string): string {
    "To: " + user + " | " + Preview(message)
  }

  /** The label never shows more than 40 characters of the message plus the
      ellipsis. */
  lemma NotificationLabelBound(user: string, message: string)
    ensures |NotificationLabel(user, message)| <= |user| + 7 + PreviewLength + 3
    ensures |NotificationLabel(user, message)| <= |user| + 7 + |message| + 3
  {
  }
}
