/** The SAC admin views (sac_project/admin_views.py): assigning and removing
    club coordinators, and the student search behind the assignment form. */
module AdminViews {
  import opened Wrappers
  import opened Text
  import opened Collections
  import opened UserModels
  import opened CoordinatorRoles

  /** `'SAC_COORDINATOR' in roles or 'ADMIN' in roles` */
  predicate IsSacOrAdmin(roles: seq<string>) {
    SacCoordinator.Value() in roles || Admin.Value() in roles
  }

  /** How `assign_club_coordinator` answers: a redirect away for callers
      without permission, the form (for a GET, or after an error such as an
      unknown student or club), or a redirect back after a POST. */
  datatype AssignOutcome = Denied | ShowForm | Failed | Redirected

  /** The relation after a POST. */
  function AssignCoordinators(coordinators: map<nat, set<nat>>, studentId: nat, clubId: nat, action: string): map<nat, set<nat>>
    requires clubId in coordinators
  {
    if action == "add" then coordinators[clubId := coordinators[clubId] + {studentId}]
    else if action == "remove" then coordinators[clubId := coordinators[clubId] - {studentId}]
    else coordinators
  }

  /** The user table after a POST. For `add` the view tags its copy of the
      student and saves it before adding the pair, so the receiver finds the
      tag already there. For `remove` the receiver runs first on a fresh copy;
      then the view, holding the copy it loaded before, drops the tag from
      that copy and saves it when no coordinated club remains. */
  function AssignUsers(users: map<nat, UserRecord>, coordinators: map<nat, set<nat>>, studentId: nat, clubId: nat, action: string): map<nat, UserRecord>
    requires studentId in users && clubId in coordinators
  {
    var student := users[studentId];
    var coordinators' := AssignCoordinators(coordinators, studentId, clubId, action);
    if action == "add" then
      var users1 := users[studentId := AddTag(student)];
      var missing: set<nat> := if studentId in coordinators[clubId] then {} else {studentId};
      SignalEffect(users1, coordinators', ClubSide(clubId), "post_add", missing)
    else if action == "remove" then
      var users1 := SignalEffect(users, coordinators', ClubSide(clubId), "post_remove", {studentId});
      if !Coordinates(coordinators', studentId) && Tag() in student.roles then
        users1[studentId := Saved(student.(roles := RemoveFirst(student.roles, Tag())))]
      else users1
    else users
  }

  /** `assign_club_coordinator(request)` */
  method AssignClubCoordinator(reg: CoordinatorRegistry, callerRoles: seq<string>, isPost: bool, studentId: nat, clubId: nat, action: string)
    returns (outcome: AssignOutcome)
    modifies reg
    ensures !IsSacOrAdmin(callerRoles) ==> outcome == Denied
    ensures IsSacOrAdmin(callerRoles) && !isPost ==> outcome == ShowForm
    ensures IsSacOrAdmin(callerRoles) && isPost && (studentId !in old(reg.users) || clubId !in old(reg.coordinators)) ==>
      outcome == Failed
    ensures outcome != Redirected ==> reg.users == old(reg.users) && reg.coordinators == old(reg.coordinators)
    ensures outcome == Redirected <==>
      IsSacOrAdmin(callerRoles) && isPost && studentId in old(reg.users) && clubId in old(reg.coordinators)
    ensures outcome == Redirected ==>
      && reg.coordinators == AssignCoordinators(old(reg.coordinators), studentId, clubId, action)
      && reg.users == AssignUsers(old(reg.users), old(reg.coordinators), studentId, clubId, action)
  {
    if SacCoordinator.Value() !in callerRoles && Admin.Value() !in callerRoles {
      return Denied;
    }
    if !isPost {
      return ShowForm;
    }
    if studentId !in reg.users || clubId !in reg.coordinators {
      return Failed;
    }
    var student := reg.users[studentId];
    if action == "add" {
      if Tag() !in student.roles {
        student := Saved(student.(roles := student.roles + [Tag()]));
        reg.users := reg.users[studentId := student];
      }
      reg.AddCoordinator(clubId, studentId);
    } else if action == "remove" {
      reg.RemoveCoordinator(clubId, studentId);
      if !Coordinates(reg.coordinators, studentId) {
        if Tag() in student.roles {
          student := Saved(student.(roles := RemoveFirst(student.roles, Tag())));
          reg.users := reg.users[studentId := student];
        }
      }
    }
    return Redirected;
  }

  /** After `add` the student coordinates the club and carries the tag
      exactly once; every coordinator stays tagged. */
  lemma AssignAddEffect(users: map<nat, UserRecord>, coordinators: map<nat, set<nat>>, studentId: nat, clubId: nat)
    requires studentId in users && clubId in coordinators
    requires TaggedCoordinators(users, coordinators) && TagAtMostOnce(users)
    ensures var users' := AssignUsers(users, coordinators, studentId, clubId, "add");
      var coordinators' := AssignCoordinators(coordinators, studentId, clubId, "add");
      && studentId in coordinators'[clubId]
      && Tag() in users'[studentId].roles
      && TaggedCoordinators(users', coordinators')
      && TagAtMostOnce(users')
  {
    var users1 := users[studentId := AddTag(users[studentId])];
    if Tag() !in users[studentId].roles {
      CountAppend(users[studentId].roles, Tag(), Tag());
    }
    var coordinators' := AssignCoordinators(coordinators, studentId, clubId, "add");
    var missing: set<nat> := if studentId in coordinators[clubId] then {} else {studentId};
    assert TaggedCoordinators(users1, coordinators');
    SignalKeepsTagAtMostOnce(users1, coordinators', ClubSide(clubId), "post_add", missing);
  }

  /** The view's own tag removal after `remove` repeats what the receiver
      already did: the table is exactly the receiver's result. */
  lemma RemoveViewStepRedundant(users: map<nat, UserRecord>, coordinators: map<nat, set<nat>>, studentId: nat, clubId: nat)
    requires studentId in users && clubId in coordinators
    ensures AssignUsers(users, coordinators, studentId, clubId, "remove") ==
      SignalEffect(users, AssignCoordinators(coordinators, studentId, clubId, "remove"), ClubSide(clubId), "post_remove", {studentId})
  {
    var coordinators' := AssignCoordinators(coordinators, studentId, clubId, "remove");
    var users1 := SignalEffect(users, coordinators', ClubSide(clubId), "post_remove", {studentId});
    assert studentId in Affected(users, ClubSide(clubId), {studentId});
    if !Coordinates(coordinators', studentId) && Tag() in users[studentId].roles {
      assert users1[studentId] == Saved(users[studentId].(roles := RemoveFirst(users[studentId].roles, Tag())));
    }
  }

  /** After `remove` the student no longer coordinates the club and keeps the
      tag exactly when they coordinate another one; every remaining
      coordinator stays tagged. */
  lemma AssignRemoveEffect(users: map<nat, UserRecord>, coordinators: map<nat, set<nat>>, studentId: nat, clubId: nat)
    requires studentId in users && clubId in coordinators
    requires TaggedCoordinators(users, coordinators) && TagAtMostOnce(users)
    ensures var users' := AssignUsers(users, coordinators, studentId, clubId, "remove");
      var coordinators' := AssignCoordinators(coordinators, studentId, clubId, "remove");
      && studentId !in coordinators'[clubId]
      && (Tag() in users'[studentId].roles <==> Tag() in users[studentId].roles && Coordinates(coordinators', studentId))
      && TaggedCoordinators(users', coordinators')
      && TagAtMostOnce(users')
  {
    var coordinators' := AssignCoordinators(coordinators, studentId, clubId, "remove");
    RemoveViewStepRedundant(users, coordinators, studentId, clubId);
    assert studentId in Affected(users, ClubSide(clubId), {studentId});
    PostRemoveUntags(users, coordinators', ClubSide(clubId), {studentId});
    RemoveKeepsTagged(users, coordinators, clubId, studentId);
    SignalKeepsTagAtMostOnce(users, coordinators', ClubSide(clubId), "post_remove", {studentId});
  }

  /** An action other than `add` or `remove` changes nothing. */
  lemma AssignOtherActionIgnored(users: map<nat, UserRecord>, coordinators: map<nat, set<nat>>, studentId: nat, clubId: nat, action: string)
    requires studentId in users && clubId in coordinators
    requires action != "add" && action != "remove"
    ensures AssignUsers(users, coordinators, studentId, clubId, action) == users
    ensures AssignCoordinators(coordinators, studentId, clubId, action) == coordinators
  {
  }

  // ---------------------------------------------------------------------
  // get_students_ajax
  // ---------------------------------------------------------------------

  /** One entry of the JSON answer. */
  datatype StudentEntry = StudentEntry(id: nat, name: string, rollNo: Option<string>, email: Option<string>)

  const MaxResults: nat := 20

  /** A student who is not yet a club coordinator. */
  predicate Assignable(u: UserRecord) {
    Student.Value() in u.roles && Tag() !in u.roles
  }

  /** The case-insensitive search on first name, last name and roll number
      (a missing roll number counts as ""). */
  predicate MatchesSearch(u: UserRecord, term: string) {
    var t := Lower(term);
    Contains(Lower(u.firstName), t) || Contains(Lower(u.lastName), t) || Contains(Lower(u.rollNo.GetOr("")), t)
  }

  function Entry(user: (nat, UserRecord)): StudentEntry {
    StudentEntry(user.0, FullName(user.1), user.1.rollNo, user.1.email)
  }

  /** The students the endpoint would list, before the cut to 20: first the
      assignable students, then, for a non-empty term, those that match. */
  function Candidates(users: seq<(nat, UserRecord)>, term: string): seq<(nat, UserRecord)> {
    var students := Filter(users, (p: (nat, UserRecord)) => Assignable(p.1));
    if term != "" then Filter(students, (p: (nat, UserRecord)) => MatchesSearch(p.1, term)) else students
  }

  /** `get_students_ajax(request)`: a 403 for callers who are neither SAC
      coordinators nor admins, else the first 20 candidates. */
  function StudentsAjax(callerRoles: seq<string>, users: seq<(nat, UserRecord)>, term: string): (r: Result<seq<StudentEntry>, nat>)
    ensures r.Failure? <==> !IsSacOrAdmin(callerRoles)
    ensures r.Failure? ==> r.error == 403
    ensures r.Success? ==> |r.value| <= MaxResults
  {
    if !IsSacOrAdmin(callerRoles) then Failure(403)
    else
      var found := Candidates(users, term);
      var shown := found[..Min(MaxResults, |found|)];
      Success(seq(|shown|, i requires 0 <= i < |shown| => Entry(shown[i])))
  }

  /** The candidates are exactly the users that are assignable and (for a
      non-empty term) match it. */
  lemma CandidatesExact(users: seq<(nat, UserRecord)>, term: string, user: (nat, UserRecord))
    ensures user in Candidates(users, term) <==>
      user in users && Assignable(user.1) && (term == "" || MatchesSearch(user.1, term))
  {
  }

  /** Every listed entry is a candidate, and when there are at most 20
      candidates every one of them is listed. */
  lemma StudentsAjaxSound(callerRoles: seq<string>, users: seq<(nat, UserRecord)>, term: string)
    requires IsSacOrAdmin(callerRoles)
    ensures var found := Candidates(users, term);
      var r := StudentsAjax(callerRoles, users, term).value;
      && (forall i :: 0 <= i < |r| ==> r[i] == Entry(found[i]))
      && (|found| <= MaxResults ==> |r| == |found|)
      && (|found| > MaxResults ==> |r| == MaxResults)
  {
  }
}
