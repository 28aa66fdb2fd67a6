# SAC-Hub core, modelled in Dafny

SAC-Hub is a Django site for a college Student Activity Centre. Students, club
coordinators and administrators use it to run clubs, events, attendance and
certificates. This project models the site's core rules in Dafny and proves
properties about them:

- **Attendance reference codes.** Two data migrations give every attendance
  record a short unique `ref_code`:
  - `0004_backfill_ref_code` builds a digits-only base;
  - `0006_normalize_ref_code` builds a letter-led base from the roll number.

  Both resolve collisions with `-1`, `-2`, … suffixes and walk the table one
  record at a time. The model proves the following:
  - the shape of each base;
  - that the collision loop terminates, with at most (number of other
    codes) + 1 tries;
  - that the chosen code is free;
  - that a batch keeps codes distinct;
  - that normalisation is idempotent.
- **Coordinator-role bookkeeping.** The `m2m_changed` receiver and the admin
  view keep the `CLUB_COORDINATOR` tag in a user's role list in step with the
  club→coordinators relation. Two invariants are proved, for both the
  receiver and the view:
  - every coordinator carries the tag;
  - the tag appears at most once.
- **Models.** The following are modelled:
  - the `Role`, `EventStatus` and `AttendanceStatus` choices;
  - the `User.save` username rule;
  - the `__str__` formats;
  - the one-record-per-(event, student) rule of `Attendance`;
  - who `Event.save` notifies, and in what order.
- **Views and filters.** The following are modelled:
  - calendar month navigation and day bucketing;
  - the JSON attendance upsert;
  - the notification filter;
  - the profile's recent activities;
  - the student dashboard's switcher and "my events" merge;
  - the role→dashboard redirect;
  - the four template filters;
  - the certificate app's template lookup, text centring, de-duplication of
    attended events and download fallbacks.

Code that changes state step by step is modelled as methods:
- the migrations' batch loops run over an `AttendanceTable` class;
- the signal receiver runs over a `CoordinatorRegistry` class;
- the attendance upsert runs over an `AttendanceStore` class;
- the notification writes run over a `NotificationLog` class.

Each of these methods is proved against a specification function. Pure
rules are functions, and lemmas relate them.

The rest of the system enters the model as parameters:
- the database (tables as maps and sequences);
- the clock (`now`);
- Python's `calendar.monthcalendar`;
- font metrics (`measure`).

Where the source files disagree with each other, the model follows the file it models:

- **`attendance/models.py` fields.** That file declares `event`, `student`,
  `status` and `timestamp`. The migrations and the certificate views also use
  `session` and `ref_code` fields, which it lacks. Each part of the model uses
  the fields its own source file uses:
  - `AttendanceModels` and the attendance upsert key records by (event, student);
  - `RefCode` and the certificate views go through a session.
- **The coordinator dashboard.** `student_views.py` lines 38-47 build a
  coordinator switcher entry, but they run only after the coordinator
  redirect has already returned: `student_dashboard` redirects every
  `CLUB_COORDINATOR` or `CO_COORDINATOR` user to the first coordinated club,
  and a user who coordinates no club gets a crash from `None.id`. `StudentViews.StudentDashboard`
  states the redirect and the crash.

## Model

| member | source | states |
|---|---|---|
| RefCode.TwoDigitPart | SAC-Hub/attendance/migrations/0006_normalize_ref_code.py:34-35 | The event or session part is exactly two decimal digits, and they read back as the id mod 100 (0 when the id is missing). |
| RefCode.FourDigitPart | SAC-Hub/attendance/migrations/0004_backfill_ref_code.py:30 | The student part is exactly four decimal digits, and they read back as the student id mod 10000. |
| RefCode.CandidateShape | SAC-Hub/attendance/migrations/0006_normalize_ref_code.py:57-60 | After n ≥ 1 collisions the candidate is the upper-cased prefix `base[:32-len(suf)]` followed by `-n`. |
| RefCode.CandidateLastDash | SAC-Hub/attendance/migrations/0006_normalize_ref_code.py:53-60 | The unsuffixed base has no dash, and the text after a suffixed candidate's last dash is the decimal suffix number. |
| RefCode.CandidateInjective | SAC-Hub/attendance/migrations/0006_normalize_ref_code.py:56-60 | For a dash-free base, different suffix counts give different candidates, so the loop never retries a code. |
| RefCode.CollisionsBounded | SAC-Hub/attendance/migrations/0006_normalize_ref_code.py:56-60 | If the first k candidates are all taken, then k is at most the number of other codes. This bounds the loop. |
| RefCode.FirstFree | SAC-Hub/attendance/migrations/0006_normalize_ref_code.py:53-60 | The loop stops at the least suffix count whose candidate is free, and that count is at most the number of other codes. |
| RefCode.ResolveCollision | SAC-Hub/attendance/migrations/0004_backfill_ref_code.py:40-46 | The while loop returns the first free candidate, and the result differs from every other record's code. |
| RefCode.ResolvedCodeFits | SAC-Hub/attendance/migrations/0006_normalize_ref_code.py:53-60 | The resolved code has at most 32 characters and keeps the base's first character. |
| RefCode.ResolvedCodeNonEmpty | SAC-Hub/attendance/migrations/0004_backfill_ref_code.py:40-46 | A non-empty base never resolves to the empty code. |
| RefCode.OtherCodesBound | SAC-Hub/attendance/migrations/0006_normalize_ref_code.py:56 | The codes the loop compares against number at most the rows of the table. |
| RefCode.AssignFreeKeepsDistinct | SAC-Hub/attendance/migrations/0006_normalize_ref_code.py:67-68 | Saving a code that no other record holds keeps all non-empty codes distinct. |
| RefCode.AttendanceTable.constructor | SAC-Hub/attendance/migrations/0006_normalize_ref_code.py:5-6 | The table holds the given attendance rows, sessions and students. |
| NormalizeRefCode.RollPart | SAC-Hub/attendance/migrations/0006_normalize_ref_code.py:23-31 | The roll part is the last ≤ 4 alphanumeric characters of `roll_no`. It is empty exactly when there is no student, no roll number or no alphanumeric character. |
| NormalizeRefCode.DigitBase | SAC-Hub/attendance/migrations/0006_normalize_ref_code.py:33-41 | The base is two digits of event, then two of session, then the upper-cased roll part or four student digits. It is 5 to 8 upper-case or digit characters, so the 28 cap never bites. |
| NormalizeRefCode.PrefixLetter | SAC-Hub/attendance/migrations/0006_normalize_ref_code.py:43-48 | The prefix is an upper-case letter A–Z. |
| NormalizeRefCode.CandidateBase | SAC-Hub/attendance/migrations/0006_normalize_ref_code.py:43-51 | Because the base starts with a digit, the prefix letter is always prepended. The result is 6–9 characters, dash-free, with the letter first. The letter is chosen from `event_id or session_id or student_id`, with 0 counting as missing. |
| NormalizeRefCode.MakeCandidate | SAC-Hub/attendance/migrations/0006_normalize_ref_code.py:8-62 | `make_candidate` returns the normalised code, and that code is held by no other record. |
| NormalizeRefCode.NormalizedCodeShape | SAC-Hub/attendance/migrations/0006_normalize_ref_code.py:50-60 | A normalised code has 1–32 characters and starts with the upper-case prefix letter. |
| NormalizeRefCode.ExampleCode | SAC-Hub/attendance/migrations/0006_normalize_ref_code.py:29-51 | Event 7, session 3, roll `CS042` and no other codes give `H0703S042`. |
| NormalizeRefCode.UnselectedUntouched | SAC-Hub/attendance/migrations/0006_normalize_ref_code.py:64-68 | The loop runs over the query of line 65 only, so a record whose code is already set and led by a letter comes out of the migration unchanged. |
| NormalizeRefCode.NormalizeAllFrame | SAC-Hub/attendance/migrations/0006_normalize_ref_code.py:66-68 | A record the loop does not visit keeps its row. |
| NormalizeRefCode.NormalizeAll | SAC-Hub/attendance/migrations/0006_normalize_ref_code.py:66-68 | The batch keeps the set of records. |
| NormalizeRefCode.NormalizeRefCodes | SAC-Hub/attendance/migrations/0006_normalize_ref_code.py:64-68 | The loop over the selected records leaves the table as the one-at-a-time batch specifies. |
| NormalizeRefCode.NormalizeKeepsDistinct | SAC-Hub/attendance/migrations/0006_normalize_ref_code.py:66-68 | If codes were distinct before the batch, they are distinct after it, because later records see the codes already assigned. |
| NormalizeRefCode.NormalizeAllEffect | SAC-Hub/attendance/migrations/0006_normalize_ref_code.py:66-68 | Each listed record gets a letter-led code of at most 32 characters. Every unlisted record, and every other field, is unchanged. |
| NormalizeRefCode.NormalizeIdempotent | SAC-Hub/attendance/migrations/0006_normalize_ref_code.py:64-68 | After one run no record is selected any more, so a second run changes nothing. |
| BackfillRefCode.BackfillBase | SAC-Hub/attendance/migrations/0004_backfill_ref_code.py:11-38 | The base is exactly 8 decimal digits: event mod 100, session mod 100 ("00" when missing) and student id mod 10000. |
| BackfillRefCode.GenerateCode | SAC-Hub/attendance/migrations/0004_backfill_ref_code.py:10-46 | The backfilled code is held by no other record. |
| BackfillRefCode.BackfillCodeShape | SAC-Hub/attendance/migrations/0004_backfill_ref_code.py:34-46 | The code is non-empty, has at most 32 characters and starts with a digit. So it is exactly the kind of code migration 0006 later selects. |
| BackfillRefCode.BackfillAll | SAC-Hub/attendance/migrations/0004_backfill_ref_code.py:9-49 | The batch keeps the set of records. |
| BackfillRefCode.GenerateRefCodes | SAC-Hub/attendance/migrations/0004_backfill_ref_code.py:4-49 | The loop over records with a null or empty code leaves the table as the one-at-a-time batch specifies. |
| BackfillRefCode.BackfillKeepsDistinct | SAC-Hub/attendance/migrations/0004_backfill_ref_code.py:40-49 | The batch keeps non-empty codes distinct. |
| BackfillRefCode.BackfillAllEffect | SAC-Hub/attendance/migrations/0004_backfill_ref_code.py:8-49 | Each listed record keeps its links and gets a non-empty code which, below 10^30 records, has at most 32 characters and starts with a digit. Every other record is unchanged. Which code each record gets is `BackfillAll` itself: each listed record, in order, gets `GenerateCode` against the table as it stands at its turn. |
| BackfillRefCode.BackfillReadyForUnique | SAC-Hub/attendance/migrations/0004_backfill_ref_code.py:8-49 | After the backfill every record has a non-empty code and all codes are distinct, which is what the following non-null unique migration needs. |
| AttendanceModels.StatusFromValue | SAC-Hub/attendance/models.py:6-8 | Only `PRESENT` and `ABSENT` are statuses. |
| AttendanceModels.StatusValueRoundTrip | SAC-Hub/attendance/models.py:6-8 | A status's stored value reads back as that status. |
| AttendanceModels.RecordFor | SAC-Hub/attendance/models.py:16-17 | The lookup finds the record for an (event, student) pair, or reports that none exists. |
| AttendanceModels.RecordForUnique | SAC-Hub/attendance/models.py:16-17 | Under `unique_together`, the record for a pair is the only one. |
| AttendanceModels.LabelStatusRoundTrip | SAC-Hub/attendance/models.py:19-20 | The status can be read back from the `"<student> - <event> (<status>)"` label. |
| UserModels.RoleFromValue | SAC-Hub/users/models.py:29-44 | A role is read only from its own stored value. |
| UserModels.RoleValueRoundTrip | SAC-Hub/users/models.py:29-44 | Each role's value reads back as that role. |
| UserModels.RolesDistinct | SAC-Hub/users/models.py:29-44 | There are exactly fifteen roles, with pairwise different values. |
| UserModels.Saved | SAC-Hub/users/models.py:62-66 | Saving a student with a roll number sets the username to the roll number. Any other user keeps the username, and nothing else changes. |
| UserModels.SaveIdempotent | SAC-Hub/users/models.py:62-66 | Saving twice is saving once. |
| UserModels.UserLabel | SAC-Hub/users/models.py:68-71 | The label is the full name followed by ` (roll)` for a student with a roll number, and by ` (email)` otherwise. |
| UserModels.SavedStudentShowsUsername | SAC-Hub/users/models.py:62-71 | A saved student's label shows their username. |
| UserModels.SavedStudentUsernamesDistinct | SAC-Hub/users/models.py:48-66 | Because roll numbers are unique, two saved students with roll numbers never share a username. |
| UserModels.User.constructor | SAC-Hub/users/models.py:46-51 | A new user starts with an empty role list. |
| UserModels.User.Save | SAC-Hub/users/models.py:62-66 | `save()` applies the username rule in place. |
| UserModels.NewNotification | SAC-Hub/users/models.py:73-78 | A new notification is unread, not important, and stamped with the creation time. |
| UserModels.Preview | SAC-Hub/users/models.py:80-81 | The preview is the first 40 characters, followed by `...` only when the message is longer than 40. |
| UserModels.NotificationLabelBound | SAC-Hub/users/models.py:80-81 | The label's length is bounded by the user label plus 50, and by the full message's length. |
| CoordinatorRoles.Affected | SAC-Hub/users/signals.py:15-21 | Only existing users are updated: those in `pk_set` on the club side, or the instance itself on the user side. |
| CoordinatorRoles.AddTag | SAC-Hub/users/signals.py:24-26 | The user gets the tag, and a user who already has it is untouched. |
| CoordinatorRoles.DropTag | SAC-Hub/users/signals.py:38-40 | The tag survives only if the user still coordinates a club or held it more than once, since `list.remove` drops a single copy. |
| CoordinatorRoles.SignalEffect | SAC-Hub/users/signals.py:6-40 | The receiver keeps the set of users. |
| CoordinatorRoles.CoordinatorRegistry.constructor | SAC-Hub/users/signals.py:6 | The registry holds the given users and relation. |
| CoordinatorRoles.CoordinatorRegistry.HandleCoordinatorsChanged | SAC-Hub/users/signals.py:6-40 | The receiver updates the user table as the specification function says and leaves the relation alone. |
| CoordinatorRoles.CoordinatorRegistry.AddTags | SAC-Hub/users/signals.py:23-26 | The `post_add` loop over the listed users tags exactly those users, each only if they lack the tag, and touches no one else and not the relation. |
| CoordinatorRoles.CoordinatorRegistry.DropTags | SAC-Hub/users/signals.py:36-40 | The `post_remove` loop untags exactly the listed users who hold the tag and coordinate no club, and touches no one else and not the relation. |
| CoordinatorRoles.CoordinatorRegistry.AddCoordinator | SAC-Hub/users/signals.py:12-26 | `club.coordinators.add(u)` adds the pair, then fires `post_add` for the pair only if it was new. |
| CoordinatorRoles.CoordinatorRegistry.RemoveCoordinator | SAC-Hub/users/signals.py:28-40 | `club.coordinators.remove(u)` removes the pair, then fires `post_remove`. |
| CoordinatorRoles.CoordinatorRegistry.ClearCoordinators | SAC-Hub/users/signals.py:12-28 | `clear()` empties the club's coordinators. The receiver ignores `post_clear`, so no user changes. |
| CoordinatorRoles.PostAddTags | SAC-Hub/users/signals.py:12-26 | After `post_add` every affected user is tagged and everyone else is unchanged. |
| CoordinatorRoles.PostRemoveUntags | SAC-Hub/users/signals.py:28-40 | After `post_remove` an affected user keeps the tag exactly when they still coordinate a club. |
| CoordinatorRoles.OtherActionsIgnored | SAC-Hub/users/signals.py:12-28 | Every other action (`pre_*`, `post_clear`) changes nothing. |
| CoordinatorRoles.SignalKeepsOtherRoles | SAC-Hub/users/signals.py:23-40 | The receiver touches only the tag: the other roles and fields stay, apart from the username the save rule sets. |
| CoordinatorRoles.SignalKeepsTagAtMostOnce | SAC-Hub/users/signals.py:23-40 | The tag never appears twice in a role list. |
| CoordinatorRoles.AddKeepsTagged | SAC-Hub/users/signals.py:12-26 | Adding a coordinator keeps "every coordinator is tagged". |
| CoordinatorRoles.RemoveKeepsTagged | SAC-Hub/users/signals.py:28-40 | Removing a coordinator keeps "every coordinator is tagged". |
| CoordinatorRoles.ClearKeepsTagged | SAC-Hub/users/signals.py:12-28 | Clearing keeps "every coordinator is tagged", though former coordinators keep a stale tag. |
| AdminViews.AssignClubCoordinator | SAC-Hub/sac_project/admin_views.py:10-51 | Non-admins are redirected and a GET shows the form. A POST with an unknown student or club fails and changes nothing. Otherwise the relation and users change as the add/remove specification says. |
| AdminViews.AssignAddEffect | SAC-Hub/sac_project/admin_views.py:26-34 | After `add` the student coordinates the club and is tagged, every coordinator is tagged, and tags stay single. |
| AdminViews.RemoveViewStepRedundant | SAC-Hub/sac_project/admin_views.py:36-44 | The view's own tag removal after `remove` repeats what the receiver already did. |
| AdminViews.AssignRemoveEffect | SAC-Hub/sac_project/admin_views.py:36-44 | After `remove` the student no longer coordinates the club and keeps the tag exactly when they coordinate another club. The invariants hold. |
| AdminViews.AssignOtherActionIgnored | SAC-Hub/sac_project/admin_views.py:26-36 | Any other action changes nothing. |
| AdminViews.StudentsAjax | SAC-Hub/sac_project/admin_views.py:78-110 | The endpoint answers 403 exactly for callers who are neither SAC coordinators nor admins, and otherwise lists at most 20 entries. |
| AdminViews.CandidatesExact | SAC-Hub/sac_project/admin_views.py:85-98 | The candidates are exactly the users who are students, not yet coordinators, and match the case-insensitive search on first name, last name or roll number. |
| AdminViews.StudentsAjaxSound | SAC-Hub/sac_project/admin_views.py:100-108 | The answer is the first 20 candidates, in order. |
| EventModels.EventStatusFromValue | SAC-Hub/events/models.py:5-10 | Only the five status values are statuses. |
| EventModels.EventStatusRoundTrip | SAC-Hub/events/models.py:5-10 | A status's value reads back as that status. |
| EventModels.StatusDisplay | SAC-Hub/events/models.py:66-73 | `get_status_display()` is the choice's label, or the raw string when it is not a choice. |
| EventModels.AdminIds | SAC-Hub/events/models.py:43-44 | The admin recipients are exactly the users whose roles include `ADMIN` or `SAC_COORDINATOR`. |
| EventModels.AdminIdsDistinct | SAC-Hub/events/models.py:43-44 | User ids are primary keys, so the comprehension over `User.objects.all()` lists no admin-like user twice. |
| EventModels.NewPendingEventRecipients | SAC-Hub/events/models.py:41-58 | A new pending event sends one notification per admin-like user plus one per club coordinator. With unique user ids and a coordinator list without repeats (an m2m `.all()`), a user gets exactly one notification per role list they are in: 1 as admin-like only or coordinator only, 2 with both roles, 0 otherwise. |
| EventModels.NewOtherEventRecipients | SAC-Hub/events/models.py:52-58 | A new event that is not pending notifies only the club's coordinators. |
| EventModels.StatusChangeRecipients | SAC-Hub/events/models.py:60-81 | A status change notifies the creator (if any), each organizer and each club coordinator. An unchanged status notifies no one. |
| EventModels.NotificationLog.NotifyAll | SAC-Hub/events/models.py:46-50 | One notification is appended per recipient, in order. |
| EventModels.NotificationLog.NotifyOnSave | SAC-Hub/events/models.py:32-81 | `save()` appends exactly the notifications its specification lists, in creation order. |
| EventModels.NotificationLog.NotifyCreated | SAC-Hub/events/models.py:40-58 | A new event appends the admin notifications (when pending), then the coordinator notifications. |
| EventModels.NotificationLog.NotifyStatusChanged | SAC-Hub/events/models.py:60-81 | A status change appends the creator's notification, then the organizers', then the coordinators'. |
| EventModels.Created | SAC-Hub/events/models.py:47-50 | Each (recipient, message) pair becomes one fresh unread notification. |
| TemplateFilters.HasRole | SAC-Hub/events/templatetags/custom_filters.py:5-10 | `has_role` holds exactly when the user has a role list containing the role. |
| TemplateFilters.HasRoleMissing | SAC-Hub/sac_project/templatetags/__init__.py:5-10 | A missing or empty role list never grants a role. |
| TemplateFilters.Subtract | SAC-Hub/events/templatetags/custom_filters.py:12-18 | The result is `int(value) - int(arg)` when both convert, and 0 otherwise. |
| TemplateFilters.SubtractRoundTrip | SAC-Hub/sac_project/templatetags/__init__.py:12-18 | Numbers rendered as text subtract like the numbers themselves. |
| TemplateFilters.SubtractFailsToZero | SAC-Hub/sac_project/templatetags/__init__.py:15-18 | `None` or a non-numeric string on either side gives 0. |
| TemplateFilters.IsEventOrganizer | SAC-Hub/events/templatetags/custom_filters.py:20-38 | The filter is false for anonymous users. Otherwise it is true exactly for an organizer, a coordinator of the event's club, or the event's creator. |
| TemplateFilters.FindFrom | SAC-Hub/events/templatetags/custom_filters.py:47 | The search finds the first occurrence of the separator at or after a position. |
| TemplateFilters.JoinSplitOn | SAC-Hub/events/templatetags/custom_filters.py:47 | Joining `s.split(sep)` with `sep` gives back `s`. |
| TemplateFilters.SplitOnPiecesClean | SAC-Hub/events/templatetags/custom_filters.py:47 | No piece of `s.split(sep)` contains `sep`. |
| TemplateFilters.Split | SAC-Hub/events/templatetags/custom_filters.py:40-48 | An empty or missing value gives `[]`. An empty separator raises. Otherwise the result has at least one piece. |
| TemplateFilters.SplitJoinRoundTrip | SAC-Hub/events/templatetags/custom_filters.py:40-48 | For a non-empty value, joining the pieces gives back the value, and no piece contains the separator. |
| RoleDashboards.DashboardRoute | SAC-Hub/sac_project/role_dashboards.py:55-75 | The redirect target is always a mapped route or the student dashboard. |
| RoleDashboards.DashboardForRole | SAC-Hub/sac_project/role_dashboards.py:56-73 | Every role, however its name is cased, leads to its own route. The four unmapped roles lead to the student dashboard. |
| RoleDashboards.AdminRolesShareDashboard | SAC-Hub/sac_project/role_dashboards.py:59-60 | `ADMIN` and `SAC_COORDINATOR` share the admin dashboard. |
| RoleDashboards.DashboardCaseInsensitive | SAC-Hub/sac_project/role_dashboards.py:55 | The lookup ignores letter case. |
| RoleDashboards.UnmappedGoesToStudent | SAC-Hub/sac_project/role_dashboards.py:71-75 | Any unmapped string goes to the student dashboard. |
| RoleDashboards.MissingRoleGoesToStudent | SAC-Hub/sac_project/role_dashboards.py:55-75 | A missing or empty role goes to the student dashboard. |
| StudentViews.UserRoles | SAC-Hub/sac_project/student_views.py:28-30 | The roles are the user's list when authenticated and it is a list, and `[]` otherwise. |
| StudentViews.SwitcherEntriesMembers | SAC-Hub/sac_project/student_views.py:49-121 | Every applicable role group gives its entry, and every entry comes from an applicable group. |
| StudentViews.BuildSwitcher | SAC-Hub/sac_project/student_views.py:49-121 | The chain of `if` blocks builds the entries of the applicable groups, in source order. |
| StudentViews.SwitcherUrlsDistinct | SAC-Hub/sac_project/student_views.py:49-121 | No two switcher entries share a URL. |
| StudentViews.SwitcherMembership | SAC-Hub/sac_project/student_views.py:49-121 | A group's entry is listed exactly when the user's roles trigger it, and there are at most nine entries. |
| StudentViews.SecretaryAndTreasurer | SAC-Hub/sac_project/student_views.py:89-96 | A user with both `SECRETARY` and `TREASURER` gets only the secretary entry, never a treasurer one. |
| StudentViews.RegisteredItems | SAC-Hub/sac_project/student_views.py:146-154 | One `REGISTERED`/`Registered` item per registration, in order. |
| StudentViews.AttendedItems | SAC-Hub/sac_project/student_views.py:180-188 | The items are exactly the `PRESENT`/`Attended` items of the attendances whose session and event exist. The others are skipped. |
| StudentViews.EventsMap | SAC-Hub/sac_project/student_views.py:191-199 | The map is keyed by each item's event id. |
| StudentViews.KeyOrder | SAC-Hub/sac_project/student_views.py:191-199 | The dictionary's insertion order lists each key once, and lists exactly the keys. |
| StudentViews.WriteEvents | SAC-Hub/sac_project/student_views.py:194-199 | Each loop writes `events_map[item.event.id] = item` in turn: the result is the map and first-seen key order of everything written so far plus these items, so a later item replaces an earlier one for the same event. |
| StudentViews.MergeEvents | SAC-Hub/sac_project/student_views.py:191-199 | The two loops build the map and its key order from registrations, then attendances. |
| StudentViews.InMyEvents | SAC-Hub/sac_project/student_views.py:191-202 | An item is in `my_events` exactly when it is the last written for its event. |
| StudentViews.MyEventsOnePerEvent | SAC-Hub/sac_project/student_views.py:191-202 | `my_events` is sorted newest first and has one item per event. |
| StudentViews.MyEventsCoverAll | SAC-Hub/sac_project/student_views.py:191-202 | Every registered or attended event appears. |
| StudentViews.MyEventsAttendanceWins | SAC-Hub/sac_project/student_views.py:197-199 | An event that was attended is shown as attended, even if it was also registered. |
| StudentViews.StudentDashboard | SAC-Hub/sac_project/student_views.py:28-206 | A coordinator is redirected to their first club, or crashes with no club. Everyone else gets the switcher, `is_sac_admin`, and `my_events` (empty when anonymous). |
| StudentViews.NoRolesNoSwitcher | SAC-Hub/sac_project/student_views.py:28-30 | Anonymous users and non-list roles get no switcher and are not SAC admins. |
| FrontendViews.PrevMonth | SAC-Hub/sac_project/frontend_views.py:28-31 | The previous month is a valid month, exactly one before. |
| FrontendViews.NextMonth | SAC-Hub/sac_project/frontend_views.py:33-36 | The next month is a valid month, exactly one after. |
| FrontendViews.MonthIndexInjective | SAC-Hub/sac_project/frontend_views.py:28-36 | Distinct valid months have distinct indices, so "one before" and "one after" identify a single month. |
| FrontendViews.PrevNextInverse | SAC-Hub/sac_project/frontend_views.py:28-36 | Previous and next undo each other. |
| FrontendViews.QueryInt | SAC-Hub/sac_project/frontend_views.py:21-22 | A missing parameter gives the default. |
| FrontendViews.CalendarHeader | SAC-Hub/sac_project/frontend_views.py:21-36 | The page renders exactly when both parameters parse, the month is 1–12 and the neighbours stay within years 1–9999. Its months are the requested one and its two neighbours. |
| FrontendViews.CalendarDefaultsToNow | SAC-Hub/sac_project/frontend_views.py:21-25 | Without parameters the calendar shows the current month. |
| FrontendViews.CalendarRejectsBadMonth | SAC-Hub/sac_project/frontend_views.py:21-25 | Month `13` or `x` makes the view fail. |
| FrontendViews.CellFor | SAC-Hub/sac_project/frontend_views.py:57-81 | A day 0 is an other-month cell. A day cell is marked today exactly on today's date and holds exactly the events on that day. |
| FrontendViews.BuildWeek | SAC-Hub/sac_project/frontend_views.py:58-81 | One cell per day of the week. |
| FrontendViews.BuildGrid | SAC-Hub/sac_project/frontend_views.py:54-82 | The grid has the shape of the week list, and each cell is the cell for its day. |
| FrontendViews.GridBuckets | SAC-Hub/sac_project/frontend_views.py:57-81 | Each event lands in the cell of its day, and only there. |
| FrontendViews.StudentOf | SAC-Hub/sac_project/frontend_views.py:128 | A JSON key names a student exactly when it parses as the id of an existing user. |
| FrontendViews.Applied | SAC-Hub/sac_project/frontend_views.py:127-128 | The resolved (student, status) pairs all name existing users. |
| FrontendViews.LastStatus | SAC-Hub/sac_project/frontend_views.py:127-136 | A student has a final status exactly when some resolved pair names them. |
| FrontendViews.MarkOneValid | SAC-Hub/sac_project/frontend_views.py:129-136 | One `get_or_create` keeps one record per (event, student). |
| FrontendViews.MarkOneEffect | SAC-Hub/sac_project/frontend_views.py:129-136 | The pair's record exists with the new status. Other records are unchanged, timestamps are never rewritten, and a new record carries the creation time. |
| FrontendViews.UpsertIsApplied | SAC-Hub/sac_project/frontend_views.py:124-140 | The upsert loop equals applying the resolved prefix, and it succeeds exactly when every key resolves to a user and every status is non-null (a JSON `null` violates the NOT NULL status column). |
| FrontendViews.ApplyAllFrame | SAC-Hub/sac_project/frontend_views.py:127-136 | The batch keeps the record set growing and the records valid, and changes only statuses of existing records. |
| FrontendViews.ApplyAllUnlisted | SAC-Hub/sac_project/frontend_views.py:127-136 | Records of other events or unlisted students are unchanged. |
| FrontendViews.ApplyAllStatus | SAC-Hub/sac_project/frontend_views.py:127-136 | Each listed student's record holds the status given last for them. |
| FrontendViews.ApplyAllCreated | SAC-Hub/sac_project/frontend_views.py:129-133 | New records belong to the event and a listed student, and are stamped now. |
| FrontendViews.AppliedAllResolve | SAC-Hub/sac_project/frontend_views.py:127-128 | When every entry resolves, the pairs follow the JSON entries one for one. |
| FrontendViews.UpsertEffect | SAC-Hub/sac_project/frontend_views.py:124-138 | A fully valid body succeeds, and each listed student ends with their last status. |
| FrontendViews.UpsertStopsAtFirstFailure | SAC-Hub/sac_project/frontend_views.py:127-140 | An unknown student or a null status aborts the loop with `success: false`. The updates already made stay (no transaction). |
| FrontendViews.AppliedPrefix | SAC-Hub/sac_project/frontend_views.py:127-139 | Only the entries before the first bad key or null status are applied. |
| FrontendViews.AttendanceStore.constructor | SAC-Hub/attendance/models.py:10-17 | A new store is empty and valid. |
| FrontendViews.AttendanceStore.Mark | SAC-Hub/sac_project/frontend_views.py:129-136 | One `get_or_create` and status update, in place. |
| FrontendViews.AttendanceStore.Upsert | SAC-Hub/sac_project/frontend_views.py:124-140 | The loop over the JSON entries gives the specified store and success flag. |
| FrontendViews.StatusCount | SAC-Hub/sac_project/frontend_views.py:159-160 | The count of records with a status never exceeds the table's size. |
| FrontendViews.AttendanceManage | SAC-Hub/sac_project/frontend_views.py:110-165 | Without permission nothing changes. Malformed JSON answers `success: false`. A JSON body runs the upsert. Otherwise the page shows the member count and the present and absent counts. |
| FrontendViews.FilterNotifications | SAC-Hub/sac_project/frontend_views.py:243-250 | The list is newest first. For `unread` it holds every copy of each unread notification and no read one; for `read` the reverse; for any other filter it is a permutation of all of them. |
| FrontendViews.ReadSplit | SAC-Hub/sac_project/frontend_views.py:253-255 | Unread and read notifications partition the list. |
| FrontendViews.CountsAddUp | SAC-Hub/sac_project/frontend_views.py:253-255 | total = unread + read. |
| FrontendViews.Tagged | SAC-Hub/sac_project/frontend_views.py:211-222 | Each event becomes one activity with the given role, in order. |
| FrontendViews.Collected | SAC-Hub/sac_project/frontend_views.py:208-222 | At most five organised and five attended activities are collected. |
| FrontendViews.AppendFirstFive | SAC-Hub/sac_project/frontend_views.py:211-222 | The loop appends the first five events of one kind. |
| FrontendViews.RecentActivities | SAC-Hub/sac_project/frontend_views.py:208-226 | The list is newest first, has at most 10 entries, and is a permutation of the collected activities. |
| CertificateViews.FirstTemplate | SAC-Hub/certificate/views.py:122-127 | The result is the template of the first club option with the name, or `sample.jpg` when none matches. |
| CertificateViews.ClubTemplates | SAC-Hub/certificate/views.py:122-127 | Each of the four clubs gets its own template, matched case-sensitively. |
| CertificateViews.UnknownClubGetsSample | SAC-Hub/certificate/views.py:127 | An unknown club gets `sample.jpg`. |
| CertificateViews.ClampX | SAC-Hub/certificate/views.py:193-194 | A clamped x lies within the image, and an x already inside is kept. |
| CertificateViews.CentredX | SAC-Hub/certificate/views.py:208 | Text that fits is centred, with the right margin equal to the left or one more. Text that does not fit starts at x1. |
| CertificateViews.DrawFieldInSpan | SAC-Hub/certificate/views.py:179-208 | The drawn text starts within the clamped field and is centred in its span. |
| CertificateViews.MissingFieldDefaults | SAC-Hub/certificate/views.py:180-190 | A field missing from the layout is drawn at y 0, size 40, not bold, centred across the image. |
| CertificateViews.LongNameShrinks | SAC-Hub/certificate/views.py:182-201 | A name longer than 23 characters is drawn at size 35. Other fields keep their layout size. |
| CertificateViews.DefaultNameSpan | SAC-Hub/certificate/views.py:22-28 | With the default layout, a short name is centred in 633–1258 at y 1020, size 45, bold. |
| CertificateViews.FirstRowFor | SAC-Hub/certificate/views.py:48-52 | The search finds the first attendance row naming an event. |
| CertificateViews.FirstPerEventSpec | SAC-Hub/certificate/views.py:44-56 | The attended events are distinct, exactly those some row reaches, and each carries the timestamp of its first row. |
| CertificateViews.CollectAttended | SAC-Hub/certificate/views.py:45-56 | The loop with `seen_event_ids` computes the first-per-event list. |
| CertificateViews.PermutationKeepsIdsDistinct | SAC-Hub/certificate/views.py:59 | Sorting keeps event ids distinct. |
| CertificateViews.AttendedEvents | SAC-Hub/certificate/views.py:44-59 | The home page lists each attended event once, newest first. |
| CertificateViews.ReplaceSpaces | SAC-Hub/certificate/views.py:296 | Every space becomes `_`, and nothing else changes. |
| CertificateViews.DownloadCertificate | SAC-Hub/certificate/views.py:260-296 | The download is refused exactly without a `PRESENT` attendance for the event. The certificate uses the fallbacks: username, "Student", "MITS SAC", and the club's own template or the static one. The filename has no space. |
| CertificateViews.DownloadRefused | SAC-Hub/certificate/views.py:261-268 | Absent, other-event and session-less rows do not unlock the download. |
| CertificateViews.SchemaClubStaticTemplate | SAC-Hub/certificate/views.py:274-283 | The stored `Club` has no `certificate_template` (users/models.py), so for an attended event the certificate names the club and uses the static template chosen from its name. |
| CertificateViews.DownloadFallbacks | SAC-Hub/certificate/views.py:271-283 | With no name, department or club, the certificate says username, "Student", "MITS SAC", and uses `sample.jpg`. |

## Left out

- RefCode.ResolvedCodeFits, NormalizeRefCode.NormalizedCodeShape, NormalizeRefCode.NormalizeAllEffect, BackfillRefCode.BackfillCodeShape: these assume fewer than 10^30 other codes. A suffix of 31 or more digits makes `32 - len(suf)` negative, and then Python's slice counts from the end.
- Characters are ASCII only. `isalnum`, `isalpha`, `upper` and `lower` are not modelled for other Unicode letters.
- `int()` is modelled for optional surrounding whitespace, an optional sign and decimal digits. Underscores, other Unicode digits and floats are not.
- The attendance session model (open, lock, submit) is not part of this model, because its source is not among the modelled files. Sessions appear only as the `session → event` link the migrations and certificate views read.
- Choice fields are not validated on save (`status`, `roles`), as in Django. Statuses are therefore plain strings.
- In the attendance JSON body a status is a string or `null`. Other JSON values (numbers, booleans, lists) are not modelled: the `CharField` would store their `str()` form, and the caller is taken to pass that string.
- The `Club` model has no `certificate_template` field, so in `download_event_certificate` the uploaded-template branch (certificate/views.py line 278) never runs. `Event.club` is required, so the "MITS SAC" fallback never runs either. CertificateViews.DownloadCertificate still models both branches as written, and CertificateViews.DownloadFallbacks exercises the fallbacks only as the code states them.
- Database uniqueness (`unique_together`, the unique `ref_code` and `roll_no`) appears as preconditions and invariants, not as database errors.
- The exception branches around the migrations' lookups are not modelled, because the lookups read plain maps that cannot raise.
- ORM ordering, pagination, templates, messages, redirects as HTTP responses, and `select_related` are not modelled. Query results are taken as sequences in the order the view iterates them.
- Sorting.SortDesc: the model proves sortedness and permutation, not Python's sort stability (the order of equal dates).
- student_views.py lines 38-47 follow an unconditional `return` and are never executed, so they are not modelled.
- The counts and query sets of `student_dashboard` are not modelled: upcoming, ongoing and finished events, notices, contacts, clubs, departments, stats, and `my_notifications`. Nor are the constant-template dashboard views of role_dashboards.py (lines 5-46).
- StudentViews.BuildSwitcher takes the club-advisor count (`advised_clubs.count()`) as an input.
- In the calendar, `calendar.monthcalendar` and the month's approved events are inputs. Upcoming events and registration counts are not modelled.
- The branch of `attendance_manage` for an event without a club (lines 145-151) is not modelled, because `Event.club` is a required field.
- In `attendance_manage`, the `attendance_dict` and the student list sent to the template are not modelled. Only their counts are.
- The rest of `profile_view` is not modelled: the POST profile update and the three counts. Nor are `settings_view`, `reports_dashboard` or the other frontend views.
- PDF rendering, fonts, colours (`ImageColor`) and `format_date_value` are not modelled. Text width is the parameter `measure`.
- `generate_certificates`, `generate_certificate` and `create_certificate_pdf` are file and image I/O and are not modelled.
- The user's department enters `download_event_certificate` as an optional name.
- The reverse (user-side) calls of the signal use the instance as the view loaded it. Stale in-memory copies are modelled only where `assign_club_coordinator` holds one.
- `get_students_ajax` does not model the JSON encoding or the `GET`-only decorator.
- Timestamps and the clock are integers supplied by the caller (`now`).
