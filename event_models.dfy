/** The events app's models: the event statuses, the notifications
    `Event.save()` creates, and the collaboration-request statuses. */
module EventModels {
  import opened Wrappers
  import opened Collections
  import opened UserModels

  datatype EventStatus = Draft | Pending | Approved | Rejected | Completed {
    function Value(): string {
      match this
      case Draft => "DRAFT"
      case Pending => "PENDING"
      case Approved => "APPROVED"
      case Rejected => "REJECTED"
      case Completed => "COMPLETED"
    }

    function Label(): string {
      match this
      case Draft => "Draft"
      case Pending => "Pending Approval"
      case Approved => "Approved"
      case Rejected => "Rejected"
      case Completed => "Completed"
    }
  }

  /** A new event's status. */
  const DefaultEventStatus: EventStatus := Pending

  function EventStatusFromValue(s: string): (r: Option<EventStatus>)
    ensures r.Some? ==> r.value.Value() == s
    ensures r.None? ==> s !in {"DRAFT", "PENDING", "APPROVED", "REJECTED", "COMPLETED"}
  {
    if s == "DRAFT" then Some(Draft)
    else if s == "PENDING" then Some(Pending)
    else if s == "APPROVED" then Some(Approved)
    else if s == "REJECTED" then Some(Rejected)
    else if s == "COMPLETED" then Some(Completed)
    else None
  }

  lemma EventStatusRoundTrip(st: EventStatus)
    ensures EventStatusFromValue(st.Value()) == Some(st)
  {
  }

  /** `get_status_display()`: the label of a choice, or the stored string
      itself when it is not one. */
  function StatusDisplay(status: string): (d: string)
    ensures EventStatusFromValue(status).None? ==> d == status
    ensures EventStatusFromValue(status).Some? ==> d == EventStatusFromValue(status).value.Label()
  {
    match EventStatusFromValue(status)
    case Some(st) => st.Label()
    case None => status
  }

  /** `CollaborationRequest.status` */
  datatype CollaborationStatus = CollabPending | CollabApproved | CollabRejected {
    function Value(): string {
      match this
      case CollabPending => "PENDING"
      case CollabApproved => "APPROVED"
      case CollabRejected => "REJECTED"
    }
  }

  const DefaultCollaborationStatus: CollaborationStatus := CollabPending

  // ---------------------------------------------------------------------
  // Notifications on save
  // ---------------------------------------------------------------------

  /** What `save()` reads of the event being saved. `creator` is the
      creating user's id and full name, when set. */
  datatype EventData = EventData(name: string, status: string, creator: Option<(nat, string)>)

  /** The users notified of a new pending event: those whose roles hold
      `ADMIN` or `SAC_COORDINATOR`, in table order. */
  function AdminIds(users: seq<(nat, UserRecord)>): (ids: seq<nat>)
    ensures |ids| <= |users|
    ensures forall id :: id in ids <==>
      exists i :: 0 <= i < |users| && users[i].0 == id && IsAdminLike(users[i].1)
  {
    if users == [] then []
    else
      var rest := AdminIds(users[1..]);
      assert forall i :: 1 <= i < |users| ==> users[i] == users[1..][i - 1];
      if IsAdminLike(users[0].1) then [users[0].0] + rest else rest
  }

  /** The ids of a user table are primary keys: no two rows share one. */
  predicate UniqueUserIds(users: seq<(nat, UserRecord)>) {
    forall i, j :: 0 <= i < j < |users| ==> users[i].0 != users[j].0
  }

  /** Over a table with unique ids no admin-like user is listed twice. */
  lemma {:induction false} AdminIdsDistinct(users: seq<(nat, UserRecord)>)
    requires UniqueUserIds(users)
    ensures Distinct(AdminIds(users))
  {
    if users != [] {
      var tail := users[1..];
      assert UniqueUserIds(tail) by {
        forall i, j | 0 <= i < j < |tail| ensures tail[i].0 != tail[j].0 {
          assert tail[i] == users[i + 1] && tail[j] == users[j + 1];
        }
      }
      AdminIdsDistinct(tail);
      var rest := AdminIds(tail);
      forall i | 0 <= i < |tail| ensures tail[i].0 != users[0].0 {
        assert tail[i] == users[i + 1];
      }
      assert users[0].0 !in rest;
      if IsAdminLike(users[0].1) {
        var ids := [users[0].0] + rest;
        assert AdminIds(users) == ids;
        forall i, j | 0 <= i < j < |ids| ensures ids[i] != ids[j] {
          assert ids[j] == rest[j - 1];
          if i > 0 { assert ids[i] == rest[i - 1]; }
        }
      } else {
        assert AdminIds(users) == rest;
      }
    }
  }

  predicate IsAdminLike(u: UserRecord) {
    Admin.Value() in u.roles || SacCoordinator.Value() in u.roles
  }

  function PendingMessage(ev: EventData): string {
    "New event '" + ev.name + "' by " + (match ev.creator case Some(c) => c.1 case None => "Unknown") + " is pending approval."
  }

  function SubmittedMessage(ev: EventData): string {
    "New event '" + ev.name + "' has been submitted for your club."
  }

  function CreatorMessage(ev: EventData): string {
    "Your event '" + ev.name + "' status changed to " + StatusDisplay(ev.status) + "."
  }

  function ChangedMessage(ev: EventData): string {
    "Status of event '" + ev.name + "' changed to " + StatusDisplay(ev.status) + "."
  }

  function Addressed(ids: seq<nat>, message: string): (rs: seq<(nat, string)>)
    ensures |rs| == |ids|
    ensures forall i :: 0 <= i < |rs| ==> rs[i] == (ids[i], message)
  {
    seq(|ids|, i requires 0 <= i < |ids| => (ids[i], message))
  }

  /** The (recipient, message) pairs `save()` creates, in creation order.
      `prior` is None for a new event and the stored status otherwise. */
  function SaveNotifications(prior: Option<string>, ev: EventData, users: seq<(nat, UserRecord)>, organizers: seq<nat>, coordinators: seq<nat>): seq<(nat, string)> {
    match prior
    case None => CreatedNotifications(ev, users, coordinators)
    case Some(stored) => if stored != ev.status then ChangedNotifications(ev, organizers, coordinators) else []
  }

  /** A new event: the admin-like users when it is pending, then the club's
      coordinators. */
  function CreatedNotifications(ev: EventData, users: seq<(nat, UserRecord)>, coordinators: seq<nat>): seq<(nat, string)> {
    (if ev.status == Pending.Value() then Addressed(AdminIds(users), PendingMessage(ev)) else [])
    + Addressed(coordinators, SubmittedMessage(ev))
  }

  /** A status change: the creator when set, then the organizers, then the
      club's coordinators. */
  function ChangedNotifications(ev: EventData, organizers: seq<nat>, coordinators: seq<nat>): seq<(nat, string)> {
    (match ev.creator case Some(c) => [(c.0, CreatorMessage(ev))] case None => [])
    + Addressed(organizers, ChangedMessage(ev))
    + Addressed(coordinators, ChangedMessage(ev))
  }

  /** Creating a pending event notifies each admin-like user once and each
      club coordinator once; a coordinator who is also an admin gets two. */
  lemma NewPendingEventRecipients(ev: EventData, users: seq<(nat, UserRecord)>, organizers: seq<nat>, coordinators: seq<nat>, id: nat)
    requires ev.status == "PENDING"
    ensures var rs := SaveNotifications(None, ev, users, organizers, coordinators);
      |rs| == |AdminIds(users)| + |coordinators| &&
      Count(Ids(rs), id) == Count(AdminIds(users), id) + Count(coordinators, id) &&
      (UniqueUserIds(users) && Distinct(coordinators) ==>
        Count(Ids(rs), id) == (if id in AdminIds(users) then 1 else 0) + (if id in coordinators then 1 else 0))
  {
    var a := Addressed(AdminIds(users), PendingMessage(ev));
    var b := Addressed(coordinators, SubmittedMessage(ev));
    IdsConcat(a, b);
    IdsAddressed(AdminIds(users), PendingMessage(ev));
    IdsAddressed(coordinators, SubmittedMessage(ev));
    CountConcat(AdminIds(users), coordinators, id);
    if UniqueUserIds(users) && Distinct(coordinators) {
      AdminIdsDistinct(users);
      CountDistinct(AdminIds(users), id);
      CountDistinct(coordinators, id);
    }
  }

  /** Creating an event in any other status notifies only the club
      coordinators; creation never takes the status-change branch. */
  lemma NewOtherEventRecipients(ev: EventData, users: seq<(nat, UserRecord)>, organizers: seq<nat>, coordinators: seq<nat>)
    requires ev.status != "PENDING"
    ensures SaveNotifications(None, ev, users, organizers, coordinators) == Addressed(coordinators, SubmittedMessage(ev))
  {
  }

  /** A status change notifies the creator (when set), every organizer and
      every club coordinator; an unchanged status notifies no one. */
  lemma StatusChangeRecipients(stored: string, ev: EventData, users: seq<(nat, UserRecord)>, organizers: seq<nat>, coordinators: seq<nat>)
    ensures var rs := SaveNotifications(Some(stored), ev, users, organizers, coordinators);
      && (stored == ev.status ==> rs == [])
      && (stored != ev.status ==> |rs| == (if ev.creator.Some? then 1 else 0) + |organizers| + |coordinators|)
  {
  }

  function Ids(rs: seq<(nat, string)>): (ids: seq<nat>)
    ensures |ids| == |rs|
  {
    seq(|rs|, i requires 0 <= i < |rs| => rs[i].0)
  }

  lemma IdsConcat(a: seq<(nat, string)>, b: seq<(nat, string)>)
    ensures Ids(a + b) == Ids(a) + Ids(b)
  {
  }

  lemma IdsAddressed(ids: seq<nat>, message: string)
    ensures Ids(Addressed(ids, message)) == ids
  {
  }

  lemma {:induction false} CountConcat<T>(a: seq<T>, b: seq<T>, x: T)
    ensures Count(a + b, x) == Count(a, x) + Count(b, x)
  {
    if a == [] {
      assert a + b == b;
    } else {
      assert (a + b)[0] == a[0] && (a + b)[1..] == a[1..] + b;
      CountConcat(a[1..], b, x);
    }
  }

  /** The notification table `save()` appends to. */
  class NotificationLog {
    var rows: seq<Notification>

    constructor (rows: seq<Notification>)
      ensures this.rows == rows
    {
      this.rows := rows;
    }

    /** `for user in users: Notification.objects.create(user=user, message=message)` */
    method NotifyAll(ids: seq<nat>, message: string, now: int)
      modifies this
      ensures rows == old(rows) + Created(Addressed(ids, message), now)
    {
      var i := 0;
      while i < |ids|
        invariant 0 <= i <= |ids|
        invariant rows == old(rows) + Created(Addressed(ids[..i], message), now)
      {
        rows := rows + [NewNotification(ids[i], message, now)];
        assert Addressed(ids[..i + 1], message) == Addressed(ids[..i], message) + [(ids[i], message)];
        CreatedSnoc(Addressed(ids[..i], message), (ids[i], message), now);
        i := i + 1;
      }
      assert ids[..i] == ids;
    }

    /** The notification part of `Event.save()`. */
    method NotifyOnSave(prior: Option<string>, ev: EventData, users: seq<(nat, UserRecord)>, organizers: seq<nat>, coordinators: seq<nat>, now: int)
      modifies this
      ensures rows == old(rows) + Created(SaveNotifications(prior, ev, users, organizers, coordinators), now)
    {
      match prior {
        case None =>
          NotifyCreated(ev, users, coordinators, now);
        case Some(stored) =>
          if stored != ev.status {
            NotifyStatusChanged(ev, organizers, coordinators, now);
          }
      }
    }

    /** The notifications for a new event. */
    method NotifyCreated(ev: EventData, users: seq<(nat, UserRecord)>, coordinators: seq<nat>, now: int)
      modifies this
      ensures rows == old(rows) + Created(CreatedNotifications(ev, users, coordinators), now)
    {
      ghost var first: seq<(nat, string)> := [];
      if ev.status == "PENDING" {
        first := Addressed(AdminIds(users), PendingMessage(ev));
        NotifyAll(AdminIds(users), PendingMessage(ev), now);
      }
      NotifyAll(coordinators, SubmittedMessage(ev), now);
      CreatedConcat(first, Addressed(coordinators, SubmittedMessage(ev)), now);
    }

    /** The notifications for an existing event whose status changed. */
    method NotifyStatusChanged(ev: EventData, organizers: seq<nat>, coordinators: seq<nat>, now: int)
      modifies this
      ensures rows == old(rows) + Created(ChangedNotifications(ev, organizers, coordinators), now)
    {
      ghost var before := rows;
      ghost var first: seq<(nat, string)> := [];
      if ev.creator.Some? {
        first := [(ev.creator.value.0, CreatorMessage(ev))];
        rows := rows + [NewNotification(ev.creator.value.0, CreatorMessage(ev), now)];
      }
      assert rows == before + Created(first, now);
      NotifyAll(organizers, ChangedMessage(ev), now);
      NotifyAll(coordinators, ChangedMessage(ev), now);
      assert ChangedNotifications(ev, organizers, coordinators) ==
        first + Addressed(organizers, ChangedMessage(ev)) + Addressed(coordinators, ChangedMessage(ev));
      ChangedCreated(before, first, Addressed(organizers, ChangedMessage(ev)), Addressed(coordinators, ChangedMessage(ev)), now);
    }
  }

  lemma ChangedCreated(rows: seq<Notification>, a: seq<(nat, string)>, b: seq<(nat, string)>, c: seq<(nat, string)>, now: int)
    ensures rows + Created(a, now) + Created(b, now) + Created(c, now) == rows + Created(a + b + c, now)
  {
    CreatedConcat(a, b, now);
    CreatedConcat(a + b, c, now);
    AppendAssoc(rows + Created(a, now), Created(b, now), Created(c, now));
    AppendAssoc(rows, Created(a, now), Created(b, now) + Created(c, now));
    AppendAssoc(Created(a, now), Created(b, now), Created(c, now));
  }

  /** The rows created for (recipient, message) pairs. */
  function Created(rs: seq<(nat, string)>, now: int): (ns: seq<Notification>)
    ensures |ns| == |rs|
    ensures forall i :: 0 <= i < |rs| ==> ns[i] == NewNotification(rs[i].0, rs[i].1, now)
  {
    seq(|rs|, i requires 0 <= i < |rs| => NewNotification(rs[i].0, rs[i].1, now))
  }

  lemma CreatedSnoc(rs: seq<(nat, string)>, r: (nat, string), now: int)
    ensures Created(rs + [r], now) == Created(rs, now) + [NewNotification(r.0, r.1, now)]
  {
  }

  lemma CreatedConcat(a: seq<(nat, string)>, b: seq<(nat, string)>, now: int)
    ensures Created(a + b, now) == Created(a, now) + Created(b, now)
  {
  }
}
