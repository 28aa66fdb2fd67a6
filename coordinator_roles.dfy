/** The `m2m_changed` receiver on the club→coordinators relation
    (users/signals.py), which keeps the `CLUB_COORDINATOR` tag in a user's
    `roles` list in step with the relation, and the relation operations that
    send it (`add`, `remove`, `clear`). */
module CoordinatorRoles {
  import opened Wrappers
  import opened Collections
  import opened UserModels

  /** The role string the receiver maintains. */
  function Tag(): string { ClubCoordinator.Value() }

  /** The object whose relation manager changed: a club (forward side,
      `pk_set` holds user ids) or a user (reverse side, `pk_set` holds club
      ids). */
  datatype Instance = ClubSide(clubId: nat) | UserSide(userId: nat)

  /** `user.coordinated_clubs.exists()` */
  predicate Coordinates(coordinators: map<nat, set<nat>>, userId: nat) {
    exists c :: c in coordinators && userId in coordinators[c]
  }

  /** The users the receiver looks at: the existing users named in `pk_set`
      for a club, the instance itself for a user. */
  function Affected(users: map<nat, UserRecord>, instance: Instance, pkSet: set<nat>): (ids: set<nat>)
    ensures ids <= users.Keys
  {
    match instance
    case ClubSide(_) => set id | id in pkSet && id in users
    case UserSide(u) => if u in users then {u} else {}
  }

  /** `post_add` for one user: append the tag when absent, then save. */
  function AddTag(u: UserRecord): (r: UserRecord)
    ensures Tag() in r.roles
    ensures Tag() in u.roles ==> r == u
  {
    if Tag() !in u.roles then Saved(u.(roles := u.roles + [Tag()])) else u
  }

  /** `post_remove` for one user: drop the (first) tag when the user no
      longer coordinates any club, then save. */
  function DropTag(u: UserRecord, coordinators: map<nat, set<nat>>, userId: nat): (r: UserRecord)
    ensures Tag() in r.roles <==> Tag() in u.roles && (Coordinates(coordinators, userId) || Count(u.roles, Tag()) > 1)
  {
    if !Coordinates(coordinators, userId) && Tag() in u.roles then
      Saved(u.(roles := RemoveFirst(u.roles, Tag())))
    else u
  }

  /** What the receiver does to one affected user. */
  function SignalStep(u: UserRecord, coordinators: map<nat, set<nat>>, userId: nat, action: string): UserRecord {
    if action == "post_add" then AddTag(u)
    else if action == "post_remove" then DropTag(u, coordinators, userId)
    else u
  }

  /** The user table after the receiver has run. `coordinators` is the
      relation as it stands when the signal is sent. */
  function SignalEffect(users: map<nat, UserRecord>, coordinators: map<nat, set<nat>>, instance: Instance, action: string, pkSet: set<nat>): (users': map<nat, UserRecord>)
    ensures users'.Keys == users.Keys
  {
    var affected := Affected(users, instance, pkSet);
    map id | id in users :: if id in affected then SignalStep(users[id], coordinators, id, action) else users[id]
  }

  /** `users` holds the receiver's result for the users in `done` and the
      old record for everyone else. */
  ghost predicate PartlyApplied(users0: map<nat, UserRecord>, users: map<nat, UserRecord>, coordinators: map<nat, set<nat>>,
                                action: string, done: set<nat>)
  {
    && users.Keys == users0.Keys
    && forall id :: id in users ==>
      users[id] == if id in done then SignalStep(users0[id], coordinators, id, action) else users0[id]
  }

  /** Handling one more affected user extends `done` by that user. */
  lemma PartlyAppliedStep(users0: map<nat, UserRecord>, before: map<nat, UserRecord>, after: map<nat, UserRecord>,
                          coordinators: map<nat, set<nat>>, action: string, done: set<nat>, id: nat)
    requires before.Keys == users0.Keys && id in before && id !in done
    requires PartlyApplied(users0, before, coordinators, action, done)
    requires action == "post_add" || action == "post_remove"
    requires after == before || (after.Keys == before.Keys && after == before[id := after[id]])
    requires after[id] == (if action == "post_add" then AddTag(before[id]) else DropTag(before[id], coordinators, id))
    ensures after.Keys == users0.Keys
    ensures PartlyApplied(users0, after, coordinators, action, done + {id})
  {
  }

  /** A table that holds the receiver's result for every affected user and
      the old record for every other user is the receiver's result. */
  lemma SignalEffectFrom(users0: map<nat, UserRecord>, users: map<nat, UserRecord>, coordinators: map<nat, set<nat>>,
                         instance: Instance, action: string, pkSet: set<nat>)
    requires users.Keys == users0.Keys
    requires PartlyApplied(users0, users, coordinators, action, Affected(users0, instance, pkSet))
    ensures users == SignalEffect(users0, coordinators, instance, action, pkSet)
  {
  }

  /** Actions other than `post_add` and `post_remove` change nobody. */
  lemma IgnoredActionKeepsUsers(users: map<nat, UserRecord>, coordinators: map<nat, set<nat>>,
                                instance: Instance, action: string, pkSet: set<nat>)
    requires action != "post_add" && action != "post_remove"
    ensures SignalEffect(users, coordinators, instance, action, pkSet) == users
  {
  }

  /** Every coordinator carries the tag. */
  ghost predicate TaggedCoordinators(users: map<nat, UserRecord>, coordinators: map<nat, set<nat>>) {
    forall c, u :: c in coordinators && u in coordinators[c] && u in users ==> Tag() in users[u].roles
  }

  /** No role list holds the tag twice. */
  ghost predicate TagAtMostOnce(users: map<nat, UserRecord>) {
    forall u :: u in users ==> Count(users[u].roles, Tag()) <= 1
  }

  /** The users table together with the club→coordinators relation
      (`club id -> coordinator user ids`). */
  class CoordinatorRegistry {
    var users: map<nat, UserRecord>
    var coordinators: map<nat, set<nat>>

    constructor (users: map<nat, UserRecord>, coordinators: map<nat, set<nat>>)
      ensures this.users == users && this.coordinators == coordinators
    {
      this.users := users;
      this.coordinators := coordinators;
    }

    /** `handle_club_coordinators_changed(sender, instance, action, pk_set)` */
    method HandleCoordinatorsChanged(instance: Instance, action: string, pkSet: set<nat>)
      modifies this
      ensures coordinators == old(coordinators)
      ensures users == SignalEffect(old(users), coordinators, instance, action, pkSet)
    {
      if action == "post_add" {
        AddTags(Affected(users, instance, pkSet));
        SignalEffectFrom(old(users), users, coordinators, instance, action, pkSet);
      } else if action == "post_remove" {
        DropTags(Affected(users, instance, pkSet));
        SignalEffectFrom(old(users), users, coordinators, instance, action, pkSet);
      } else {
        IgnoredActionKeepsUsers(users, coordinators, instance, action, pkSet);
      }
    }

    /** The `post_add` loop: tag each listed user who lacks the tag. */
    method AddTags(ids: set<nat>)
      requires ids <= users.Keys
      modifies this
      ensures coordinators == old(coordinators)
      ensures PartlyApplied(old(users), users, coordinators, "post_add", ids)
    {
      var todo := ids;
      while todo != {}
        invariant todo <= ids && coordinators == old(coordinators)
        invariant PartlyApplied(old(users), users, coordinators, "post_add", ids - todo)
        decreases todo
      {
        var id :| id in todo;
        ghost var before := users;
        var user := users[id];
        if Tag() !in user.roles {
          user := Saved(user.(roles := user.roles + [Tag()]));
          users := users[id := user];
        }
        PartlyAppliedStep(old(users), before, users, coordinators, "post_add", ids - todo, id);
        todo := todo - {id};
        assert ids - todo == (ids - (todo + {id})) + {id};
      }
      assert ids - todo == ids;
    }

    /** The `post_remove` loop: untag each listed user who holds the tag
        and no longer coordinates any club. */
    method DropTags(ids: set<nat>)
      requires ids <= users.Keys
      modifies this
      ensures coordinators == old(coordinators)
      ensures PartlyApplied(old(users), users, coordinators, "post_remove", ids)
    {
      var todo := ids;
      while todo != {}
        invariant todo <= ids && coordinators == old(coordinators)
        invariant PartlyApplied(old(users), users, coordinators, "post_remove", ids - todo)
        decreases todo
      {
        var id :| id in todo;
        ghost var before := users;
        var user := users[id];
        if !Coordinates(coordinators, id) && Tag() in user.roles {
          user := Saved(user.(roles := RemoveFirst(user.roles, Tag())));
          users := users[id := user];
        }
        PartlyAppliedStep(old(users), before, users, coordinators, "post_remove", ids - todo, id);
        todo := todo - {id};
        assert ids - todo == (ids - (todo + {id})) + {id};
      }
      assert ids - todo == ids;
    }

    /** `club.coordinators.add(user)`: the pair is stored, then `post_add`
        is sent with the ids that were not yet related. */
    method AddCoordinator(clubId: nat, userId: nat)
      requires clubId in coordinators
      modifies this
      ensures coordinators == old(coordinators)[clubId := old(coordinators)[clubId] + {userId}]
      ensures users == SignalEffect(old(users), coordinators, ClubSide(clubId), "post_add",
                                    if userId in old(coordinators)[clubId] then {} else {userId})
    {
      var missing: set<nat> := if userId in coordinators[clubId] then {} else {userId};
      coordinators := coordinators[clubId := coordinators[clubId] + {userId}];
      HandleCoordinatorsChanged(ClubSide(clubId), "post_add", missing);
    }

    /** `club.coordinators.remove(user)`: the pair is deleted, then
        `post_remove` is sent with the given id. */
    method RemoveCoordinator(clubId: nat, userId: nat)
      requires clubId in coordinators
      modifies this
      ensures coordinators == old(coordinators)[clubId := old(coordinators)[clubId] - {userId}]
      ensures users == SignalEffect(old(users), coordinators, ClubSide(clubId), "post_remove", {userId})
    {
      coordinators := coordinators[clubId := coordinators[clubId] - {userId}];
      HandleCoordinatorsChanged(ClubSide(clubId), "post_remove", {userId});
    }

    /** `club.coordinators.clear()`: only `pre_clear`/`post_clear` are sent,
        which the receiver ignores. */
    method ClearCoordinators(clubId: nat)
      requires clubId in coordinators
      modifies this
      ensures coordinators == old(coordinators)[clubId := {}]
      ensures users == old(users)
    {
      coordinators := coordinators[clubId := {}];
      HandleCoordinatorsChanged(ClubSide(clubId), "post_clear", {});
    }
  }

  // ---------------------------------------------------------------------
  // Properties of the receiver
  // ---------------------------------------------------------------------

  /** After `post_add` every affected user has the tag; no one else changes. */
  lemma PostAddTags(users: map<nat, UserRecord>, coordinators: map<nat, set<nat>>, instance: Instance, pkSet: set<nat>)
    ensures var users' := SignalEffect(users, coordinators, instance, "post_add", pkSet);
      && (forall id :: id in Affected(users, instance, pkSet) ==> Tag() in users'[id].roles)
      && (forall id :: id in users && id !in Affected(users, instance, pkSet) ==> users'[id] == users[id])
  {
  }

  /** After `post_remove` an affected user keeps the tag exactly when they
      had it and still coordinate some club (or held it twice). */
  lemma PostRemoveUntags(users: map<nat, UserRecord>, coordinators: map<nat, set<nat>>, instance: Instance, pkSet: set<nat>)
    requires TagAtMostOnce(users)
    ensures var users' := SignalEffect(users, coordinators, instance, "post_remove", pkSet);
      forall id :: id in Affected(users, instance, pkSet) ==>
        (Tag() in users'[id].roles <==> Tag() in users[id].roles && Coordinates(coordinators, id))
  {
  }

  /** Actions other than `post_add` and `post_remove` (the `pre_*` ones and
      `post_clear`) change nothing. */
  lemma OtherActionsIgnored(users: map<nat, UserRecord>, coordinators: map<nat, set<nat>>, instance: Instance, action: string, pkSet: set<nat>)
    requires action != "post_add" && action != "post_remove"
    ensures SignalEffect(users, coordinators, instance, action, pkSet) == users
  {
  }

  /** The receiver touches only the tag: every other role keeps its place in
      the list, and no field other than `roles` and (through `save()`)
      `username` changes. */
  lemma SignalKeepsOtherRoles(users: map<nat, UserRecord>, coordinators: map<nat, set<nat>>, instance: Instance, action: string, pkSet: set<nat>)
    ensures var users' := SignalEffect(users, coordinators, instance, action, pkSet);
      forall id :: id in users ==>
        && Without(users'[id].roles, Tag()) == Without(users[id].roles, Tag())
        && users'[id].(roles := users[id].roles, username := users[id].username) == users[id]
  {
    var users' := SignalEffect(users, coordinators, instance, action, pkSet);
    forall id | id in users
      ensures Without(users'[id].roles, Tag()) == Without(users[id].roles, Tag())
    {
      var u := users[id];
      if Tag() !in u.roles {
        WithoutAppend(u.roles, Tag());
      } else {
        WithoutRemoveFirst(u.roles, Tag());
      }
    }
  }

  /** The receiver never puts a second tag in a list. */
  lemma SignalKeepsTagAtMostOnce(users: map<nat, UserRecord>, coordinators: map<nat, set<nat>>, instance: Instance, action: string, pkSet: set<nat>)
    requires TagAtMostOnce(users)
    ensures TagAtMostOnce(SignalEffect(users, coordinators, instance, action, pkSet))
  {
    var users' := SignalEffect(users, coordinators, instance, action, pkSet);
    forall id | id in users' ensures Count(users'[id].roles, Tag()) <= 1 {
      var u := users[id];
      if Tag() !in u.roles {
        CountAppend(u.roles, Tag(), Tag());
      }
    }
  }

  /** Adding a coordinator through the relation keeps every coordinator
      tagged. */
  lemma AddKeepsTagged(users: map<nat, UserRecord>, coordinators: map<nat, set<nat>>, clubId: nat, userId: nat)
    requires clubId in coordinators && TaggedCoordinators(users, coordinators)
    ensures var coordinators' := coordinators[clubId := coordinators[clubId] + {userId}];
      var missing: set<nat> := if userId in coordinators[clubId] then {} else {userId};
      TaggedCoordinators(SignalEffect(users, coordinators', ClubSide(clubId), "post_add", missing), coordinators')
  {
  }

  /** Removing a coordinator through the relation keeps every remaining
      coordinator tagged. */
  lemma RemoveKeepsTagged(users: map<nat, UserRecord>, coordinators: map<nat, set<nat>>, clubId: nat, userId: nat)
    requires clubId in coordinators && TaggedCoordinators(users, coordinators)
    ensures var coordinators' := coordinators[clubId := coordinators[clubId] - {userId}];
      TaggedCoordinators(SignalEffect(users, coordinators', ClubSide(clubId), "post_remove", {userId}), coordinators')
  {
    var coordinators' := coordinators[clubId := coordinators[clubId] - {userId}];
    var users' := SignalEffect(users, coordinators', ClubSide(clubId), "post_remove", {userId});
    forall c, u | c in coordinators' && u in coordinators'[c] && u in users'
      ensures Tag() in users'[u].roles
    {
      assert Coordinates(coordinators', u);
      assert u in coordinators[c];
    }
  }

  /** Clearing a club's coordinators leaves the tags in place: the invariant
      survives, but its converse does not. */
  lemma ClearKeepsTagged(users: map<nat, UserRecord>, coordinators: map<nat, set<nat>>, clubId: nat)
    requires clubId in coordinators && TaggedCoordinators(users, coordinators)
    ensures TaggedCoordinators(users, coordinators[clubId := {}])
  {
  }
}
