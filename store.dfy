/** The reminder and user collections of internal/store/firestore.go, held
    in memory. A document is a map entry keyed by its document id; the
    Firestore client, its transactions and its failures are outside the
    model, except that every write may fail, which the methods below
    express as an arbitrary `ok` outcome that leaves the store unchanged. */
module Store {
  import opened Common

  /** The reminder status field: "active", "sent", "expired", "cancelled". */
  datatype Status = Active | Sent | Expired | Cancelled

  /** store.Reminder. Instants are Unix seconds. */
  datatype Reminder = Reminder(
    id: string,
    userId: string,
    stopName: string,
    routeId: string,
    eta: int,
    advanceMinutes: int,
    status: Status,
    createdAt: int,
    updatedAt: int)

  datatype Favorite = Favorite(name: string, lat: real, lng: real, address: string)

  /** store.User; None stands for the zero time.Time. */
  datatype User = User(id: string, favorites: seq<Favorite>, createdAt: Option<int>, updatedAt: Option<int>)

  /** The ETA condition of a query over active reminders: After(t) is the
      one GetActiveReminders applies (ETA strictly after t); Before(t)
      (ETA strictly before t) is the one the corrected cleanup pass needs. */
  datatype EtaFilter = After(t: int) | Before(t: int)

  predicate EtaMatches(eta: int, f: EtaFilter)
  {
    match f
    case After(t) => eta > t
    case Before(t) => eta < t
  }

  /** A document the active-reminder query returns: it exists, its status is
      active, it decodes, and its ETA matches. */
  predicate Fetchable(docs: map<string, Reminder>, undecodable: set<string>, f: EtaFilter, id: string)
  {
    id in docs && id !in undecodable && docs[id].status == Active && EtaMatches(docs[id].eta, f)
  }

  /** The reminders the documents `ids` yield, in that order, each with its
      ID set to its document id. */
  function ActiveAmong(ids: seq<string>, docs: map<string, Reminder>, undecodable: set<string>, f: EtaFilter): seq<Reminder>
  {
    if |ids| == 0 then []
    else
      var id := ids[|ids| - 1];
      ActiveAmong(ids[..|ids| - 1], docs, undecodable, f)
        + (if Fetchable(docs, undecodable, f, id) then [docs[id].(id := id)] else [])
  }

  /** A reminder is returned exactly when its document is fetchable, and it
      is that document with its id filled in. */
  lemma {:induction false} ActiveAmongMembers(ids: seq<string>, docs: map<string, Reminder>, undecodable: set<string>, f: EtaFilter, r: Reminder)
    ensures r in ActiveAmong(ids, docs, undecodable, f)
            <==> r.id in ids && Fetchable(docs, undecodable, f, r.id) && r == docs[r.id].(id := r.id)
  {
    if |ids| > 0 {
      var init := ids[..|ids| - 1];
      ActiveAmongMembers(init, docs, undecodable, f, r);
      assert ids == init + [ids[|ids| - 1]];
    }
  }

  predicate Distinct(ids: seq<string>)
  {
    forall i, j :: 0 <= i < j < |ids| ==> ids[i] != ids[j]
  }

  /** Inserting a new id anywhere keeps the ids distinct and adds only it. */
  lemma InsertKeepsDistinct(ids: seq<string>, k: int, x: string)
    requires Distinct(ids) && x !in ids && 0 <= k <= |ids|
    ensures Distinct(ids[..k] + [x] + ids[k..])
    ensures forall y :: y in ids[..k] + [x] + ids[k..] <==> y == x || y in ids
  {
  }

  /** The in-memory Firestore: `reminders` and `users` are the two
      collections; `order` is the order in which a query returns the
      reminder documents; `undecodable` holds the reminder documents whose
      fields do not decode into a Reminder. */
  class FirestoreClient {
    var reminders: map<string, Reminder>
    var order: seq<string>
    var undecodable: set<string>
    var users: map<string, User>

    /** `order` lists every reminder document exactly once. */
    ghost predicate Valid()
      reads this
    {
      && (forall i :: 0 <= i < |order| ==> order[i] in reminders)
      && (forall id :: id in reminders ==> id in order)
      && Distinct(order)
      && undecodable <= reminders.Keys
    }

    constructor ()
      ensures Valid()
      ensures reminders == map[] && order == [] && undecodable == {} && users == map[]
    {
      reminders := map[];
      order := [];
      undecodable := {};
      users := map[];
    }

    /** CreateReminder: forces status "active" and both timestamps to `now`,
        whatever the caller supplied, and adds the document under `newId`,
        the fresh id the store assigns, at the place in query order the
        store chooses. */
    method CreateReminder(r: Reminder, newId: string, now: int) returns (stored: Reminder, ok: bool)
      requires Valid()
      requires newId !in reminders
      modifies this
      ensures Valid()
      ensures stored == r.(status := Active, createdAt := now, updatedAt := now)
      ensures ok ==> reminders == old(reminders)[newId := stored]
      ensures ok ==> exists k :: 0 <= k <= |old(order)| && order == old(order)[..k] + [newId] + old(order)[k..]
      ensures !ok ==> reminders == old(reminders) && order == old(order)
      ensures undecodable == old(undecodable) && users == old(users)
    {
      stored := r.(status := Active, createdAt := now, updatedAt := now);
      ok :| true;
      if ok {
        var k :| 0 <= k <= |order|;
        InsertKeepsDistinct(order, k, newId);
        order := order[..k] + [newId] + order[k..];
        reminders := reminders[newId := stored];
      }
    }

    /** The loop of GetActiveReminders over the documents the status query
        returns, keeping those that decode and whose ETA matches. The query
        itself may fail (None). */
    method QueryActive(f: EtaFilter) returns (res: Option<seq<Reminder>>)
      ensures res.Some? ==> res.value == ActiveAmong(order, reminders, undecodable, f)
    {
      var reachable: bool :| true;
      if !reachable {
        return None;
      }
      var found: seq<Reminder> := [];
      var i := 0;
      while i < |order|
        invariant 0 <= i <= |order|
        invariant found == ActiveAmong(order[..i], reminders, undecodable, f)
      {
        assert order[..i + 1][..i] == order[..i];
        var id := order[i];
        if id in reminders && reminders[id].status == Active && id !in undecodable {
          var r := reminders[id].(id := id);
          if EtaMatches(r.eta, f) {
            found := found + [r];
          }
        }
        i := i + 1;
      }
      assert order[..|order|] == order;
      return Some(found);
    }

    /** GetActiveReminders: the active, decodable reminders whose ETA is
        strictly after `target`, in query order. */
    method GetActiveReminders(target: int) returns (res: Option<seq<Reminder>>)
      ensures res.Some? ==> res.value == ActiveAmong(order, reminders, undecodable, After(target))
    {
      res := QueryActive(After(target));
    }

    /** UpdateReminderStatus: sets status and updatedAt of one document and
        nothing else; it fails on a missing document. */
    method UpdateReminderStatus(id: string, status: Status, now: int) returns (ok: bool)
      modifies this
      ensures id !in old(reminders) ==> !ok
      ensures ok ==> reminders == old(reminders)[id := old(reminders)[id].(status := status, updatedAt := now)]
      ensures !ok ==> reminders == old(reminders)
      ensures order == old(order) && undecodable == old(undecodable) && users == old(users)
    {
      if id !in reminders {
        return false;
      }
      ok :| true;
      if ok {
        reminders := reminders[id := reminders[id].(status := status, updatedAt := now)];
      }
    }

    /** GetUser: the user document, or an error (None) when it is missing,
        does not decode, or the read fails. */
    method GetUser(userId: string) returns (u: Option<User>)
      ensures userId !in users ==> u.None?
      ensures u.Some? ==> userId in users && u.value == users[userId]
    {
      var readable: bool :| true;
      if userId !in users || !readable {
        return None;
      }
      return Some(users[userId]);
    }

    /** UpsertUser: refreshes UpdatedAt, sets CreatedAt only when it is
        zero, and replaces the whole user document. */
    method UpsertUser(u: User, now: int) returns (written: User, ok: bool)
      modifies this
      ensures written == u.(updatedAt := Some(now), createdAt := if u.createdAt.None? then Some(now) else u.createdAt)
      ensures ok ==> users == old(users)[u.id := written]
      ensures !ok ==> users == old(users)
      ensures reminders == old(reminders) && order == old(order) && undecodable == old(undecodable)
    {
      written := u.(updatedAt := Some(now));
      if written.createdAt.None? {
        written := written.(createdAt := Some(now));
      }
      ok :| true;
      if ok {
        users := users[u.id := written];
      }
    }

    /** AddFavorite: a missing user is created with exactly this favorite;
        an existing one gets it appended after the earlier ones. */
    method AddFavorite(userId: string, favorite: Favorite, now: int) returns (ok: bool)
      modifies this
      ensures ok && userId !in old(users) ==>
        users == old(users)[userId := User(userId, [favorite], Some(now), Some(now))]
      ensures ok && userId in old(users) ==>
        users == old(users)[userId := old(users)[userId].(favorites := old(users)[userId].favorites + [favorite], updatedAt := Some(now))]
      ensures !ok ==> users == old(users)
      ensures reminders == old(reminders) && order == old(order) && undecodable == old(undecodable)
    {
      ok :| true;
      if !ok {
        return;
      }
      if userId !in users {
        users := users[userId := User(userId, [favorite], Some(now), Some(now))];
      } else {
        var user := users[userId];
        user := user.(favorites := user.favorites + [favorite], updatedAt := Some(now));
        users := users[userId := user];
      }
    }
  }
}
