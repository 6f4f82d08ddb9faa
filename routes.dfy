/**
 * The database the handlers of app/routes.py write to: the task table and
 * the user table, with the handlers that change them as methods. Each
 * method's new state is the function of the old state that module Tasks or
 * Users defines, where the laws of that change are proved; the read-only
 * handlers are those modules' functions of the current `tasks` and `users`.
 */
module Routes {
  import opened Wrappers
  import opened Bson
  import opened Http
  import opened Tasks
  import Calendar
  import Users
  import Gate

  /**
   * The owner name a save stores, for a caller who passed the user gate:
   * the resolved record always has an `email` key, so the "Unknown" default
   * is never taken, and the owner name is null when neither the stored record
   * nor the token carries an email.
   */
  lemma GatedOwnerName(verified: Option<Gate.Claims>, users: seq<Doc>)
    requires Gate.RequireUser(verified, users).Ok?
    ensures var u := Gate.RequireUser(verified, users).value;
            && "email" in u
            && OwnerName(u) == (if Truthy(Get(u, "name")) then u["name"] else u["email"])
    ensures var u := Gate.RequireUser(verified, users).value;
            var stored := users[Gate.FindUserIndex(users, Get(verified.value, "uid")).value];
            !Truthy(Get(u, "name")) && !Truthy(Get(stored, "email")) && "email" !in verified.value ==> OwnerName(u) == Null
  {
  }

  class Database {
    var tasks: Table
    var users: seq<Doc>

    /** The unique index on (user_id, date) holds. */
    ghost predicate Valid()
      reads this
    {
      WellKeyed(tasks)
    }

    constructor (users: seq<Doc>)
      ensures Valid() && tasks == map[] && this.users == users
    {
      tasks := map[];
      this.users := users;
    }

    /** `save_task`, with the `date` field the handler reads declared on the body model. */
    method SaveTask(user: Doc, payload: Doc, today: string, now: int) returns (r: Result<(), HttpError>)
      requires Valid() && IsTaskSave(WithDate, payload)
      modifies this
      ensures Valid() && users == old(users)
      ensures match Tasks.SaveTask(WithDate, old(tasks), user, payload, today, now)
              case Ok(t) => r == Ok(()) && tasks == t
              case Err(e) => r == Err(e) && tasks == old(tasks)
    {
      if "uid" !in user {
        return Err(ServerError);
      }
      var uid := user["uid"];
      var date := if "date" in payload && payload["date"].Str? then payload["date"].s else "";
      var target := if date != "" then date else today;
      var dayName := Calendar.DayName(target);
      if dayName.None? || !Encodable(payload) {
        return Err(ServerError);
      }
      var updateDoc := payload;
      if "date" in updateDoc {
        updateDoc := updateDoc - {"date"};
      }
      updateDoc := updateDoc["updated_at" := Time(now)];
      assert updateDoc == SetDoc(payload, now);
      var insertDoc := map["user_id" := uid, "date" := Str(target), "owner_name" := OwnerName(user),
                           "planner" := Str(dayName.value), "created_at" := Time(now)];
      var k := Key(uid, Str(target));
      if k in tasks {
        tasks := tasks[k := tasks[k] + updateDoc];
      } else {
        tasks := tasks[k := map["user_id" := uid, "date" := Str(target)] + insertDoc + updateDoc];
      }
      SaveTouchesOneKey(old(tasks), user, payload, today, now);
      r := Ok(());
    }

    /** `admin_update_task`. */
    method AdminUpdateTask(userId: string, date: string, payload: Doc, now: int) returns (r: Result<(), HttpError>)
      requires Valid()
      modifies this
      ensures Valid() && users == old(users)
      ensures match AdminUpdate(old(tasks), userId, date, payload, now)
              case Ok(t) => r == Ok(()) && tasks == t
              case Err(e) => r == Err(e) && tasks == old(tasks)
    {
      if !Encodable(payload) {
        return Err(ServerError);
      }
      var update := payload["updated_at" := Time(now)];
      var k := Key(Str(userId), Str(date));
      if k !in tasks {
        return Err(TaskNotFound);
      }
      if "_id" in update {
        return Err(ServerError);
      }
      var record := tasks[k] + update;
      var k' := KeyOf(record);
      if k' != k && k' in tasks {
        return Err(ServerError);
      }
      tasks := (tasks - {k})[k' := record];
      AdminUpdateKeys(old(tasks), userId, date, payload, now);
      r := Ok(());
    }

    /** `admin_delete_task`. */
    method AdminDeleteTask(userId: string, date: string) returns (r: Result<(), HttpError>)
      requires Valid()
      modifies this
      ensures Valid() && users == old(users)
      ensures match AdminDelete(old(tasks), userId, date)
              case Ok(t) => r == Ok(()) && tasks == t
              case Err(e) => r == Err(e) && tasks == old(tasks)
    {
      var k := Key(Str(userId), Str(date));
      if k !in tasks {
        return Err(TaskNotFound);
      }
      tasks := tasks - {k};
      r := Ok(());
    }

    /** `create_user`: the new account's uid, after its record is appended to the user table. */
    method CreateUser(body: Doc, created: Result<string, string>, now: int) returns (r: Result<string, HttpError>)
      requires Valid()
      modifies this
      ensures Valid() && tasks == old(tasks)
      ensures match Users.NewUser(body, created, now)
              case Ok(u) => r == Ok(created.value) && users == old(users) + [u]
              case Err(e) => r == Err(e) && users == old(users)
    {
      var record := Users.NewUser(body, created, now);
      if record.Err? {
        return Err(record.error);
      }
      users := users + [record.value];
      r := Ok(created.value);
    }
  }
}
