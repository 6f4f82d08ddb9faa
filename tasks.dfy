/**
 * The task handlers of app/routes.py as functions of the task table.
 * The table is a map from the key (user_id, date) to the record stored under
 * it, which is the unique compound index on those two fields.
 */
module Tasks {
  import opened Wrappers
  import opened Bson
  import opened Http
  import opened Query
  import Calendar

  datatype Key = Key(userId: Value, date: Value)

  type Table = map<Key, Doc>

  /** The index entry of a record; a missing field is indexed as null. */
  function KeyOf(d: Doc): Key
  {
    Key(Get(d, "user_id"), Get(d, "date"))
  }

  /** Every record is stored under its own (user_id, date). */
  ghost predicate WellKeyed(t: Table)
  {
    forall k :: k in t ==> KeyOf(t[k]) == k
  }

  /** Under the index, a record is found at its key, and two records never share a key. */
  lemma StoredUnderOwnKey(t: Table, d: Doc)
    requires WellKeyed(t) && d in t.Values
    ensures KeyOf(d) in t && t[KeyOf(d)] == d
  {
    var k :| k in t && t[k] == d;
  }

  const TaskNotFound := HttpError(NotFound, "Task not found")
  /** The query validation's 422; the framework's detail is a list of validation errors, so this text is symbolic. */
  const LimitOutOfRange := HttpError(Unprocessable, "limit must be between 1 and 100")

  /** The `limit` a request gets when it sends none: 30 for the history, 100 for the admin listing. */
  const DefaultHistoryLimit := 30
  const DefaultAdminLimit := 100

  /** `user["uid"]`, a KeyError when the record has none. */
  function UidOf(user: Doc): Result<Value, HttpError>
  {
    if "uid" in user then Ok(user["uid"]) else Err(ServerError)
  }

  /** `date or get_today_str()`: an absent or empty date means today. */
  function TargetDate(date: Option<string>, today: string): string
  {
    if date.Some? && date.value != "" then date.value else today
  }

  /** The `{"exists": ..., "task": ...}` response; the task is null when there is none. */
  datatype Lookup = Lookup(present: bool, task: Option<Doc>)

  /** `get_today_task`. */
  function GetToday(t: Table, user: Doc, date: Option<string>, today: string): (r: Result<Lookup, HttpError>)
    ensures r.Err? <==> "uid" !in user
    ensures r.Err? ==> r.error == ServerError
    ensures r.Ok? ==> (r.value.present <==> r.value.task.Some?)
    ensures r.Ok? && r.value.present ==> r.value.task.value in t.Values
    ensures WellKeyed(t) && r.Ok? && r.value.present ==>
              Get(r.value.task.value, "user_id") == user["uid"] && Get(r.value.task.value, "date") == Str(TargetDate(date, today))
  {
    var uid :- UidOf(user);
    var k := Key(uid, Str(TargetDate(date, today)));
    Ok(if k in t then Lookup(true, Some(t[k])) else Lookup(false, None))
  }

  /**
   * The key lookup is the store's `find_one({"user_id": uid, "date": target})`:
   * `exists` is true exactly when a record matches, the task is that record
   * and no other matches; otherwise the task is null and nothing is made up.
   */
  lemma TodayIsFindOne(t: Table, user: Doc, date: Option<string>, today: string)
    requires WellKeyed(t) && "uid" in user
    ensures GetToday(t, user, date, today).Ok?
    ensures var r := GetToday(t, user, date, today).value;
            var f := Filter(Some(user["uid"]), Some(Str(TargetDate(date, today))), None);
            && (r.present <==> exists d :: d in t.Values && Matches(d, f))
            && (r.present ==> r.task.Some? && r.task.value in t.Values && Matches(r.task.value, f))
            && (r.present ==> forall d :: d in t.Values && Matches(d, f) ==> d == r.task.value)
            && (!r.present ==> r.task == None)
  {
    var f := Filter(Some(user["uid"]), Some(Str(TargetDate(date, today))), None);
    var k := Key(user["uid"], Str(TargetDate(date, today)));
    forall d | d in t.Values && Matches(d, f) ensures k in t && d == t[k] {
      StoredUnderOwnKey(t, d);
    }
    if k in t {
      assert t[k] in t.Values;
    }
  }

  /** `get_previous_task`. */
  ghost function GetPrevious(t: Table, user: Doc, beforeDate: Option<string>, today: string): (r: Result<Lookup, HttpError>)
    ensures r.Err? <==> "uid" !in user
    ensures r.Err? ==> r.error == ServerError
    ensures r.Ok? ==> (r.value.present <==> r.value.task.Some?)
    ensures r.Ok? && r.value.present ==>
              r.value.task.value in t.Values && EarlierOf(r.value.task.value, user["uid"], TargetDate(beforeDate, today))
  {
    var uid :- UidOf(user);
    var found := Find(t.Values, Filter(Some(uid), None, Some(TargetDate(beforeDate, today))), AtMost(1));
    Ok(if found == [] then Lookup(false, None) else Lookup(true, Some(found[0])))
  }

  /** A record of user `uid` whose date is a string strictly before `target`. */
  predicate EarlierOf(d: Doc, uid: Value, target: string)
  {
    Get(d, "user_id") == uid && Get(d, "date").Str? && StrLt(Get(d, "date").s, target)
  }

  /**
   * `get_previous_task` returns the caller's record with the greatest date
   * strictly before the target, and `exists=false` when there is none.
   */
  lemma PreviousIsLatestBefore(t: Table, user: Doc, beforeDate: Option<string>, today: string)
    requires WellKeyed(t) && "uid" in user
    ensures GetPrevious(t, user, beforeDate, today).Ok?
    ensures var r := GetPrevious(t, user, beforeDate, today).value;
            var uid, target := user["uid"], TargetDate(beforeDate, today);
            && (r.present <==> exists d :: d in t.Values && EarlierOf(d, uid, target))
            && (!r.present ==> r.task == None)
            && (r.present ==> r.task.Some? && r.task.value in t.Values && EarlierOf(r.task.value, uid, target))
            && (r.present ==> forall d :: d in t.Values && EarlierOf(d, uid, target) ==>
                  StrLe(Get(d, "date").s, Get(r.task.value, "date").s) &&
                  (Get(d, "date") == Get(r.task.value, "date") ==> d == r.task.value))
  {
    var uid, target := user["uid"], TargetDate(beforeDate, today);
    var f := Filter(Some(uid), None, Some(target));
    assert forall d :: Matches(d, f) <==> EarlierOf(d, uid, target);
    FindOneLatest(t.Values, f);
    var found := Find(t.Values, f, AtMost(1));
    if found != [] {
      var top := found[0];
      forall e | e in t.Values && EarlierOf(e, uid, target)
        ensures StrLe(Get(e, "date").s, Get(top, "date").s)
        ensures Get(e, "date") == Get(top, "date") ==> e == top
      {
        assert ValueLe(DateOf(e), DateOf(top));
        if Get(e, "date") == Get(top, "date") {
          StoredUnderOwnKey(t, e);
          StoredUnderOwnKey(t, top);
        }
      }
    }
  }

  /** A date string in the canonical `YYYY-MM-DD` form of a real day, as `get_today_str` writes it. */
  predicate IsCanonicalDate(s: string)
  {
    Calendar.ParseDate(s).Some? && Calendar.Format(Calendar.ParseDate(s).value) == s
  }

  /** The day number of a canonical date string: days since 0001-01-01, plus one. */
  function DayNumber(s: string): int
    requires IsCanonicalDate(s)
  {
    Calendar.Ordinal(Calendar.ParseDate(s).value)
  }

  /** On canonical date strings, the store's `$lt` is the calendar's "earlier day". */
  lemma CanonicalOrder(a: string, b: string)
    requires IsCanonicalDate(a) && IsCanonicalDate(b)
    ensures StrLt(a, b) <==> DayNumber(a) < DayNumber(b)
  {
    Calendar.FormatOrderIsChronological(Calendar.ParseDate(a).value, Calendar.ParseDate(b).value);
  }

  /** A record of user `uid` with a canonical date string. */
  predicate CanonicalOf(d: Doc, uid: Value)
  {
    Get(d, "user_id") == uid && Get(d, "date").Str? && IsCanonicalDate(Get(d, "date").s)
  }

  /** String-latest among earlier canonical dates is day-latest. */
  lemma LatestIsChronological(top: string, e: string, target: string)
    requires IsCanonicalDate(top) && IsCanonicalDate(e) && IsCanonicalDate(target)
    requires StrLt(e, target) ==> StrLe(e, top)
    requires DayNumber(e) < DayNumber(target)
    ensures DayNumber(e) <= DayNumber(top)
  {
    CanonicalOrder(e, target);
    CanonicalOrder(top, e);
    if StrLt(top, e) {
      StrLtAsymmetric(top, e);
    }
  }

  /**
   * When the target and the caller's stored dates are canonical, the string
   * comparison the store does is the calendar's: the previous task is the
   * caller's latest day strictly before the target day.
   */
  lemma PreviousIsChronological(t: Table, user: Doc, beforeDate: Option<string>, today: string)
    requires WellKeyed(t) && "uid" in user
    requires IsCanonicalDate(TargetDate(beforeDate, today))
    requires forall d :: d in t.Values && Get(d, "user_id") == user["uid"] && Get(d, "date").Str? ==> CanonicalOf(d, user["uid"])
    ensures var r := GetPrevious(t, user, beforeDate, today).value;
            var target := DayNumber(TargetDate(beforeDate, today));
            r.present ==>
              && CanonicalOf(r.task.value, user["uid"])
              && DayNumber(Get(r.task.value, "date").s) < target
              && forall d :: d in t.Values && CanonicalOf(d, user["uid"]) && DayNumber(Get(d, "date").s) < target ==>
                   DayNumber(Get(d, "date").s) <= DayNumber(Get(r.task.value, "date").s)
  {
    PreviousIsLatestBefore(t, user, beforeDate, today);
    var r := GetPrevious(t, user, beforeDate, today).value;
    var uid, ts := user["uid"], TargetDate(beforeDate, today);
    if r.present {
      var top := Get(r.task.value, "date").s;
      assert CanonicalOf(r.task.value, uid);
      CanonicalOrder(top, ts);
      forall d | d in t.Values && CanonicalOf(d, uid) && DayNumber(Get(d, "date").s) < DayNumber(ts)
        ensures DayNumber(Get(d, "date").s) <= DayNumber(top)
      {
        assert StrLt(Get(d, "date").s, ts) ==> EarlierOf(d, uid, ts);
        LatestIsChronological(top, Get(d, "date").s, ts);
      }
    }
  }

  /** `get_task_history`; `limit` outside 1..100 is refused by the query validation. */
  ghost function GetHistory(t: Table, user: Doc, limit: int): (r: Result<seq<Doc>, HttpError>)
    ensures r.Err? <==> !(1 <= limit <= 100) || "uid" !in user
    ensures r.Err? ==> r.error == if !(1 <= limit <= 100) then LimitOutOfRange else ServerError
    ensures r.Ok? ==> |r.value| <= limit && SortedByDateDesc(r.value) && Distinct(r.value)
    ensures r.Ok? ==> forall i :: 0 <= i < |r.value| ==> r.value[i] in t.Values && Get(r.value[i], "user_id") == user["uid"]
    ensures r.Ok? ==> forall d :: d in t.Values && Get(d, "user_id") == user["uid"] && d !in r.value ==>
              |r.value| == limit && forall i :: 0 <= i < |r.value| ==> ValueLe(DateOf(d), DateOf(r.value[i]))
  {
    if !(1 <= limit <= 100) then Err(LimitOutOfRange)
    else
      var uid :- UidOf(user);
      Ok(Find(t.Values, Filter(Some(uid), None, None), AtMost(limit)))
  }

  /** The filter of `get_all_tasks`: each parameter filters only when it is a non-empty string. */
  function AdminFilter(date: Option<string>, userUid: Option<string>): Filter
  {
    Filter(if userUid.Some? && userUid.value != "" then Some(Str(userUid.value)) else None,
           if date.Some? && date.value != "" then Some(Str(date.value)) else None,
           None)
  }

  /** `get_all_tasks`; a `limit` beyond 64 bits is refused by the driver, a 500. */
  ghost function GetAllTasks(t: Table, date: Option<string>, userUid: Option<string>, limit: int): (r: Result<seq<Doc>, HttpError>)
    ensures r.Err? <==> !FitsInt64(limit)
    ensures r.Err? ==> r.error == ServerError
    ensures r.Ok? && limit != 0 ==> |r.value| <= if limit < 0 then -limit else limit
    ensures r.Ok? ==> SortedByDateDesc(r.value) && Distinct(r.value)
    ensures r.Ok? ==> forall i :: 0 <= i < |r.value| ==> r.value[i] in t.Values
    ensures r.Ok? ==> forall i :: 0 <= i < |r.value| ==>
              date.Some? && date.value != "" ==> Get(r.value[i], "date") == Str(date.value)
    ensures r.Ok? ==> forall i :: 0 <= i < |r.value| ==>
              userUid.Some? && userUid.value != "" ==> Get(r.value[i], "user_id") == Str(userUid.value)
    ensures r.Ok? ==> |r.value| == Capped(|MatchSet(t.Values, AdminFilter(date, userUid))|, CursorLimit(limit))
    ensures r.Ok? ==> forall d :: d in t.Values && Matches(d, AdminFilter(date, userUid)) && d !in r.value ==>
              limit != 0 && forall i :: 0 <= i < |r.value| ==> ValueLe(DateOf(d), DateOf(r.value[i]))
    ensures r.Ok? && limit == 0 ==> forall d :: d in t.Values && Matches(d, AdminFilter(date, userUid)) ==> d in r.value
  {
    if !FitsInt64(limit) then Err(ServerError)
    else Ok(Find(t.Values, AdminFilter(date, userUid), CursorLimit(limit)))
  }

  /**
   * Requests that send no `limit`: the history is the caller's 30 latest
   * records (or all of them when there are fewer), the admin listing the
   * 100 latest records of the whole table.
   */
  lemma DefaultLimits(t: Table, user: Doc)
    requires "uid" in user
    ensures GetHistory(t, user, DefaultHistoryLimit).Ok?
    ensures |GetHistory(t, user, DefaultHistoryLimit).value| ==
              Capped(|MatchSet(t.Values, Filter(Some(user["uid"]), None, None))|, AtMost(30))
    ensures GetAllTasks(t, None, None, DefaultAdminLimit).Ok?
    ensures |GetAllTasks(t, None, None, DefaultAdminLimit).value| == Capped(|t.Values|, AtMost(100))
  {
    assert MatchSet(t.Values, AdminFilter(None, None)) == t.Values;
  }

  // ---------------------------------------------------------------------
  // save_task

  /** The two shapes of the `TaskSave` body model: as declared, and with the `date` field the handler reads. */
  datatype Schema = AsWritten | WithDate

  const StringFields: set<string> := {"status", "assign_website", "task_assign_no", "other_tasks", "task_updates", "additional", "note"}

  /** The fields `TaskSave` declares. */
  function SaveFields(schema: Schema): set<string>
  {
    StringFields + {"total_pages_done"} + (if schema == WithDate then {"date"} else {})
  }

  /**
   * A validated body, reduced to the fields the client sent
   * (`dict(exclude_unset=True)`): declared fields only, each a string or an
   * integer as declared, or an explicit null.
   */
  predicate IsTaskSave(schema: Schema, p: Doc)
  {
    && p.Keys <= SaveFields(schema)
    && (forall f :: f in p && f != "total_pages_done" ==> p[f].Str? || p[f].Null?)
    && ("total_pages_done" in p ==> p["total_pages_done"].Int? || p["total_pages_done"].Null?)
  }

  /** `task_data.date`: an AttributeError when the model declares no such field, its value or None otherwise. */
  function PayloadDate(schema: Schema, p: Doc): Result<Option<string>, HttpError>
  {
    if schema == AsWritten then Err(ServerError)
    else if "date" in p && p["date"].Str? then Ok(Some(p["date"].s))
    else Ok(None)
  }

  /** The fields written only when the upsert inserts. */
  const InsertFields: set<string> := {"user_id", "date", "owner_name", "planner", "created_at"}

  /** `user.get("name") or user.get("email", "Unknown")`. */
  function OwnerName(user: Doc): (v: Value)
    ensures Truthy(Get(user, "name")) ==> v == user["name"]
    ensures !Truthy(Get(user, "name")) && "email" in user ==> v == user["email"]
    ensures !Truthy(Get(user, "name")) && "email" !in user ==> v == Str("Unknown")
  {
    if Truthy(Get(user, "name")) then user["name"] else if "email" in user then user["email"] else Str("Unknown")
  }

  /** The `$set` document: the sent fields without `date`, plus `updated_at`. */
  function SetDoc(p: Doc, now: int): (r: Doc)
    ensures r.Keys == p.Keys - {"date"} + {"updated_at"}
  {
    (p - {"date"})["updated_at" := Time(now)]
  }

  /** The `$setOnInsert` document. */
  function InsertDoc(uid: Value, target: string, user: Doc, dayName: string, now: int): (r: Doc)
    ensures r.Keys == InsertFields
  {
    map["user_id" := uid, "date" := Str(target), "owner_name" := OwnerName(user), "planner" := Str(dayName), "created_at" := Time(now)]
  }

  /**
   * `update_one({key}, {"$set": update, "$setOnInsert": onInsert}, upsert=True)`:
   * a present record gets `set` merged in; an absent one is created from the
   * key's equality fields, `onInsert` and `set`.
   */
  function Upsert(t: Table, k: Key, update: Doc, onInsert: Doc): Table
  {
    if k in t then t[k := t[k] + update]
    else t[k := map["user_id" := k.userId, "date" := k.date] + onInsert + update]
  }

  /** `save_task` on the table before the call; no table when the handler raises. */
  function SaveTask(schema: Schema, t: Table, user: Doc, p: Doc, today: string, now: int): (r: Result<Table, HttpError>)
    ensures schema == AsWritten ==> r == Err(ServerError)
    ensures r.Err? ==> r.error == ServerError
    ensures r.Ok? ==> "uid" in user && r.value.Keys == t.Keys + {Key(user["uid"], Str(SaveTarget(p, today)))}
  {
    var uid :- UidOf(user);
    var date :- PayloadDate(schema, p);
    var target := TargetDate(date, today);
    match Calendar.DayName(target)
    case None => Err(ServerError)
    case Some(dayName) =>
      if !Encodable(p) then Err(ServerError)
      else Ok(Upsert(t, Key(uid, Str(target)), SetDoc(p, now), InsertDoc(uid, target, user, dayName, now)))
  }

  /** The day a save stores under: the payload's non-empty `date`, else today. */
  function SaveTarget(p: Doc, today: string): string
  {
    TargetDate(if "date" in p && p["date"].Str? then Some(p["date"].s) else None, today)
  }

  /** As declared, `TaskSave` has no `date`, so every call of `save_task` raises before it writes. */
  lemma AsWrittenSaveAlwaysFails(t: Table, user: Doc, p: Doc, today: string, now: int)
    ensures SaveTask(AsWritten, t, user, p, today, now) == Err(ServerError)
  {
  }

  /**
   * With a `date` field, a save fails exactly on a missing uid, a target date
   * strptime rejects, or an integer the driver cannot encode in 64 bits.
   */
  lemma SaveFailures(t: Table, user: Doc, p: Doc, today: string, now: int)
    ensures SaveTask(WithDate, t, user, p, today, now).Err? <==>
              "uid" !in user || Calendar.DayName(SaveTarget(p, today)).None? || !Encodable(p)
    ensures SaveTask(WithDate, t, user, p, today, now).Err? ==> SaveTask(WithDate, t, user, p, today, now).error == ServerError
  {
  }

  /** A save that succeeds is the upsert at (uid, target date) with the day name of that date. */
  lemma SaveIsUpsert(t: Table, user: Doc, p: Doc, today: string, now: int)
    requires SaveTask(WithDate, t, user, p, today, now).Ok?
    ensures "uid" in user && Calendar.DayName(SaveTarget(p, today)).Some? && Encodable(p)
    ensures var target := SaveTarget(p, today);
            SaveTask(WithDate, t, user, p, today, now) ==
              Ok(Upsert(t, Key(user["uid"], Str(target)), SetDoc(p, now),
                        InsertDoc(user["uid"], target, user, Calendar.DayName(target).value, now)))
  {
  }

  /** The upsert of a save replaces or creates the one record at its key and keeps the table well keyed. */
  lemma UpsertTouchesOneKey(t: Table, k: Key, p: Doc, now: int, onInsert: Doc)
    requires WellKeyed(t) && IsTaskSave(WithDate, p)
    requires Get(onInsert, "user_id") == k.userId && Get(onInsert, "date") == k.date
    ensures var t' := Upsert(t, k, SetDoc(p, now), onInsert);
            && t'.Keys == t.Keys + {k}
            && (forall k' :: k' in t && k' != k ==> t'[k'] == t[k'])
            && KeyOf(t'[k]) == k
            && WellKeyed(t')
  {
    var update := SetDoc(p, now);
    assert "user_id" !in update && "date" !in update;
    if k in t {
      assert Get(t[k] + update, "user_id") == Get(t[k], "user_id");
      assert Get(t[k] + update, "date") == Get(t[k], "date");
    } else {
      var created := map["user_id" := k.userId, "date" := k.date] + onInsert + update;
      assert Get(created, "user_id") == k.userId && Get(created, "date") == k.date;
    }
  }

  /**
   * After a save, exactly the record at (uid, target date) is new or changed:
   * it carries the key, every other key keeps its record, and the table stays
   * well keyed.
   */
  lemma SaveTouchesOneKey(t: Table, user: Doc, p: Doc, today: string, now: int)
    requires WellKeyed(t) && IsTaskSave(WithDate, p)
    requires SaveTask(WithDate, t, user, p, today, now).Ok?
    ensures var t' := SaveTask(WithDate, t, user, p, today, now).value;
            var k := Key(user["uid"], Str(SaveTarget(p, today)));
            && t'.Keys == t.Keys + {k}
            && (forall k' :: k' in t && k' != k ==> t'[k'] == t[k'])
            && KeyOf(t'[k]) == k
            && WellKeyed(t')
  {
    SaveIsUpsert(t, user, p, today, now);
    var target := SaveTarget(p, today);
    UpsertTouchesOneKey(t, Key(user["uid"], Str(target)), p, now,
                        InsertDoc(user["uid"], target, user, Calendar.DayName(target).value, now));
  }

  lemma UpsertPartialUpdate(t: Table, k: Key, p: Doc, now: int, onInsert: Doc)
    requires IsTaskSave(WithDate, p) && onInsert.Keys == InsertFields
    ensures var t' := Upsert(t, k, SetDoc(p, now), onInsert);
            && k in t'
            && (forall f :: f in p && f != "date" ==> f in t'[k] && t'[k][f] == p[f])
            && (forall f :: k in t && f in t[k] && f !in p && f != "updated_at" ==> f in t'[k] && t'[k][f] == t[k][f])
            && t'[k]["updated_at"] == Time(now)
  {
    assert "updated_at" !in InsertFields;
  }

  /**
   * The partial-update law: the sent fields overwrite, the stored fields the
   * client did not send are kept, `date` is not written from the body, and
   * `updated_at` is always the time of the save.
   */
  lemma SavePartialUpdate(t: Table, user: Doc, p: Doc, today: string, now: int)
    requires IsTaskSave(WithDate, p)
    requires SaveTask(WithDate, t, user, p, today, now).Ok?
    ensures var t' := SaveTask(WithDate, t, user, p, today, now).value;
            var k := Key(user["uid"], Str(SaveTarget(p, today)));
            && k in t'
            && (forall f :: f in p && f != "date" ==> f in t'[k] && t'[k][f] == p[f])
            && (forall f :: k in t && f in t[k] && f !in p && f != "updated_at" ==> f in t'[k] && t'[k][f] == t[k][f])
            && t'[k]["updated_at"] == Time(now)
  {
    SaveIsUpsert(t, user, p, today, now);
    var target := SaveTarget(p, today);
    UpsertPartialUpdate(t, Key(user["uid"], Str(target)), p, now,
                        InsertDoc(user["uid"], target, user, Calendar.DayName(target).value, now));
  }

  lemma UpsertInsertOnly(t: Table, k: Key, p: Doc, now: int, onInsert: Doc)
    requires IsTaskSave(WithDate, p) && onInsert.Keys == InsertFields
    ensures var t' := Upsert(t, k, SetDoc(p, now), onInsert);
            && k in t'
            && (k !in t ==> t'[k].Keys == p.Keys - {"date"} + {"updated_at"} + InsertFields)
            && (k !in t ==> forall f :: f in InsertFields ==> t'[k][f] == onInsert[f])
            && (k in t ==> forall f :: f in InsertFields ==> (f in t'[k] <==> f in t[k]) && (f in t[k] ==> t'[k][f] == t[k][f]))
  {
    var update := SetDoc(p, now);
    assert forall f :: f in InsertFields ==> f !in update;
  }

  /** The insert-only law for the documents a save builds. */
  lemma UpsertInsertFields(t: Table, uid: Value, target: string, user: Doc, dayName: string, p: Doc, now: int)
    requires IsTaskSave(WithDate, p)
    ensures var k := Key(uid, Str(target));
            var t' := Upsert(t, k, SetDoc(p, now), InsertDoc(uid, target, user, dayName, now));
            && k in t'
            && (k !in t ==>
                  && t'[k].Keys == p.Keys - {"date"} + {"updated_at"} + InsertFields
                  && Get(t'[k], "user_id") == uid
                  && Get(t'[k], "date") == Str(target)
                  && Get(t'[k], "owner_name") == OwnerName(user)
                  && Get(t'[k], "planner") == Str(dayName)
                  && Get(t'[k], "created_at") == Time(now))
            && (k in t ==> forall f :: f in InsertFields ==> (f in t'[k] <==> f in t[k]) && (f in t[k] ==> t'[k][f] == t[k][f]))
  {
    var ins := InsertDoc(uid, target, user, dayName, now);
    UpsertInsertOnly(t, Key(uid, Str(target)), p, now, ins);
  }

  /**
   * The insert-only fields: a new record gets user_id, date, owner_name,
   * planner (the day name of its date) and created_at; an existing record's
   * values of these fields are left as they were.
   */
  lemma SaveInsertOnly(t: Table, user: Doc, p: Doc, today: string, now: int)
    requires IsTaskSave(WithDate, p)
    requires SaveTask(WithDate, t, user, p, today, now).Ok?
    ensures var t' := SaveTask(WithDate, t, user, p, today, now).value;
            var target := SaveTarget(p, today);
            var k := Key(user["uid"], Str(target));
            && k in t'
            && (k !in t ==>
                  && t'[k].Keys == p.Keys - {"date"} + {"updated_at"} + InsertFields
                  && Get(t'[k], "user_id") == user["uid"]
                  && Get(t'[k], "date") == Str(target)
                  && Get(t'[k], "owner_name") == OwnerName(user)
                  && Calendar.DayName(target).Some? && Get(t'[k], "planner") == Str(Calendar.DayName(target).value)
                  && Get(t'[k], "created_at") == Time(now))
            && (k in t ==> forall f :: f in InsertFields ==> (f in t'[k] <==> f in t[k]) && (f in t[k] ==> t'[k][f] == t[k][f]))
  {
    SaveIsUpsert(t, user, p, today, now);
    var target := SaveTarget(p, today);
    UpsertInsertFields(t, user["uid"], target, user, Calendar.DayName(target).value, p, now);
  }

  /** The `$set` and `$setOnInsert` documents never name the same field, which the store would refuse. */
  lemma SaveDocsDisjoint(p: Doc, now: int, uid: Value, target: string, user: Doc, dayName: string)
    requires IsTaskSave(WithDate, p)
    ensures SetDoc(p, now).Keys !! InsertDoc(uid, target, user, dayName, now).Keys
  {
  }

  /** The upsert leaves every other key as it was. */
  lemma UpsertElsewhere(t: Table, k: Key, c: Key, update: Doc, onInsert: Doc)
    requires c != k
    ensures c in Upsert(t, k, update, onInsert) <==> c in t
    ensures c in t ==> Upsert(t, k, update, onInsert)[c] == t[c]
  {
  }

  /** Today's lookup reads one key only. */
  lemma GetTodayReadsOneKey(t: Table, t': Table, user: Doc, date: Option<string>, today: string)
    requires "uid" in user
    requires var c := Key(user["uid"], Str(TargetDate(date, today)));
             (c in t' <==> c in t) && (c in t ==> t'[c] == t[c])
    ensures GetToday(t', user, date, today) == GetToday(t, user, date, today)
  {
  }

  /**
   * A save under an unpadded date such as "2024-1-5" is stored under that
   * string, a key different from the canonical "2024-01-05" of the same day:
   * the planner is that day's name, yet the lookup of today's task under the
   * canonical date answers exactly as before the save.
   */
  lemma UnpaddedSaveIsAnotherKey(t: Table, user: Doc, p: Doc, today: string, now: int, d: Calendar.Date)
    requires "uid" in user && Calendar.Valid(d) && (d.month < 10 || d.day < 10)
    requires "date" in p && p["date"] == Str(Calendar.UnpaddedForm(d)) && Encodable(p)
    ensures SaveTask(WithDate, t, user, p, today, now).Ok?
    ensures var t' := SaveTask(WithDate, t, user, p, today, now).value;
            && Key(user["uid"], Str(Calendar.UnpaddedForm(d))) in t'
            && Calendar.UnpaddedForm(d) != Calendar.Format(d)
            && Calendar.DayName(Calendar.UnpaddedForm(d)) == Calendar.DayName(Calendar.Format(d))
            && GetToday(t', user, Some(Calendar.Format(d)), today) == GetToday(t, user, Some(Calendar.Format(d)), today)
  {
    Calendar.UnpaddedAliases(d);
    Calendar.ParseFormat(d);
    var u, f := Calendar.UnpaddedForm(d), Calendar.Format(d);
    assert SaveTarget(p, today) == u;
    SaveIsUpsert(t, user, p, today, now);
    var uid := user["uid"];
    var k := Key(uid, Str(u));
    var ins := InsertDoc(uid, u, user, Calendar.DayName(u).value, now);
    var t' := Upsert(t, k, SetDoc(p, now), ins);
    assert SaveTask(WithDate, t, user, p, today, now).value == t';
    UpsertElsewhere(t, k, Key(uid, Str(f)), SetDoc(p, now), ins);
    assert TargetDate(Some(f), today) == f;
    GetTodayReadsOneKey(t, t', user, Some(f), today);
  }

  // ---------------------------------------------------------------------
  // admin_update_task, admin_delete_task

  /**
   * `admin_update_task`: `$set` of the free-form body plus `updated_at` on the
   * record at (user_id, date), never an insert. A body naming `user_id` or
   * `date` moves the record to a new key; a move onto an existing record
   * violates the unique index and the store raises. The driver encodes the
   * body before the store matches, so an integer beyond 64 bits is a 500
   * even on a miss; a body that sets `_id` matches and then is refused,
   * `_id` being immutable.
   */
  function AdminUpdate(t: Table, userId: string, date: string, payload: Doc, now: int): (r: Result<Table, HttpError>)
    ensures r == Err(TaskNotFound) <==> Encodable(payload) && Key(Str(userId), Str(date)) !in t
    ensures r == Err(ServerError) <==>
              || !Encodable(payload)
              || (Key(Str(userId), Str(date)) in t &&
                  ("_id" in payload ||
                   (KeyOf(Updated(t, Key(Str(userId), Str(date)), payload, now)) != Key(Str(userId), Str(date)) &&
                    KeyOf(Updated(t, Key(Str(userId), Str(date)), payload, now)) in t)))
    ensures r.Err? ==> r.error == TaskNotFound || r.error == ServerError
    ensures r.Ok? ==> KeyOf(Updated(t, Key(Str(userId), Str(date)), payload, now)) in r.value
    ensures r.Ok? ==> forall j :: j in t && j != Key(Str(userId), Str(date)) ==> j in r.value && r.value[j] == t[j]
  {
    var k := Key(Str(userId), Str(date));
    if !Encodable(payload) then Err(ServerError)
    else if k !in t then Err(TaskNotFound)
    else if "_id" in payload then Err(ServerError)
    else
      var updated := Updated(t, k, payload, now);
      var k' := KeyOf(updated);
      if k' != k && k' in t then Err(ServerError)
      else Ok((t - {k})[k' := updated])
  }

  /** An encodable body that misses is a 404 and leaves nothing to write. */
  lemma AdminUpdateMiss(t: Table, userId: string, date: string, payload: Doc, now: int)
    ensures Encodable(payload) && Key(Str(userId), Str(date)) !in t <==>
              AdminUpdate(t, userId, date, payload, now) == Err(TaskNotFound)
  {
  }

  /** The record an admin update writes: the stored one with the body and `updated_at` merged in. */
  function Updated(t: Table, k: Key, payload: Doc, now: int): Doc
    requires k in t
  {
    t[k] + payload["updated_at" := Time(now)]
  }

  lemma MoveKeepsSize(t: Table, k: Key, k': Key, d: Doc)
    requires k in t && (k' == k || k' !in t)
    ensures ((t - {k})[k' := d]).Keys == t.Keys - {k} + {k'}
    ensures |(t - {k})[k' := d]| == |t|
  {
    var t' := (t - {k})[k' := d];
    assert t'.Keys == t.Keys - {k} + {k'};
    assert t.Keys == (t.Keys - {k}) + {k};
    assert |t.Keys| == |t.Keys - {k}| + 1;
    if k' != k {
      assert k' !in t.Keys - {k};
    }
  }

  /**
   * An update never creates a record: the one record at (user_id, date) moves
   * to the key its fields now name, or stays; every other record stays where
   * it was, and the table stays well keyed.
   */
  lemma AdminUpdateKeys(t: Table, userId: string, date: string, payload: Doc, now: int)
    requires WellKeyed(t)
    requires AdminUpdate(t, userId, date, payload, now).Ok?
    ensures var k := Key(Str(userId), Str(date));
            var t' := AdminUpdate(t, userId, date, payload, now).value;
            var k' := KeyOf(Updated(t, k, payload, now));
            && k in t
            && (k' == k || k' !in t)
            && t'.Keys == t.Keys - {k} + {k'}
            && |t'| == |t|
            && t'[k'] == Updated(t, k, payload, now)
            && (forall j :: j in t && j != k ==> j in t' && t'[j] == t[j])
            && WellKeyed(t')
  {
    var k := Key(Str(userId), Str(date));
    var updated := Updated(t, k, payload, now);
    var k' := KeyOf(updated);
    var t' := (t - {k})[k' := updated];
    assert AdminUpdate(t, userId, date, payload, now).value == t';
    MoveKeepsSize(t, k, k', updated);
    forall j | j in t' ensures KeyOf(t'[j]) == j {
      if j != k' {
        assert j in t && t'[j] == t[j];
      }
    }
  }

  /** The updated record: the body's fields overwrite, the other stored fields stay, `updated_at` is the time of the call. */
  lemma UpdatedFields(t: Table, k: Key, payload: Doc, now: int)
    requires k in t
    ensures var u := Updated(t, k, payload, now);
            && u.Keys == t[k].Keys + payload.Keys + {"updated_at"}
            && (forall f :: f in payload && f != "updated_at" ==> u[f] == payload[f])
            && (forall f :: f in t[k] && f !in payload && f != "updated_at" ==> u[f] == t[k][f])
            && u["updated_at"] == Time(now)
  {
  }

  /** An encodable body that names neither key field nor `_id` updates the record in place. */
  lemma AdminUpdateInPlace(t: Table, userId: string, date: string, payload: Doc, now: int)
    requires WellKeyed(t) && "user_id" !in payload && "date" !in payload
    requires Encodable(payload) && "_id" !in payload
    requires Key(Str(userId), Str(date)) in t
    ensures var k := Key(Str(userId), Str(date));
            AdminUpdate(t, userId, date, payload, now) == Ok(t[k := t[k] + payload["updated_at" := Time(now)]])
  {
    var k := Key(Str(userId), Str(date));
    var updated := t[k] + payload["updated_at" := Time(now)];
    assert KeyOf(updated) == KeyOf(t[k]);
    assert (t - {k})[k := updated] == t[k := updated];
  }

  /** `admin_delete_task`. */
  function AdminDelete(t: Table, userId: string, date: string): (r: Result<Table, HttpError>)
    ensures r.Err? <==> Key(Str(userId), Str(date)) !in t
    ensures r.Err? ==> r.error == TaskNotFound
    ensures r.Ok? ==> r.value.Keys == t.Keys - {Key(Str(userId), Str(date))}
    ensures r.Ok? ==> forall k :: k in r.value ==> r.value[k] == t[k]
    ensures r.Ok? ==> |r.value| == |t| - 1
  {
    var k := Key(Str(userId), Str(date));
    if k in t then Ok(t - {k}) else Err(TaskNotFound)
  }

  lemma DeleteKeepsWellKeyed(t: Table, userId: string, date: string)
    requires WellKeyed(t) && AdminDelete(t, userId, date).Ok?
    ensures WellKeyed(AdminDelete(t, userId, date).value)
  {
  }
}
