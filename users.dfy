/** The user-table handlers of app/routes.py: `get_all_users` and the checks and record of `create_user`. */
module Users {
  import opened Wrappers
  import opened Bson
  import opened Http

  predicate IsAdmin(u: Doc)
  {
    Get(u, "role") == Str("admin")
  }

  /** `find({"role": {"$ne": "admin"}})`: `$ne` also matches a record without `role`; collection order is kept. */
  function NonAdmins(users: seq<Doc>): (r: seq<Doc>)
    ensures |r| <= |users|
    ensures forall i :: 0 <= i < |r| ==> !IsAdmin(r[i]) && r[i] in users
    ensures forall u :: u in users && !IsAdmin(u) ==> u in r
  {
    if users == [] then []
    else
      var rest := NonAdmins(users[1..]);
      assert forall u :: u in users[1..] ==> u in users;
      assert forall u :: u in users ==> u == users[0] || u in users[1..];
      if IsAdmin(users[0]) then rest else [users[0]] + rest
  }

  /** The listing is computed record by record: it keeps the collection order. */
  lemma {:induction false} NonAdminsOfAppend(a: seq<Doc>, b: seq<Doc>)
    ensures NonAdmins(a + b) == NonAdmins(a) + NonAdmins(b)
  {
    if a == [] {
      assert a + b == b;
    } else {
      assert (a + b)[0] == a[0] && (a + b)[1..] == a[1..] + b;
      NonAdminsOfAppend(a[1..], b);
    }
  }

  const MissingFields := HttpError(BadRequest, "Missing fields")

  /** `email`, `password` and `name` all present and truthy. */
  predicate HasRequiredFields(body: Doc)
  {
    Truthy(Get(body, "email")) && Truthy(Get(body, "password")) && Truthy(Get(body, "name"))
  }

  /**
   * `create_user` after the admin gate: the 400 for a missing or empty
   * `email`, `password` or `name`, then the identity provider's account
   * creation, whose outcome `created` is the new uid or the error text it
   * raised, then the record inserted into the user table.
   */
  function NewUser(body: Doc, created: Result<string, string>, now: int): (r: Result<Doc, HttpError>)
    ensures !HasRequiredFields(body) ==> r == Err(MissingFields)
    ensures HasRequiredFields(body) && created.Err? ==> r == Err(HttpError(BadRequest, created.error))
    ensures r.Ok? <==> created.Ok? && HasRequiredFields(body)
    ensures r.Ok? ==>
              && r.value.Keys == {"uid", "email", "name", "password", "role", "created_at", "is_active"}
              && r.value["uid"] == Str(created.value)
              && r.value["email"] == body["email"] && r.value["name"] == body["name"] && r.value["password"] == body["password"]
              && r.value["role"] == Str("user") && r.value["is_active"] == Bool(true) && r.value["created_at"] == Time(now)
  {
    var email, password, name := Get(body, "email"), Get(body, "password"), Get(body, "name");
    if !Truthy(email) || !Truthy(password) || !Truthy(name) then Err(MissingFields)
    else match created
      case Err(message) => Err(HttpError(BadRequest, message))
      case Ok(uid) =>
        Ok(map["uid" := Str(uid), "email" := email, "name" := name, "password" := password,
               "role" := Str("user"), "created_at" := Time(now), "is_active" := Bool(true)])
  }

  /** The field check comes before the identity provider is called: its outcome cannot change a 400 for missing fields. */
  lemma MissingFieldsBeforeProvider(body: Doc, created1: Result<string, string>, created2: Result<string, string>, now: int)
    requires !HasRequiredFields(body)
    ensures NewUser(body, created1, now) == NewUser(body, created2, now) == Err(MissingFields)
  {
  }

  /** A created account is an ordinary user, so it shows in the user listing. */
  lemma CreatedUserIsListed(users: seq<Doc>, body: Doc, created: Result<string, string>, now: int)
    requires NewUser(body, created, now).Ok?
    ensures NonAdmins(users + [NewUser(body, created, now).value]) == NonAdmins(users) + [NewUser(body, created, now).value]
  {
    NonAdminsOfAppend(users, [NewUser(body, created, now).value]);
  }
}
