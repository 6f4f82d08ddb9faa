/**
 * The access gate of app/deps.py: `get_current_user` resolves the claims the
 * token verifier returned to the stored user record, and `require_user` and
 * `require_admin` check that record's role. The verifier itself is outside
 * the model: its outcome is the parameter `verified`, None where it failed.
 */
module Gate {
  import opened Wrappers
  import opened Bson
  import opened Http

  /** The decoded token. */
  type Claims = Doc

  const InvalidCredentials := HttpError(Unauthorized, "Invalid authentication credentials")
  const UserNotFound := HttpError(Unauthorized, "User not found in database")
  const InsufficientPermissions := HttpError(Forbidden, "Insufficient permissions")
  const AdminRequired := HttpError(Forbidden, "Admin privileges required")

  /** `db.users.find_one({"uid": uid})`: position of the first user, in collection order, whose `uid` is `uid`. */
  function FindUserIndex(users: seq<Doc>, uid: Value): (r: Option<nat>)
    ensures r.Some? ==> r.value < |users| && Get(users[r.value], "uid") == uid
    ensures r.Some? ==> forall j :: 0 <= j < r.value ==> Get(users[j], "uid") != uid
    ensures r.None? ==> forall j :: 0 <= j < |users| ==> Get(users[j], "uid") != uid
  {
    if users == [] then None
    else if Get(users[0], "uid") == uid then Some(0)
    else match FindUserIndex(users[1..], uid)
      case None => None
      case Some(i) => Some(i + 1)
  }

  /** Truthiness of the decoded token: None and an empty dict are both rejected. */
  predicate HasClaims(verified: Option<Claims>)
  {
    verified.Some? && verified.value != map[]
  }

  /** `get_current_user`. */
  function GetCurrentUser(verified: Option<Claims>, users: seq<Doc>): (r: Result<Doc, HttpError>)
    ensures !HasClaims(verified) ==> r == Err(InvalidCredentials)
    ensures r.Err? ==> r.error.status == Unauthorized
    ensures HasClaims(verified) ==>
              (r.Ok? <==> exists j :: 0 <= j < |users| && Get(users[j], "uid") == Get(verified.value, "uid"))
    ensures r.Ok? ==>
              var stored := users[FindUserIndex(users, Get(verified.value, "uid")).value];
              && (forall f :: f != "email" ==> (f in r.value <==> f in stored))
              && (forall f :: f != "email" && f in stored ==> r.value[f] == stored[f])
              && "email" in r.value
              && Get(r.value, "email") == (if Truthy(Get(stored, "email")) then stored["email"] else Get(verified.value, "email"))
  {
    if !HasClaims(verified) then Err(InvalidCredentials)
    else
      var claims := verified.value;
      match FindUserIndex(users, Get(claims, "uid"))
      case None => Err(UserNotFound)
      case Some(i) =>
        var user := users[i];
        Ok(if Truthy(Get(user, "email")) then user else user["email" := Get(claims, "email")])
  }

  /** `require_user`'s check on the resolved record. */
  function CheckUser(user: Doc): (r: Result<Doc, HttpError>)
    ensures r.Ok? <==> Get(user, "role") == Str("user") || Get(user, "role") == Str("admin")
    ensures r.Ok? ==> r.value == user
    ensures r.Err? ==> r.error == InsufficientPermissions
  {
    var role := Get(user, "role");
    if role != Str("user") && role != Str("admin") then Err(InsufficientPermissions) else Ok(user)
  }

  /** `require_admin`'s check on the resolved record. */
  function CheckAdmin(user: Doc): (r: Result<Doc, HttpError>)
    ensures r.Ok? <==> Get(user, "role") == Str("admin")
    ensures r.Ok? ==> r.value == user
    ensures r.Err? ==> r.error == AdminRequired
  {
    if Get(user, "role") != Str("admin") then Err(AdminRequired) else Ok(user)
  }

  /** `Depends(require_user)`: the gate in front of the task handlers. */
  function RequireUser(verified: Option<Claims>, users: seq<Doc>): (r: Result<Doc, HttpError>)
    ensures r.Ok? <==> GetCurrentUser(verified, users).Ok? &&
                       Get(GetCurrentUser(verified, users).value, "role") in {Str("user"), Str("admin")}
    ensures r.Ok? ==> r == GetCurrentUser(verified, users)
    ensures GetCurrentUser(verified, users).Err? ==> r == GetCurrentUser(verified, users)
    ensures GetCurrentUser(verified, users).Ok? && r.Err? ==> r.error == InsufficientPermissions
  {
    var user :- GetCurrentUser(verified, users);
    CheckUser(user)
  }

  /** `Depends(require_admin)`: the gate in front of the admin handlers. */
  function RequireAdmin(verified: Option<Claims>, users: seq<Doc>): (r: Result<Doc, HttpError>)
    ensures r.Ok? <==> GetCurrentUser(verified, users).Ok? && Get(GetCurrentUser(verified, users).value, "role") == Str("admin")
    ensures r.Ok? ==> r == GetCurrentUser(verified, users)
    ensures GetCurrentUser(verified, users).Err? ==> r == GetCurrentUser(verified, users)
    ensures GetCurrentUser(verified, users).Ok? && r.Err? ==> r.error == AdminRequired
  {
    var user :- GetCurrentUser(verified, users);
    CheckAdmin(user)
  }

  /** The role stored in the user table decides; a `role` claim in the token is never consulted. */
  lemma TokenRoleIgnored(claims: Claims, role: Value, users: seq<Doc>)
    requires claims != map[]
    ensures GetCurrentUser(Some(claims), users) == GetCurrentUser(Some(claims["role" := role]), users)
  {
    assert Get(claims, "uid") == Get(claims["role" := role], "uid");
    assert Get(claims, "email") == Get(claims["role" := role], "email");
  }

  /** A failed verification is refused before the user table is read. */
  lemma NoClaimsIndependentOfUsers(verified: Option<Claims>, users1: seq<Doc>, users2: seq<Doc>)
    requires !HasClaims(verified)
    ensures RequireUser(verified, users1) == RequireUser(verified, users2) == Err(InvalidCredentials)
    ensures RequireAdmin(verified, users1) == RequireAdmin(verified, users2) == Err(InvalidCredentials)
  {
  }

  /** A valid token for an account missing from the user table is unauthenticated, not forbidden. */
  lemma UnknownAccountIsUnauthenticated(claims: Claims, users: seq<Doc>)
    requires claims != map[]
    requires forall j :: 0 <= j < |users| ==> Get(users[j], "uid") != Get(claims, "uid")
    ensures RequireUser(Some(claims), users) == Err(UserNotFound)
    ensures RequireAdmin(Some(claims), users) == Err(UserNotFound)
  {
  }

  /** 401 comes only from resolving the user, 403 only from the role check. */
  lemma GateStatuses(verified: Option<Claims>, users: seq<Doc>)
    ensures RequireUser(verified, users).Err? ==>
              (RequireUser(verified, users).error.status == Unauthorized <==> GetCurrentUser(verified, users).Err?)
    ensures RequireAdmin(verified, users).Err? ==>
              (RequireAdmin(verified, users).error.status == Unauthorized <==> GetCurrentUser(verified, users).Err?)
    ensures RequireUser(verified, users).Err? ==> RequireUser(verified, users).error.status in {Unauthorized, Forbidden}
    ensures RequireAdmin(verified, users).Err? ==> RequireAdmin(verified, users).error.status in {Unauthorized, Forbidden}
  {
  }

  /** Whoever passes the admin gate passes the user gate, as the same record. */
  lemma AdminPassesUserGate(verified: Option<Claims>, users: seq<Doc>)
    requires RequireAdmin(verified, users).Ok?
    ensures RequireUser(verified, users) == RequireAdmin(verified, users)
  {
  }

  /** A resolved "user" account passes the user gate and is forbidden (403, not 401) at the admin gate. */
  lemma UserForbiddenAtAdminGate(verified: Option<Claims>, users: seq<Doc>)
    requires GetCurrentUser(verified, users).Ok?
    requires Get(GetCurrentUser(verified, users).value, "role") == Str("user")
    ensures RequireUser(verified, users) == GetCurrentUser(verified, users)
    ensures RequireAdmin(verified, users) == Err(AdminRequired)
  {
  }
}
