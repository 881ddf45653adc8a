/**
 * The account handlers of Backend/controllers/authController.js:
 * registration through the User schema's hooks, login, the current-user
 * read, logout, and the shape of the token response.
 *
 * bcrypt and jsonwebtoken are parameters: `hash` stands for `bcrypt.hash`,
 * `matches(entered, stored)` for `bcrypt.compare`, and `sign` for
 * `getSignedJwtToken`. Usernames in query filters pass through the schema's
 * `trim` setter, as stored usernames did.
 */
module AuthController {
  import opened Common
  import opened Strings
  import opened Models
  import opened Store

  /** The user object of the token response: id, nickname, username and the populated role, nothing else. */
  datatype TokenUser = TokenUser(id: Id, nickname: string, username: string, role: Option<Role>)

  datatype AuthResponse = AuthResponse(token: string, user: TokenUser)

  /** `sendTokenResponse` for user `id`; a dangling role reference populates to null. */
  function TokenResponse(db: Database, id: Id, sign: Id -> string): (r: AuthResponse)
    requires id in db.users
    reads db
    ensures r.token == sign(id)
    ensures r.user.id == id && r.user.nickname == db.users[id].nickname && r.user.username == db.users[id].username
    ensures r.user.role.Some? <==> db.users[id].role in db.roles
    ensures r.user.role.Some? ==> r.user.role.value == db.roles[db.users[id].role]
  {
    var u := db.users[id];
    AuthResponse(sign(id), TokenUser(id, u.nickname, u.username, if u.role in db.roles then Some(db.roles[u.role]) else None))
  }

  // ---------------------------------------------------------------------------
  // Register

  datatype RegisterBody = RegisterBody(nickname: Option<string>, username: Option<string>, password: Option<string>)

  /** Some stored user holds `username`. */
  predicate UsernameTaken(users: map<Id, User>, username: string)
  {
    exists u :: u in users && users[u].username == username
  }

  predicate HasStudentRole(roles: map<Id, Role>)
  {
    exists r :: r in roles && roles[r].role == Student
  }

  /**
   * The answer of `register`: all three fields must be truthy and the
   * username free; then the schema refuses a blank nickname or username, a
   * password shorter than 6 characters, and a store with no student role to
   * default to.
   */
  function RegisterDecision(db: Database, body: RegisterBody): (r: Outcome)
    reads db
    ensures !Truthy(body.nickname) || !Truthy(body.username) || !Truthy(body.password) ==> r == Invalid
    ensures Truthy(body.username) && UsernameTaken(db.users, Trim(body.username.value)) ==> r == Invalid
    ensures r == Ok <==>
      && Truthy(body.nickname) && Truthy(body.username) && Truthy(body.password)
      && !UsernameTaken(db.users, Trim(body.username.value))
      && HasStudentRole(db.roles)
      && Trim(body.nickname.value) != [] && Trim(body.username.value) != []
      && Utf16Length(body.password.value) >= PasswordMin
    ensures r != Ok ==> r == Invalid
  {
    if !Truthy(body.nickname) || !Truthy(body.username) || !Truthy(body.password) then Invalid
    else if UsernameTaken(db.users, Trim(body.username.value)) then Invalid
    else if !HasStudentRole(db.roles) then Invalid
    else if Trim(body.nickname.value) == [] || Trim(body.username.value) == [] then Invalid
    else if Utf16Length(body.password.value) < PasswordMin then Invalid
    else Ok
  }

  /**
   * `User.create` on a fresh draft: the setters trim, the pre-validate hook
   * picks a student role, the validators check the fields, and the pre-save
   * hook hashes the password. `Failure(Invalid)` when validation fails.
   */
  method CreateUserRecord(roles: map<Id, Role>, nickname: string, username: string, password: string, hash: string -> string)
    returns (r: Result<User>)
    requires ValidRoles(roles)
    ensures r.Success? <==>
      HasStudentRole(roles) && Trim(nickname) != [] && Trim(username) != [] && Utf16Length(password) >= PasswordMin
    ensures r.Failure? ==> r.error == Invalid
    ensures r.Success? ==>
      && r.value.nickname == Trim(nickname) && r.value.username == Trim(username)
      && r.value.password == hash(password)
      && r.value.role in roles && roles[r.value.role].role == Student
  {
    var draft := new UserDraft(nickname, username, password);
    var ok := draft.PreValidate(roles);
    if !ok {
      assert !HasStudentRole(roles);
      return Failure(Invalid);
    }
    assert draft.nickname == Trim(nickname) && draft.username == Trim(username);
    assert draft.password == password && draft.passwordModified;
    var student := draft.role.value;
    assert student in roles && roles[student].role == Student && student != [];
    if !draft.PassesValidators() {
      return Failure(Invalid);
    }
    draft.PreSave(hash);
    assert draft.password == hash(password);
    r := Success(draft.Record());
  }

  /**
   * `register`: the stored user is the record `User.create` builds, under the
   * fresh id `newId`; on refusal the users are unchanged.
   */
  method Register(db: Database, body: RegisterBody, hash: string -> string, sign: Id -> string, newId: Id)
    returns (r: Result<AuthResponse>)
    requires db.Valid() && newId !in db.users
    modifies db`users
    ensures db.Valid()
    ensures r.Success? <==> old(RegisterDecision(db, body)) == Ok
    ensures r.Failure? ==> r.error == old(RegisterDecision(db, body)) && db.users == old(db.users)
    ensures r.Success? ==> newId in db.users && db.users == old(db.users)[newId := db.users[newId]]
    ensures r.Success? ==> var u := db.users[newId];
      && u.nickname == Trim(body.nickname.value) && u.username == Trim(body.username.value)
      && u.password == hash(body.password.value)
      && db.RoleOfUser(newId) == Some(Student)
      && r.value == TokenResponse(db, newId, sign)
  {
    if !Truthy(body.nickname) || !Truthy(body.username) || !Truthy(body.password) {
      return Failure(Invalid);
    }
    if exists u :: u in db.users && db.users[u].username == Trim(body.username.value) {
      return Failure(Invalid);
    }
    var record := CreateUserRecord(db.roles, body.nickname.value, body.username.value, body.password.value, hash);
    if record.Failure? {
      return Failure(Invalid);
    }
    TrimIsTrimmed(body.nickname.value);
    TrimIsTrimmed(body.username.value);
    AddStudent(db, newId, record.value);
    r := Success(TokenResponse(db, newId, sign));
  }

  /** Stores a new student whose username is free; the store stays valid. */
  method AddStudent(db: Database, id: Id, u: User)
    requires db.Valid() && id !in db.users && ValidUser(u) && !UsernameTaken(db.users, u.username)
    requires u.role in db.roles && db.roles[u.role].role == Student
    modifies db`users
    ensures db.Valid() && db.users == old(db.users)[id := u]
    ensures db.RoleOfUser(id) == Some(Student)
  {
    db.PutUser(id, u);
  }

  // ---------------------------------------------------------------------------
  // Login, current user, logout

  datatype LoginBody = LoginBody(username: Option<string>, password: Option<string>)

  /** A stored user holds `username` and the entered password matches its hash. */
  predicate Admits(users: map<Id, User>, username: string, password: string, matches: (string, string) -> bool)
  {
    exists u :: u in users && users[u].username == username && matches(password, users[u].password)
  }

  /**
   * `login`: missing fields are refused with 400; an unknown username and a
   * wrong password get the same 401; otherwise the token response of the
   * matching user. Nothing is written.
   */
  method Login(db: Database, body: LoginBody, matches: (string, string) -> bool, sign: Id -> string)
    returns (r: Result<AuthResponse>)
    requires ValidUsers(db.users)
    ensures !Truthy(body.username) || !Truthy(body.password) ==> r == Failure(Invalid)
    ensures Truthy(body.username) && Truthy(body.password) ==>
      (r == Failure(Unauthorized) <==> !Admits(db.users, Trim(body.username.value), body.password.value, matches))
    ensures r.Failure? ==> r.error == Invalid || r.error == Unauthorized
    ensures r.Success? ==>
      && r.value.user.id in db.users
      && db.users[r.value.user.id].username == Trim(body.username.value)
      && matches(body.password.value, db.users[r.value.user.id].password)
      && r.value == TokenResponse(db, r.value.user.id, sign)
  {
    if !Truthy(body.username) || !Truthy(body.password) {
      return Failure(Invalid);
    }
    var username := Trim(body.username.value);
    if found :| found in db.users && db.users[found].username == username {
      if !matches(body.password.value, db.users[found].password) {
        assert forall u :: u in db.users && db.users[u].username == username ==> u == found;
        return Failure(Unauthorized);
      }
      return Success(TokenResponse(db, found, sign));
    }
    return Failure(Unauthorized);
  }

  /** `getMe`: the stored record of the request user, or null when it is gone; a null request user gives 400. */
  function GetMe(db: Database, actor: Option<Id>): (r: Result<Option<UserView>>)
    reads db
    ensures r.Failure? <==> actor.None?
    ensures r.Failure? ==> r.error == Invalid
    ensures r.Success? ==> (r.value.Some? <==> actor.value in db.users)
    ensures r.Success? && r.value.Some? ==> r.value.value == View(db.users[actor.value])
  {
    match actor
    case None => Failure(Invalid)
    case Some(u) => Success(if u in db.users then Some(View(db.users[u])) else None)
  }

  /** `logout`: always answers success and, touching no field of the store, changes nothing. */
  method Logout(db: Database) returns (r: Outcome)
    ensures r == Ok
  {
    r := Ok;
  }
}
