/**
 * The admin-only user handlers of Backend/controllers/userController.js:
 * `updateUser` (admin accounts are frozen, `||` merge of the identity
 * fields, role change by lower-cased name, optional new password) and
 * `deleteUser` (admin accounts cannot go; the user's comments, then the
 * user's documents, then the user are removed).
 *
 * bcrypt is the parameter `hash`. The update goes through
 * `findByIdAndUpdate` with update validators, so the `trim` setters and the
 * `required`, `minlength` and unique-index checks apply to the written
 * values, and the pre-save hook does not run.
 */
module UserController {
  import opened Common
  import opened Strings
  import opened Models
  import opened Store

  /** The fields of an update request body; absent fields are `None`. */
  datatype UserBody = UserBody(nickname: Option<string>, username: Option<string>, role: Option<string>, password: Option<string>)

  /** `Role.findOne({role: name})` can answer the record `r`. */
  predicate NamesRole(roles: map<Id, Role>, r: Id, name: string)
  {
    r in roles && RoleName(roles[r].role) == name
  }

  /** Some stored Role record is spelled `name`. */
  predicate RoleExists(roles: map<Id, Role>, name: string)
  {
    exists r :: r in roles && NamesRole(roles, r, name)
  }

  /**
   * The role lookup fails for a truthy name that, lower-cased, spells no
   * stored Role, and for an absent name when the kept role reference dangles
   * (`user.role._id` throws on the null the lookup populated).
   */
  predicate RoleLookupFails(roles: map<Id, Role>, requested: Option<string>, current: Id)
  {
    if Truthy(requested) then !RoleExists(roles, ToLower(requested.value)) else current !in roles
  }

  /** The role the update writes: the record the lower-cased name finds, or the current one when no name is given. */
  method ChooseRole(roles: map<Id, Role>, requested: Option<string>, current: Id) returns (r: Result<Id>)
    ensures r.Failure? <==> RoleLookupFails(roles, requested, current)
    ensures r.Failure? ==> r.error == Invalid
    ensures r.Success? && Truthy(requested) ==> NamesRole(roles, r.value, ToLower(requested.value))
    ensures r.Success? && !Truthy(requested) ==> r.value == current
  {
    if Truthy(requested) {
      var name := ToLower(requested.value);
      if found :| found in roles && NamesRole(roles, found, name) {
        return Success(found);
      }
      return Failure(Invalid);
    }
    if current !in roles {
      return Failure(Invalid);
    }
    r := Success(current);
  }

  /**
   * The identity fields `findByIdAndUpdate` writes: nickname and username take
   * the new value when truthy and are trimmed, and the password is replaced by
   * the hash of a truthy new password. The role is settled by `ChooseRole`.
   */
  function MergedUser(u: User, body: UserBody, hash: string -> string): (r: User)
    ensures Truthy(body.nickname) ==> r.nickname == Trim(body.nickname.value)
    ensures !Truthy(body.nickname) ==> r.nickname == Trim(u.nickname)
    ensures Truthy(body.username) ==> r.username == Trim(body.username.value)
    ensures !Truthy(body.username) ==> r.username == Trim(u.username)
    ensures Truthy(body.password) ==> r.password == hash(body.password.value)
    ensures !Truthy(body.password) ==> r.password == u.password
    ensures r.role == u.role
  {
    User(Trim(OrElse(body.nickname, u.nickname)), Trim(OrElse(body.username, u.username)),
         if Truthy(body.password) then hash(body.password.value) else u.password, u.role)
  }

  /**
   * What the update validators and the unique index say of the record about
   * to be written over user `id`. Update validators run only on the paths the
   * update sets: nickname and username always, the password only when a new
   * one was hashed into the update, and then `minlength` measures the hash.
   */
  function WriteCheck(users: map<Id, User>, id: Id, merged: User, passwordSet: bool): (r: Outcome)
    ensures r == Ok <==>
      && merged.nickname != [] && merged.username != []
      && (passwordSet ==> Utf16Length(merged.password) >= PasswordMin)
      && forall o :: o in users && o != id ==> users[o].username != merged.username
    ensures r != Ok ==> r == Invalid
  {
    if merged.nickname == [] || merged.username == [] then Invalid
    else if passwordSet && Utf16Length(merged.password) < PasswordMin then Invalid
    else if exists o :: o in users && o != id && users[o].username == merged.username then Invalid
    else Ok
  }

  /**
   * The answer of `updateUser` for target `id`: 404 for a missing user, 403 for
   * an admin, and 400 for an unknown role name, for a kept role reference that
   * dangles (`user.role._id` throws), or for a merged record the update
   * validators or the unique index refuse.
   */
  function UserUpdateDecision(db: Database, id: Id, body: UserBody, hash: string -> string): (r: Outcome)
    reads db
    ensures id !in db.users ==> r == NotFound
    ensures id in db.users && db.RoleOfUser(id) == Some(Admin) ==> r == Forbidden
    ensures r == Ok ==> id in db.users && db.RoleOfUser(id) != Some(Admin)
    ensures r == Ok && Truthy(body.role) ==> RoleExists(db.roles, ToLower(body.role.value))
    ensures r == Ok && !Truthy(body.role) ==> db.users[id].role in db.roles
    ensures r != Ok ==> r in {NotFound, Forbidden, Invalid}
  {
    if id !in db.users then NotFound
    else if db.RoleOfUser(id) == Some(Admin) then Forbidden
    else if RoleLookupFails(db.roles, body.role, db.users[id].role) then Invalid
    else WriteCheck(db.users, id, MergedUser(db.users[id], body, hash), Truthy(body.password))
  }

  /** `updateUser`: writes the merged record over user `id`; on refusal nothing changes. */
  method UpdateUser(db: Database, id: Id, body: UserBody, hash: string -> string) returns (r: Result<UserView>)
    requires db.Valid()
    modifies db`users
    ensures db.Valid()
    ensures r.Success? <==> old(UserUpdateDecision(db, id, body, hash)) == Ok
    ensures r.Failure? ==> r.error == old(UserUpdateDecision(db, id, body, hash)) && db.users == old(db.users)
    ensures r.Success? ==> id in db.users && db.users == old(db.users)[id := db.users[id]]
    ensures r.Success? ==> r.value == View(db.users[id])
    ensures r.Success? ==> db.users[id] == MergedUser(old(db.users[id]), body, hash).(role := db.users[id].role)
    ensures r.Success? && Truthy(body.role) ==> NamesRole(db.roles, db.users[id].role, ToLower(body.role.value))
    ensures r.Success? && !Truthy(body.role) ==> db.users[id].role == old(db.users[id].role)
  {
    if id !in db.users {
      return Failure(NotFound);
    }
    var user := db.users[id];
    if db.RoleOfUser(id) == Some(Admin) {
      return Failure(Forbidden);
    }
    var role := ChooseRole(db.roles, body.role, user.role);
    if role.Failure? {
      return Failure(role.error);
    }
    var merged := MergedUser(user, body, hash);
    var check := WriteCheck(db.users, id, merged, Truthy(body.password));
    if check != Ok {
      return Failure(check);
    }
    merged := merged.(role := role.value);
    TrimIsTrimmed(OrElse(body.nickname, user.nickname));
    TrimIsTrimmed(OrElse(body.username, user.username));
    db.PutUser(id, merged);
    r := Success(View(merged));
  }

  /**
   * An update that supplies nothing rewrites a valid, non-admin user with a
   * resolvable role to exactly what it was.
   */
  lemma UpdateUserEmptyBody(db: Database, id: Id, hash: string -> string)
    requires db.Valid() && id in db.users && db.users[id].role in db.roles
    requires db.RoleOfUser(id) != Some(Admin)
    ensures UserUpdateDecision(db, id, UserBody(None, None, None, None), hash) == Ok
    ensures MergedUser(db.users[id], UserBody(None, None, None, None), hash) == db.users[id]
  {
    var u := db.users[id];
    assert ValidUser(u);
    TrimmedIsFixed(u.nickname);
    TrimmedIsFixed(u.username);
    var merged := MergedUser(u, UserBody(None, None, None, None), hash);
    assert merged == u;
    forall o | o in db.users && o != id
      ensures db.users[o].username != merged.username
    {
      assert UniqueUsernames(db.users);
    }
  }

  /**
   * `minlength` sees the bcrypt hash, not the new password: a one-character
   * password is accepted whenever its hash is long enough, as bcrypt hashes are.
   */
  lemma ShortPasswordAccepted(db: Database, id: Id, hash: string -> string)
    requires db.Valid() && id in db.users && db.users[id].role in db.roles
    requires db.RoleOfUser(id) != Some(Admin)
    requires Utf16Length(hash("a")) >= PasswordMin
    ensures UserUpdateDecision(db, id, UserBody(None, None, None, Some("a")), hash) == Ok
    ensures Utf16Length("a") < PasswordMin
  {
    var u := db.users[id];
    assert ValidUser(u);
    TrimmedIsFixed(u.nickname);
    TrimmedIsFixed(u.username);
    var merged := MergedUser(u, UserBody(None, None, None, Some("a")), hash);
    assert merged.username == u.username;
    forall o | o in db.users && o != id
      ensures db.users[o].username != merged.username
    {
      assert UniqueUsernames(db.users);
    }
  }

  /**
   * The role name is compared after lower-casing, so any capitalisation of
   * "admin" promotes a non-admin when an admin Role record exists.
   */
  lemma RoleNameIgnoresCase(roles: map<Id, Role>, a: Id)
    requires a in roles && roles[a].role == Admin
    ensures RoleExists(roles, ToLower("Admin")) && RoleExists(roles, ToLower("ADMIN"))
    ensures NamesRole(roles, a, ToLower("aDmIn"))
  {
    assert ToLower("Admin") == "admin";
    assert ToLower("ADMIN") == "admin";
    assert ToLower("aDmIn") == "admin";
    assert NamesRole(roles, a, "admin");
  }

  // ---------------------------------------------------------------------------
  // Delete

  /** The answer of `deleteUser`: 404 for a missing user, 400 for an admin. */
  function UserDeleteDecision(db: Database, id: Id): (r: Outcome)
    reads db
    ensures r == Ok <==> id in db.users && db.RoleOfUser(id) != Some(Admin)
    ensures id !in db.users ==> r == NotFound
    ensures id in db.users && db.RoleOfUser(id) == Some(Admin) ==> r == Invalid
  {
    if id !in db.users then NotFound
    else if db.RoleOfUser(id) == Some(Admin) then Invalid
    else Ok
  }

  /**
   * `deleteUser`: the comments the user wrote, then the documents the user
   * owns, then the user. Comments of other users on the removed documents
   * stay, and no file is unlinked.
   */
  method DeleteUser(db: Database, id: Id) returns (r: Outcome)
    requires db.Valid()
    modifies db`comments, db`documents, db`users
    ensures db.Valid()
    ensures r == old(UserDeleteDecision(db, id))
    ensures r == Ok ==>
      && db.comments == CommentsNotBy(old(db.comments), id)
      && db.documents == DocumentsNotBy(old(db.documents), id)
      && db.users == old(db.users) - {id}
    ensures r != Ok ==>
      db.comments == old(db.comments) && db.documents == old(db.documents) && db.users == old(db.users)
  {
    if id !in db.users {
      return NotFound;
    }
    if db.RoleOfUser(id) == Some(Admin) {
      return Invalid;
    }
    db.comments := CommentsNotBy(db.comments, id);
    db.documents := DocumentsNotBy(db.documents, id);
    db.users := db.users - {id};
    r := Ok;
  }

  /**
   * After the user cascade nothing is left by or of the user, yet a comment
   * another user wrote on one of the removed documents survives, pointing at
   * a document that is gone.
   */
  lemma DeleteUserLeavesForeignComments(comments: map<Id, Comment>, documents: map<Id, Document>, id: Id, c: Id)
    requires c in comments && comments[c].user != id
    requires comments[c].document in documents && documents[comments[c].document].user == id
    ensures c in CommentsNotBy(comments, id)
    ensures comments[c].document !in DocumentsNotBy(documents, id)
    ensures forall k :: k in CommentsNotBy(comments, id) ==> CommentsNotBy(comments, id)[k].user != id
    ensures forall d :: d in DocumentsNotBy(documents, id) ==> DocumentsNotBy(documents, id)[d].user != id
  {
  }
}
