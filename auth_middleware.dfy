/**
 * Backend/middleware/auth.js: `protect` takes a bearer token from the
 * Authorization header, verifies it and loads the user it names into the
 * request; `authorize(...roles)` admits the request when the user's role is
 * one of the listed role names. Token verification is a parameter (`verify`
 * answers the decoded user id, or `None` when jsonwebtoken throws).
 */
module AuthMiddleware {
  import opened Common
  import opened Strings
  import opened Models
  import opened Store

  /** Index of the first ' ' in `s`, or `|s|` when there is none. */
  function SpaceIndex(s: string): (i: nat)
    ensures i <= |s|
    ensures forall j :: 0 <= j < i ==> s[j] != ' '
    ensures i < |s| ==> s[i] == ' '
  {
    if s == [] || s[0] == ' ' then 0 else 1 + SpaceIndex(s[1..])
  }

  /** `s.split(' ')[1]`: the text between the first and the second space, `None` when there is no space. */
  function SecondField(s: string): (r: Option<string>)
    ensures r.Some? ==> forall j :: 0 <= j < |r.value| ==> r.value[j] != ' '
  {
    var i := SpaceIndex(s);
    if i == |s| then None
    else
      var rest := s[i + 1..];
      Some(rest[..SpaceIndex(rest)])
  }

  /**
   * The token `protect` extracts: the header must be truthy and start with
   * "Bearer"; the token is the second space-separated field, and an empty
   * field counts as no token.
   */
  function BearerToken(header: Option<string>): (r: Option<string>)
    ensures r.Some? ==> Truthy(header) && StartsWith(header.value, "Bearer")
    ensures r.Some? ==> r.value != [] && SecondField(header.value) == Some(r.value)
  {
    if Truthy(header) && StartsWith(header.value, "Bearer") then
      match SecondField(header.value)
      case Some(t) => if t == [] then None else Some(t)
      case None => None
    else None
  }

  /** A scheme-then-token header yields exactly the token. */
  lemma BearerTokenOfHeader(token: string)
    requires token != [] && forall j :: 0 <= j < |token| ==> token[j] != ' '
    ensures BearerToken(Some("Bearer " + token)) == Some(token)
  {
    var h := "Bearer " + token;
    assert h[..6] == "Bearer";
    assert SpaceIndex(h) == 6 by {
      assert h[6] == ' ';
      assert forall j :: 0 <= j < 6 ==> h[j] != ' ';
      SpaceIndexIs(h, 6);
    }
    assert h[7..] == token;
    SpaceIndexIs(token, |token|);
    assert token[..|token|] == token;
  }

  lemma SpaceIndexIs(s: string, i: nat)
    requires i <= |s|
    requires forall j :: 0 <= j < i ==> s[j] != ' '
    requires i < |s| ==> s[i] == ' '
    ensures SpaceIndex(s) == i
  {
  }

  /**
   * The header check is looser than section 2.1 of RFC 6750: the scheme may
   * run on into other characters ("BearerXYZ t") and anything after a second
   * space is ignored, yet the token is still taken.
   */
  lemma BearerTokenLoose(suffix: string, token: string, trailing: string)
    requires forall j :: 0 <= j < |suffix| ==> suffix[j] != ' '
    requires token != [] && forall j :: 0 <= j < |token| ==> token[j] != ' '
    ensures BearerToken(Some("Bearer" + suffix + " " + token + " " + trailing)) == Some(token)
  {
    var h := "Bearer" + suffix + " " + token + " " + trailing;
    var i := 6 + |suffix|;
    assert h[..6] == "Bearer";
    SpaceIndexIs(h, i);
    var rest := h[i + 1..];
    assert rest == token + " " + trailing;
    SpaceIndexIs(rest, |token|);
    assert rest[..|token|] == token;
  }

  /** Two spaces after the scheme leave an empty second field, which is no token. */
  lemma BearerTokenDoubleSpace(token: string)
    ensures BearerToken(Some("Bearer  " + token)) == None
  {
    var h := "Bearer  " + token;
    SpaceIndexIs(h, 6);
    var rest := h[7..];
    SpaceIndexIs(rest, 0);
  }

  /**
   * What `protect` decides: `Failure(Unauthorized)` when there is no token or
   * verification fails; otherwise the request proceeds with the user the
   * decoded id names, and a decoded id that names no user gives a null user
   * that is not rejected.
   */
  function Authenticate(header: Option<string>, verify: string -> Option<Id>, users: map<Id, User>): (r: Result<Option<Id>>)
    ensures BearerToken(header).None? ==> r == Failure(Unauthorized)
    ensures BearerToken(header).Some? && verify(BearerToken(header).value).None? ==> r == Failure(Unauthorized)
    ensures r.Success? <==> BearerToken(header).Some? && verify(BearerToken(header).value).Some?
    ensures r.Success? ==> var id := verify(BearerToken(header).value).value;
      r.value == if id in users then Some(id) else None
    ensures r.Success? && r.value.Some? ==> r.value.value in users
  {
    match BearerToken(header)
    case None => Failure(Unauthorized)
    case Some(token) =>
      match verify(token)
      case None => Failure(Unauthorized)
      case Some(id) => Success(if id in users then Some(id) else None)
  }

  /** The request as the middleware sees it: the header it reads and the `user` slot it fills. */
  class Request {
    const authorization: Option<string>
    /** `req.user`; `None` stands for both "never set" and the null lookup result. */
    var user: Option<Id>

    constructor (authorization: Option<string>)
      ensures this.authorization == authorization && user == None
    {
      this.authorization := authorization;
      user := None;
    }

    /** `protect`: answers `Ok` when the chain may continue, with `user` set from the lookup. */
    method Protect(db: Database, verify: string -> Option<Id>) returns (outcome: Outcome)
      modifies this`user
      ensures var a := Authenticate(authorization, verify, db.users);
        && (a.Failure? ==> outcome == a.error && user == old(user))
        && (a.Success? ==> outcome == Ok && user == a.value)
    {
      var token := BearerToken(authorization);
      if token.None? {
        return Unauthorized;
      }
      var decoded := verify(token.value);
      if decoded.None? {
        return Unauthorized;
      }
      user := if decoded.value in db.users then Some(decoded.value) else None;
      outcome := Ok;
    }
  }

  /**
   * `authorize(...allowed)`. The role string is read from the populated role
   * object; when the role reference dangles the populated value is null, which
   * is never in the list. A request with no user makes `req.user.role` throw,
   * which the global error handler turns into a 500.
   */
  function Authorize(allowed: seq<string>, user: Option<Id>, db: Database): (r: Outcome)
    reads db
    ensures user.None? ==> r == ServerError
    ensures user.Some? ==> (r == Ok <==> db.RoleOfUser(user.value).Some? && RoleName(db.RoleOfUser(user.value).value) in allowed)
    ensures user.Some? && r != Ok ==> r == Forbidden
  {
    match user
    case None => ServerError
    case Some(u) =>
      match db.RoleOfUser(u)
      case None => Forbidden
      case Some(k) => if RoleName(k) in allowed then Ok else Forbidden
  }

  /** An admin-only guard admits exactly the users whose role resolves to admin. */
  lemma AuthorizeAdminOnly(u: Id, db: Database)
    ensures Authorize(["admin"], Some(u), db) == Ok <==> db.RoleOfUser(u) == Some(Admin)
  {
    if db.RoleOfUser(u).Some? {
      ParseRoleName(db.RoleOfUser(u).value, "admin");
    }
  }
}
