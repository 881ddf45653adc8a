/**
 * The guard tables of Backend/routes/documents.js, subjects.js, users.js and
 * comments.js, and how a request meets them: the first registered route whose
 * verb and path fit is taken, and its middleware runs in order until one of
 * them answers. Paths are relative to the router's mount point and already
 * split at '/'; literal segments match without regard to ASCII case, as
 * Express matches by default, and a parameter matches any non-empty segment.
 */
module Routes {
  import opened Common
  import opened Strings
  import opened Models
  import opened Store
  import opened AuthMiddleware

  datatype Verb = Get | Post | Put | Delete

  /** A path segment of a route: a literal (written lower-case) or a `:param`. */
  datatype Segment = Lit(text: string) | Param

  /** The middleware a route runs before its handler. */
  datatype Guard =
    | Protect      // `protect`
    | AdminOnly    // `authorize('admin')`
    | UploadFile   // `upload.single('file')`

  datatype Handler =
    | GetDocumentLevels | GetDocuments | UploadDocument | GetMyDocuments
    | GetDocument | UpdateDocument | DeleteDocument | DownloadDocument
    | GetSubjects | CreateSubject | GetSubject | UpdateSubject | DeleteSubject
    | GetUsers | UpdateUser | DeleteUser
    | GetComments | CreateComment | UpdateComment | DeleteComment

  datatype Route = Route(verb: Verb, path: seq<Segment>, guards: seq<Guard>, handler: Handler)

  /** Backend/routes/documents.js, in registration order. */
  const DocumentRoutes: seq<Route> := [
    Route(Get, [Lit("doclevels")], [Protect], GetDocumentLevels),
    Route(Get, [], [Protect], GetDocuments),
    Route(Post, [], [Protect, UploadFile], UploadDocument),
    Route(Get, [Lit("my-documents")], [Protect], GetMyDocuments),
    Route(Get, [Param], [Protect], GetDocument),
    Route(Put, [Param], [Protect], UpdateDocument),
    Route(Delete, [Param], [Protect], DeleteDocument),
    Route(Get, [Param, Lit("download")], [], DownloadDocument)
  ]

  /** Backend/routes/subjects.js. */
  const SubjectRoutes: seq<Route> := [
    Route(Get, [], [], GetSubjects),
    Route(Post, [], [Protect, AdminOnly], CreateSubject),
    Route(Get, [Param], [], GetSubject),
    Route(Put, [Param], [Protect, AdminOnly], UpdateSubject),
    Route(Delete, [Param], [Protect, AdminOnly], DeleteSubject)
  ]

  /** Backend/routes/users.js. */
  const UserRoutes: seq<Route> := [
    Route(Get, [], [Protect, AdminOnly], GetUsers),
    Route(Put, [Param], [Protect, AdminOnly], UpdateUser),
    Route(Delete, [Param], [Protect, AdminOnly], DeleteUser)
  ]

  /** Backend/routes/comments.js. */
  const CommentRoutes: seq<Route> := [
    Route(Get, [], [Protect], GetComments),
    Route(Post, [], [Protect], CreateComment),
    Route(Put, [Param], [Protect], UpdateComment),
    Route(Delete, [Param], [Protect], DeleteComment)
  ]

  predicate SegmentFits(pattern: Segment, segment: string)
  {
    match pattern
    case Lit(text) => ToLower(segment) == text
    case Param => segment != []
  }

  /** Route `route` answers `verb` on `path`. */
  predicate Fits(route: Route, verb: Verb, path: seq<string>)
  {
    && route.verb == verb
    && |route.path| == |path|
    && forall i :: 0 <= i < |path| ==> SegmentFits(route.path[i], path[i])
  }

  /** The index of the first route that answers `verb` on `path`; `None` when none does (Express's 404). */
  function Resolve(routes: seq<Route>, verb: Verb, path: seq<string>): (r: Option<nat>)
    ensures r.Some? ==> r.value < |routes| && Fits(routes[r.value], verb, path)
    ensures r.Some? ==> forall j :: 0 <= j < r.value ==> !Fits(routes[j], verb, path)
    ensures r.None? <==> forall j :: 0 <= j < |routes| ==> !Fits(routes[j], verb, path)
  {
    if routes == [] then None
    else if Fits(routes[0], verb, path) then Some(0)
    else
      match Resolve(routes[1..], verb, path)
      case None => None
      case Some(i) => Some(i + 1)
  }

  /**
   * Runs `guards` in order. `protect` answers 401 or sets the request user;
   * `authorize('admin')` answers as `Authorize` does; the upload step answers
   * with `upload`, what multer decided for this request. `user` is the
   * request user so far; the result is the user the handler sees.
   */
  function RunGuards(guards: seq<Guard>, header: Option<string>, verify: string -> Option<Id>, db: Database,
                     upload: Outcome, user: Option<Id>): (r: Result<Option<Id>>)
    reads db
    ensures r.Failure? ==> r.error != Ok
    ensures guards == [] ==> r == Success(user)
  {
    if guards == [] then Success(user)
    else
      match guards[0]
      case Protect =>
        (match Authenticate(header, verify, db.users)
         case Failure(e) => Failure(e)
         case Success(u) => RunGuards(guards[1..], header, verify, db, upload, u))
      case AdminOnly =>
        var o := Authorize(["admin"], user, db);
        if o != Ok then Failure(o) else RunGuards(guards[1..], header, verify, db, upload, user)
      case UploadFile =>
        if upload != Ok then Failure(upload) else RunGuards(guards[1..], header, verify, db, upload, user)
  }

  /** The handler a request reaches and the request user it sees. */
  datatype Dispatched = Dispatched(handler: Handler, user: Option<Id>)

  /** A request to a router: resolution, then the route's middleware; `req.user` starts unset. */
  function Dispatch(routes: seq<Route>, verb: Verb, path: seq<string>, header: Option<string>,
                    verify: string -> Option<Id>, db: Database, upload: Outcome): (r: Result<Dispatched>)
    reads db
    ensures Resolve(routes, verb, path).None? ==> r == Failure(NotFound)
    ensures r.Success? ==> Resolve(routes, verb, path).Some?
    ensures r.Success? ==> r.value.handler == routes[Resolve(routes, verb, path).value].handler
  {
    match Resolve(routes, verb, path)
    case None => Failure(NotFound)
    case Some(i) =>
      match RunGuards(routes[i].guards, header, verify, db, upload, None)
      case Failure(e) => Failure(e)
      case Success(u) => Success(Dispatched(routes[i].handler, u))
  }

  // ---------------------------------------------------------------------------
  // What the tables promise

  /** A chain that starts with `protect` answers 401, never 403, when authentication fails. */
  lemma ProtectFirst(guards: seq<Guard>, header: Option<string>, verify: string -> Option<Id>, db: Database,
                     upload: Outcome, user: Option<Id>)
    requires guards != [] && guards[0] == Protect
    requires Authenticate(header, verify, db.users).Failure?
    ensures RunGuards(guards, header, verify, db, upload, user) == Failure(Unauthorized)
  {
  }

  /** Every document route runs `protect` first, except the download route, which runs nothing. */
  lemma DocumentGuards()
    ensures forall i :: 0 <= i < |DocumentRoutes| && DocumentRoutes[i].handler != DownloadDocument ==>
      DocumentRoutes[i].guards != [] && DocumentRoutes[i].guards[0] == Protect
    ensures forall i :: 0 <= i < |DocumentRoutes| && DocumentRoutes[i].handler == DownloadDocument ==>
      DocumentRoutes[i].guards == []
  {
  }

  /** Without authentication the only document handler a request can reach is the download. */
  lemma DocumentsNeedAuthentication(verb: Verb, path: seq<string>, header: Option<string>,
                                    verify: string -> Option<Id>, db: Database, upload: Outcome)
    requires Authenticate(header, verify, db.users).Failure?
    ensures var r := Dispatch(DocumentRoutes, verb, path, header, verify, db, upload);
      r.Success? ==> r.value.handler == DownloadDocument
    ensures var r := Dispatch(DocumentRoutes, verb, path, header, verify, db, upload);
      r.Failure? ==> r.error == NotFound || r.error == Unauthorized
  {
    DocumentGuards();
    match Resolve(DocumentRoutes, verb, path)
    case None =>
    case Some(i) =>
      if DocumentRoutes[i].handler != DownloadDocument {
        ProtectFirst(DocumentRoutes[i].guards, header, verify, db, upload, None);
      }
  }

  /** Any header, even none, reaches the download of a document id, with no request user. */
  lemma DownloadIsPublic(id: string, header: Option<string>, verify: string -> Option<Id>, db: Database, upload: Outcome)
    requires id != []
    ensures Dispatch(DocumentRoutes, Get, [id, "download"], header, verify, db, upload) == Success(Dispatched(DownloadDocument, None))
  {
    var path := [id, "download"];
    LowerCaseFixed("download");
    assert Fits(DocumentRoutes[7], Get, path);
    forall j | 0 <= j < 7 ensures !Fits(DocumentRoutes[j], Get, path) {
      assert |DocumentRoutes[j].path| < 2;
    }
  }

  /** "/my-documents" would fit "/:id" as well, but is registered first and wins. */
  lemma MyDocumentsBeforeId()
    ensures Fits(DocumentRoutes[4], Get, ["my-documents"])
    ensures Resolve(DocumentRoutes, Get, ["my-documents"]) == Some(3)
    ensures DocumentRoutes[3].handler == GetMyDocuments
  {
    var path := ["my-documents"];
    LowerCaseFixed("my-documents");
    assert Fits(DocumentRoutes[3], Get, path);
    assert !Fits(DocumentRoutes[0], Get, path) by {
      assert DocumentRoutes[0].path[0] == Lit("doclevels");
      assert ToLower(path[0]) == "my-documents";
      assert "my-documents"[0] != "doclevels"[0];
    }
    assert !Fits(DocumentRoutes[1], Get, path) by {
      assert |DocumentRoutes[1].path| == 0;
    }
    assert !Fits(DocumentRoutes[2], Get, path) by {
      assert DocumentRoutes[2].verb == Post;
    }
    ResolveFirst(DocumentRoutes, Get, path, 3);
  }

  /** A route that fits, with no earlier one fitting, is the one resolved. */
  lemma ResolveFirst(routes: seq<Route>, verb: Verb, path: seq<string>, k: nat)
    requires k < |routes| && Fits(routes[k], verb, path)
    requires forall j :: 0 <= j < k ==> !Fits(routes[j], verb, path)
    ensures Resolve(routes, verb, path) == Some(k)
  {
  }

  /** Subject reads run no middleware; every subject write runs `protect` and then `authorize('admin')`. */
  lemma SubjectGuards()
    ensures forall i :: 0 <= i < |SubjectRoutes| ==> (SubjectRoutes[i].verb == Get <==> SubjectRoutes[i].guards == [])
    ensures forall i :: 0 <= i < |SubjectRoutes| && SubjectRoutes[i].verb != Get ==>
      SubjectRoutes[i].guards == [Protect, AdminOnly]
  {
  }

  /** Every user route runs `protect` and then `authorize('admin')`. */
  lemma UserGuards()
    ensures forall i :: 0 <= i < |UserRoutes| ==> UserRoutes[i].guards == [Protect, AdminOnly]
  {
  }

  /** Every comment route runs `protect` and nothing else: any role may use them. */
  lemma CommentGuards()
    ensures forall i :: 0 <= i < |CommentRoutes| ==> CommentRoutes[i].guards == [Protect]
  {
  }

  /**
   * The chain `protect, authorize('admin')`: 401 when authentication fails;
   * 500 when the token names a user who no longer exists; 403 when the user's
   * role is not admin; otherwise the handler runs with that user.
   */
  lemma AdminChain(header: Option<string>, verify: string -> Option<Id>, db: Database, upload: Outcome)
    ensures var a := Authenticate(header, verify, db.users);
      var r := RunGuards([Protect, AdminOnly], header, verify, db, upload, None);
      && (a.Failure? ==> r == Failure(Unauthorized))
      && (a == Success(None) ==> r == Failure(ServerError))
      && (a.Success? && a.value.Some? && db.RoleOfUser(a.value.value) != Some(Admin) ==> r == Failure(Forbidden))
      && (a.Success? && a.value.Some? && db.RoleOfUser(a.value.value) == Some(Admin) ==> r == Success(a.value))
  {
    var a := Authenticate(header, verify, db.users);
    if a.Success? && a.value.Some? {
      AuthorizeAdminOnly(a.value.value, db);
    }
  }

  /**
   * A request to a user route that finds a route: 401 without valid
   * authentication, 403 for a non-admin, and the handler only for an admin.
   */
  lemma UsersAdminOnly(verb: Verb, path: seq<string>, header: Option<string>, verify: string -> Option<Id>,
                       db: Database, upload: Outcome)
    requires Resolve(UserRoutes, verb, path).Some?
    ensures var a := Authenticate(header, verify, db.users);
      var r := Dispatch(UserRoutes, verb, path, header, verify, db, upload);
      && (a.Failure? ==> r == Failure(Unauthorized))
      && (r.Success? ==> a.Success? && a.value.Some? && db.RoleOfUser(a.value.value) == Some(Admin))
      && (a.Success? && a.value.Some? && db.RoleOfUser(a.value.value) != Some(Admin) ==> r == Failure(Forbidden))
  {
    UserGuards();
    AdminChain(header, verify, db, upload);
  }

  /** A subject write that finds a route gets the same answers as a user route. */
  lemma SubjectWritesAdminOnly(verb: Verb, path: seq<string>, header: Option<string>, verify: string -> Option<Id>,
                               db: Database, upload: Outcome)
    requires verb != Get && Resolve(SubjectRoutes, verb, path).Some?
    ensures var a := Authenticate(header, verify, db.users);
      var r := Dispatch(SubjectRoutes, verb, path, header, verify, db, upload);
      && (a.Failure? ==> r == Failure(Unauthorized))
      && (r.Success? ==> a.Success? && a.value.Some? && db.RoleOfUser(a.value.value) == Some(Admin))
      && (a.Success? && a.value.Some? && db.RoleOfUser(a.value.value) != Some(Admin) ==> r == Failure(Forbidden))
  {
    SubjectGuards();
    AdminChain(header, verify, db, upload);
  }

  /** Subject reads answer every request, authenticated or not, with no request user. */
  lemma SubjectReadsPublic(path: seq<string>, header: Option<string>, verify: string -> Option<Id>,
                           db: Database, upload: Outcome)
    requires Resolve(SubjectRoutes, Get, path).Some?
    ensures Dispatch(SubjectRoutes, Get, path, header, verify, db, upload).Success?
    ensures Dispatch(SubjectRoutes, Get, path, header, verify, db, upload).value.user == None
  {
    SubjectGuards();
  }

  /** A comment route that finds a route reaches its handler exactly when authentication succeeds, whatever the role. */
  lemma CommentsAnyRole(verb: Verb, path: seq<string>, header: Option<string>, verify: string -> Option<Id>,
                        db: Database, upload: Outcome)
    requires Resolve(CommentRoutes, verb, path).Some?
    ensures var a := Authenticate(header, verify, db.users);
      var r := Dispatch(CommentRoutes, verb, path, header, verify, db, upload);
      && (a.Failure? ==> r == Failure(Unauthorized))
      && (a.Success? ==> r.Success? && r.value.user == a.value)
  {
    CommentGuards();
  }
}
