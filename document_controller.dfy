/**
 * The document handlers of Backend/controllers/documentController.js other
 * than the listing: upload, update, delete, fetch, download and "my
 * documents". Each state-changing handler is a method over the database
 * whose result and new state are tied to a function stating the decision
 * the handler makes; the properties are proved about those functions.
 *
 * `actor` is the id in `req.user` (`None` when the request user is null,
 * which makes `req.user.id` throw and the handler answer 400). File-system
 * effects (the stored upload, `fs.unlink`, `res.download`) are not modelled;
 * whether the stored file lies inside the uploads directory and exists are
 * parameters of the download.
 */
module DocumentController {
  import opened Common
  import opened Strings
  import opened Models
  import opened Store
  import opened DocumentQuery

  /** What multer hands the upload handler in `req.file`. */
  datatype UploadedFile = UploadedFile(filename: string, mimetype: string, size: nat)

  /** The text fields of the request body; absent fields are `None`. */
  datatype DocumentBody = DocumentBody(title: Option<string>, description: Option<string>, level: Option<Id>, subject: Option<Id>)

  const MaxUploadBytes: nat := 10 * 1024 * 1024

  predicate IsAdmin(db: Database, u: Id)
    reads db
  {
    db.RoleOfUser(u) == Some(Admin)
  }

  predicate IsStudent(db: Database, u: Id)
    reads db
  {
    db.RoleOfUser(u) == Some(Student)
  }

  /** The update and delete permission: the caller owns the document or is an admin. */
  predicate MayModify(db: Database, u: Id, d: Document)
    reads db
  {
    d.user == u || IsAdmin(db, u)
  }

  /**
   * The level check a student's upload or re-levelling faces: the level must
   * be given, must name a level record, and that record's number must be 1 or 3.
   */
  function StudentLevelCheck(db: Database, level: Option<Id>): (r: Outcome)
    reads db
    ensures r == Ok <==> Truthy(level) && db.LevelNumber(level.value) in {Some(PublicLevel), Some(PrivateLevel)}
    ensures r != Ok ==> r == Invalid
  {
    if !Truthy(level) then Invalid
    else match db.LevelNumber(level.value)
      case None => Invalid
      case Some(n) => if n == PublicLevel || n == PrivateLevel then Ok else Invalid
  }

  // ---------------------------------------------------------------------------
  // Upload

  /** The document `uploadDocument` creates for the caller, or why it refuses. */
  function PlannedUpload(db: Database, actor: Option<Id>, file: Option<UploadedFile>, body: DocumentBody, now: nat): (r: Result<Document>)
    reads db
    ensures r.Failure? ==> r.error == Invalid
    ensures file.None? || file.value.size > MaxUploadBytes ==> r.Failure?
    ensures r.Success? ==> file.Some? && actor.Some? && actor.value in db.users
    ensures r.Success? ==> ValidDocument(r.value)
    ensures r.Success? ==> var d := r.value;
      && d.user == actor.value && d.nickname == db.users[actor.value].nickname
      && d.file == file.value.filename && d.fileType == file.value.mimetype && d.fileSize == file.value.size
      && d.downloadCount == 0 && d.createdAt == now
      && Truthy(body.level) && d.level == body.level.value
      && Truthy(body.subject) && d.subject == body.subject.value
  {
    if file.None? || file.value.size > MaxUploadBytes || actor.None? || actor.value !in db.users then Failure(Invalid)
    else
      var u := actor.value;
      if IsStudent(db, u) && StudentLevelCheck(db, body.level) != Ok then Failure(Invalid)
      else
        CreateDocument(DocumentInput(body.title, body.description, body.level, file.value.filename,
          file.value.mimetype, file.value.size, body.subject, u, db.users[u].nickname, now))
  }

  /** A student is refused unless the level is given, resolves, and is numbered 1 or 3. */
  lemma StudentUploadLevel(db: Database, actor: Id, file: Option<UploadedFile>, body: DocumentBody, now: nat)
    requires actor in db.users && IsStudent(db, actor)
    requires PlannedUpload(db, Some(actor), file, body, now).Success?
    ensures Truthy(body.level)
    ensures db.LevelNumber(body.level.value) == Some(PublicLevel) || db.LevelNumber(body.level.value) == Some(PrivateLevel)
  {
  }

  /**
   * A student whose level resolves to number 1 or 3 is not held back by the
   * level check: the upload is what `Document.create` makes of the request.
   */
  lemma StudentUploadAccepted(db: Database, actor: Id, file: UploadedFile, body: DocumentBody, now: nat)
    requires actor in db.users && IsStudent(db, actor) && file.size <= MaxUploadBytes
    requires Truthy(body.level)
    requires db.LevelNumber(body.level.value) == Some(PublicLevel) || db.LevelNumber(body.level.value) == Some(PrivateLevel)
    ensures PlannedUpload(db, Some(actor), Some(file), body, now) ==
      CreateDocument(DocumentInput(body.title, body.description, body.level, file.filename,
        file.mimetype, file.size, body.subject, actor, db.users[actor].nickname, now))
  {
    assert StudentLevelCheck(db, body.level) == Ok;
  }

  /** Teachers and admins skip the level check: any level id, even one naming no level, is stored. */
  lemma NonStudentUploadAnyLevel(db: Database, actor: Id, file: UploadedFile, body: DocumentBody, now: nat)
    requires actor in db.users && !IsStudent(db, actor) && file.size <= MaxUploadBytes
    ensures PlannedUpload(db, Some(actor), Some(file), body, now) ==
      CreateDocument(DocumentInput(body.title, body.description, body.level, file.filename,
        file.mimetype, file.size, body.subject, actor, db.users[actor].nickname, now))
  {
  }

  /** `uploadDocument`: stores the planned document under the fresh id `newId`. */
  method UploadDocument(db: Database, actor: Option<Id>, file: Option<UploadedFile>, body: DocumentBody, newId: Id, now: nat)
    returns (r: Result<Id>)
    requires db.Valid() && newId !in db.documents
    modifies db`documents
    ensures db.Valid()
    ensures var plan := old(PlannedUpload(db, actor, file, body, now));
      && (plan.Success? ==> r == Success(newId) && db.documents == old(db.documents)[newId := plan.value])
      && (plan.Failure? ==> r == Failure(plan.error) && db.documents == old(db.documents))
  {
    if file.None? {
      return Failure(Invalid);
    }
    if file.value.size > MaxUploadBytes {
      return Failure(Invalid);
    }
    if actor.None? || actor.value !in db.users {
      return Failure(Invalid);
    }
    var u := actor.value;
    if IsStudent(db, u) {
      if !Truthy(body.level) {
        return Failure(Invalid);
      }
      var number := db.LevelNumber(body.level.value);
      if number.None? {
        return Failure(Invalid);
      }
      if number.value != PublicLevel && number.value != PrivateLevel {
        return Failure(Invalid);
      }
    }
    var created := CreateDocument(DocumentInput(body.title, body.description, body.level, file.value.filename,
      file.value.mimetype, file.value.size, body.subject, u, db.users[u].nickname, now));
    if created.Failure? {
      return Failure(created.error);
    }
    db.PutDocument(newId, created.value);
    r := Success(newId);
  }

  /** A student's own upload always shows up in that student's listing (it is level 1, or level 3 and theirs). */
  lemma StudentSeesOwnUpload(db: Database, actor: Id, file: Option<UploadedFile>, body: DocumentBody, now: nat)
    requires actor in db.users && IsStudent(db, actor)
    requires PlannedUpload(db, Some(actor), file, body, now).Success?
    ensures Visible(VisibilityFor(db, Some(actor)).value, PlannedUpload(db, Some(actor), file, body, now).value)
  {
  }

  // ---------------------------------------------------------------------------
  // Update

  /**
   * The update merge: each of title, description, level and subject takes the
   * new value when it is truthy and keeps the old one otherwise; the update
   * validators then trim the title and check the required fields and lengths.
   * Owner, nickname, file, type, size, download count and creation time stay.
   */
  function MergeUpdate(d: Document, body: DocumentBody): (r: Result<Document>)
    ensures r.Failure? ==> r.error == Invalid
    ensures r.Success? ==> var n := r.value;
      && n.title == Trim(OrElse(body.title, d.title))
      && n.description == OrElse(body.description, d.description)
      && n.level == OrElse(body.level, d.level)
      && n.subject == OrElse(body.subject, d.subject)
      && n.user == d.user && n.nickname == d.nickname && n.file == d.file
      && n.fileType == d.fileType && n.fileSize == d.fileSize
      && n.downloadCount == d.downloadCount && n.createdAt == d.createdAt
    ensures r.Success? && d.user != [] && d.file != [] && d.nickname != [] ==> ValidDocument(r.value)
    ensures ValidDocument(d) ==> (r.Success? <==>
      var t := Trim(OrElse(body.title, d.title));
      t != [] && Utf16Length(t) <= TitleMax && Utf16Length(OrElse(body.description, d.description)) <= DescriptionMax)
  {
    var title := Trim(OrElse(body.title, d.title));
    var description := OrElse(body.description, d.description);
    var level := OrElse(body.level, d.level);
    var subject := OrElse(body.subject, d.subject);
    if title == [] || Utf16Length(title) > TitleMax || description == [] || Utf16Length(description) > DescriptionMax || level == [] || subject == [] then
      Failure(Invalid)
    else
      TrimIsTrimmed(OrElse(body.title, d.title));
      Success(d.(title := title, description := description, level := level, subject := subject))
  }

  /** An update body with no truthy field leaves a valid document exactly as it was. */
  lemma MergeUpdateEmptyBody(d: Document)
    requires ValidDocument(d)
    ensures MergeUpdate(d, DocumentBody(None, None, None, None)) == Success(d)
  {
    TrimmedIsFixed(d.title);
    assert Trim(OrElse(None, d.title)) == d.title;
  }

  /** What `updateDocument` writes for document `id`, or why it refuses. */
  function PlannedUpdate(db: Database, actor: Option<Id>, id: Id, body: DocumentBody): (r: Result<Document>)
    reads db
    ensures id !in db.documents ==> r == Failure(NotFound)
    ensures id in db.documents && actor.Some? && actor.value in db.users ==>
      (r == Failure(Unauthorized) <==> !MayModify(db, actor.value, db.documents[id]))
    ensures r.Success? ==> id in db.documents && actor.Some? && MayModify(db, actor.value, db.documents[id])
    ensures r.Success? ==> MergeUpdate(db.documents[id], body) == r
    ensures r.Success? && IsStudent(db, actor.value) && Truthy(body.level) ==>
      db.LevelNumber(body.level.value) == Some(PublicLevel) || db.LevelNumber(body.level.value) == Some(PrivateLevel)
    ensures id in db.documents && (actor.None? || actor.value !in db.users) ==> r == Failure(Invalid)
    ensures id in db.documents && actor.Some? && actor.value in db.users && MayModify(db, actor.value, db.documents[id]) ==>
      var u := actor.value;
      && (IsStudent(db, u) && Truthy(body.level) && StudentLevelCheck(db, body.level) != Ok ==> r == Failure(Invalid))
      && (!IsStudent(db, u) || !Truthy(body.level) || StudentLevelCheck(db, body.level) == Ok ==>
            r == MergeUpdate(db.documents[id], body))
  {
    if id !in db.documents then Failure(NotFound)
    else if actor.None? || actor.value !in db.users then Failure(Invalid)
    else
      var u := actor.value;
      if !MayModify(db, u, db.documents[id]) then Failure(Unauthorized)
      else if IsStudent(db, u) && Truthy(body.level) && StudentLevelCheck(db, body.level) != Ok then Failure(Invalid)
      else MergeUpdate(db.documents[id], body)
  }

  /**
   * Holding the update right does not mean seeing the document: a student who
   * owns a level-2 document (an admin may have re-levelled it) may update it,
   * yet it is not in that student's listing.
   */
  lemma UpdateRightWithoutVisibility(db: Database, u: Id, id: Id, filter: set<Condition>)
    requires u in db.users && IsStudent(db, u)
    requires id in db.documents && db.documents[id].user == u
    requires db.LevelNumber(db.documents[id].level) == Some(TeacherOnlyLevel)
    ensures MayModify(db, u, db.documents[id])
    ensures id !in Matching(db, filter, VisibilityFor(db, Some(u)).value)
  {
  }

  /** `updateDocument`: replaces document `id` by the planned one; on refusal nothing changes. */
  method UpdateDocument(db: Database, actor: Option<Id>, id: Id, body: DocumentBody) returns (r: Result<Document>)
    requires db.Valid()
    modifies db`documents
    ensures db.Valid()
    ensures r == old(PlannedUpdate(db, actor, id, body))
    ensures r.Success? ==> db.documents == old(db.documents)[id := r.value]
    ensures r.Failure? ==> db.documents == old(db.documents)
  {
    if id !in db.documents {
      return Failure(NotFound);
    }
    var document := db.documents[id];
    if actor.None? || actor.value !in db.users {
      return Failure(Invalid);
    }
    var u := actor.value;
    if document.user != u && !IsAdmin(db, u) {
      return Failure(Unauthorized);
    }
    if IsStudent(db, u) && Truthy(body.level) {
      var number := db.LevelNumber(body.level.value);
      if number.None? {
        return Failure(Invalid);
      }
      if number.value != PublicLevel && number.value != PrivateLevel {
        return Failure(Invalid);
      }
    }
    assert ValidDocument(document);
    r := MergeUpdate(document, body);
    if r.Success? {
      db.PutDocument(id, r.value);
    }
  }

  // ---------------------------------------------------------------------------
  // Delete

  /**
   * The answer of `deleteDocument`. An owner is never asked for a role, so a
   * caller whose account is gone may still delete what it owns; anyone else
   * must resolve to an admin.
   */
  function DeleteDecision(db: Database, actor: Option<Id>, id: Id): (r: Outcome)
    reads db
    ensures id !in db.documents ==> r == NotFound
    ensures r == Ok ==> id in db.documents && actor.Some? && MayModify(db, actor.value, db.documents[id])
    ensures id in db.documents && actor.Some? && actor.value in db.users ==>
      (r == Ok <==> MayModify(db, actor.value, db.documents[id])) &&
      (r != Ok ==> r == Unauthorized)
  {
    if id !in db.documents then NotFound
    else if actor.None? then Invalid
    else
      var u := actor.value;
      if db.documents[id].user == u then Ok
      else if u !in db.users then Invalid
      else if IsAdmin(db, u) then Ok
      else Unauthorized
  }

  /**
   * `deleteDocument`: the file unlink is issued and not awaited (no modelled
   * effect), then every comment on the document goes, then the document.
   */
  method DeleteDocument(db: Database, actor: Option<Id>, id: Id) returns (r: Outcome)
    requires db.Valid()
    modifies db`documents, db`comments
    ensures db.Valid()
    ensures r == old(DeleteDecision(db, actor, id))
    ensures r == Ok ==> db.comments == CommentsNotOn(old(db.comments), {id}) && db.documents == old(db.documents) - {id}
    ensures r != Ok ==> db.comments == old(db.comments) && db.documents == old(db.documents)
  {
    if id !in db.documents {
      return NotFound;
    }
    var document := db.documents[id];
    if actor.None? {
      return Invalid;
    }
    var u := actor.value;
    if document.user != u {
      if u !in db.users {
        return Invalid;
      }
      if !IsAdmin(db, u) {
        return Unauthorized;
      }
    }
    db.comments := CommentsNotOn(db.comments, {id});
    db.documents := db.documents - {id};
    r := Ok;
  }

  // ---------------------------------------------------------------------------
  // Reads

  /** `getDocument`: any stored document, with no visibility check. */
  function GetDocument(db: Database, id: Id): (r: Result<Document>)
    reads db
    ensures r.Success? <==> id in db.documents
    ensures r.Success? ==> r.value == db.documents[id]
    ensures r.Failure? ==> r.error == NotFound
  {
    if id in db.documents then Success(db.documents[id]) else Failure(NotFound)
  }

  /**
   * The fetch is unchecked: a student is handed another user's private
   * document although the listing hides it from them.
   */
  lemma UncheckedFetch(db: Database, u: Id, id: Id, filter: set<Condition>)
    requires u in db.users && IsStudent(db, u)
    requires id in db.documents && db.documents[id].user != u
    requires db.LevelNumber(db.documents[id].level) == Some(PrivateLevel)
    ensures id !in Matching(db, filter, VisibilityFor(db, Some(u)).value)
    ensures GetDocument(db, id) == Success(db.documents[id])
  {
  }

  /**
   * The answer of `downloadDocument`, which takes no caller at all: the
   * document must exist, its file must resolve inside the uploads directory
   * and exist on disk.
   */
  function DownloadDecision(db: Database, id: Id, insideUploads: bool, fileExists: bool): (r: Outcome)
    reads db
    ensures r == Ok <==> id in db.documents && insideUploads && fileExists
    ensures id !in db.documents ==> r == NotFound
    ensures id in db.documents && !insideUploads ==> r == Invalid
    ensures id in db.documents && insideUploads && !fileExists ==> r == NotFound
  {
    if id !in db.documents then NotFound
    else if !insideUploads then Invalid
    else if !fileExists then NotFound
    else Ok
  }

  /** `document.downloadCount += 1` */
  function WithDownload(d: Document): (r: Document)
    ensures r.downloadCount == d.downloadCount + 1
    ensures ValidDocument(d) ==> ValidDocument(r)
  {
    d.(downloadCount := d.downloadCount + 1)
  }

  /** `downloadDocument`: a served download adds one to the document's `downloadCount`; nothing else changes. */
  method DownloadDocument(db: Database, id: Id, insideUploads: bool, fileExists: bool) returns (r: Outcome)
    requires db.Valid()
    modifies db`documents
    ensures db.Valid()
    ensures r == old(DownloadDecision(db, id, insideUploads, fileExists))
    ensures r == Ok ==> db.documents == old(db.documents)[id := WithDownload(old(db.documents[id]))]
    ensures r != Ok ==> db.documents == old(db.documents)
  {
    if id !in db.documents {
      return NotFound;
    }
    if !insideUploads {
      return Invalid;
    }
    if !fileExists {
      return NotFound;
    }
    var document := db.documents[id];
    assert ValidDocument(document);
    document := WithDownload(document);
    db.PutDocument(id, document);
    r := Ok;
  }

  /** `getMyDocuments`: every document for an admin, the caller's own documents for anyone else. */
  function GetMyDocuments(db: Database, actor: Option<Id>): (r: Result<set<Id>>)
    reads db
    ensures r.Failure? <==> actor.None? || actor.value !in db.users
    ensures r.Failure? ==> r.error == Invalid
    ensures r.Success? && IsAdmin(db, actor.value) ==> r.value == db.documents.Keys
    ensures r.Success? && !IsAdmin(db, actor.value) ==>
      forall id :: id in r.value <==> id in db.documents && db.documents[id].user == actor.value
  {
    if actor.None? || actor.value !in db.users then Failure(Invalid)
    else if IsAdmin(db, actor.value) then Success(db.documents.Keys)
    else Success(set id | id in db.documents && db.documents[id].user == actor.value)
  }

  /** A non-admin's "my documents" are exactly the documents that caller may update or delete. */
  lemma MyDocumentsAreModifiable(db: Database, u: Id, id: Id)
    requires u in db.users && !IsAdmin(db, u)
    ensures id in GetMyDocuments(db, Some(u)).value <==> id in db.documents && MayModify(db, u, db.documents[id])
  {
  }
}
