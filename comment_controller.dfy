/**
 * The comment handlers of Backend/controllers/commentController.js. Only
 * the author of a comment may edit or delete it; no role, not even admin,
 * overrides that. Comments are attached to any document id the client
 * names: neither existence nor visibility of the document is checked.
 *
 * `actor` is the id in `req.user`; a null request user makes
 * `req.user._id` throw, which these handlers answer with 500. `now` is the
 * timestamp the `timestamps` option writes.
 */
module CommentController {
  import opened Common
  import opened Models
  import opened Ordering
  import opened Store
  import DocumentQuery

  /** The `createdAt` stamp of each stored comment. */
  function Stamps(comments: map<Id, Comment>): (r: map<Id, int>)
    ensures r.Keys == comments.Keys
    ensures forall c :: c in r ==> r[c] == comments[c].createdAt as int
  {
    map c | c in comments :: comments[c].createdAt as int
  }

  /** The ids of the comments on `document` (`Comment.find({document})`). */
  function CommentsOn(comments: map<Id, Comment>, document: Id): (r: set<Id>)
    ensures forall c :: c in r <==> c in comments && comments[c].document == document
  {
    set c | c in comments && comments[c].document == document
  }

  /**
   * The ids of the comments on any of `documents`. An array `documentId`
   * is cast by Mongoose to `{document: {$in: documentId}}`.
   */
  function CommentsOnAny(comments: map<Id, Comment>, documents: set<Id>): (r: set<Id>)
    ensures forall c :: c in r <==> c in comments && comments[c].document in documents
  {
    set c | c in comments && comments[c].document in documents
  }

  /** The documents a `documentId` query value names: the string itself, or every item of an array. */
  function Named(v: DocumentQuery.QueryValue): (r: set<Id>)
    ensures v.Text? ==> r == {v.text}
    ensures v.List? ==> forall d :: d in r <==> d in v.items
    ensures v.Nested? ==> r == {}
  {
    match v
    case Text(s) => {s}
    case List(items) => set d | d in items
    case Nested => {}
  }

  /**
   * `getComments`: a missing or empty `documentId` is refused with 400; an
   * object value, which is no operator query the model knows, fails its
   * ObjectId cast and the catch answers 500; otherwise every comment on the
   * named documents, each once, newest first.
   */
  ghost function GetComments(db: Database, documentId: Option<DocumentQuery.QueryValue>): (r: Result<seq<Id>>)
    reads db
    ensures documentId.None? || documentId == Some(DocumentQuery.Text([])) ==> r == Failure(Invalid)
    ensures documentId.Some? && documentId.value.Nested? ==> r == Failure(ServerError)
    ensures r.Success? <==>
      documentId.Some? && !documentId.value.Nested? && documentId != Some(DocumentQuery.Text([]))
    ensures r.Success? ==> Enumerates(CommentsOnAny(db.comments, Named(documentId.value)), r.value)
    ensures r.Success? ==> forall i, j :: 0 <= i < j < |r.value| ==>
      db.comments[r.value[i]].createdAt >= db.comments[r.value[j]].createdAt
  {
    match documentId
    case None => Failure(Invalid)
    case Some(v) =>
      if v == DocumentQuery.Text([]) then Failure(Invalid)
      else if v.Nested? then Failure(ServerError)
      else Success(SortKeysByNumberDesc(Stamps(db.comments), CommentsOnAny(db.comments, Named(v))))
  }

  /** A plain non-empty `documentId` lists exactly the comments on that one document. */
  lemma GetCommentsOfOne(db: Database, document: Id)
    requires document != []
    ensures GetComments(db, Some(DocumentQuery.Text(document))).Success?
    ensures Enumerates(CommentsOn(db.comments, document), GetComments(db, Some(DocumentQuery.Text(document))).value)
  {
    assert CommentsOnAny(db.comments, Named(DocumentQuery.Text(document))) == CommentsOn(db.comments, document);
  }

  /**
   * A repeated key, `?documentId=a&documentId=b`, lists the comments on
   * either document: the union of the two single listings.
   */
  lemma GetCommentsOfTwo(db: Database, a: Id, b: Id)
    ensures GetComments(db, Some(DocumentQuery.List([a, b]))).Success?
    ensures Enumerates(CommentsOn(db.comments, a) + CommentsOn(db.comments, b),
                       GetComments(db, Some(DocumentQuery.List([a, b]))).value)
  {
    assert Named(DocumentQuery.List([a, b])) == {a, b};
    assert CommentsOnAny(db.comments, {a, b}) == CommentsOn(db.comments, a) + CommentsOn(db.comments, b);
  }

  datatype CommentBody = CommentBody(document: Option<Id>, content: Option<string>)

  /**
   * The comment `createComment` saves: both fields must be truthy, and the
   * author is always the caller, whatever the body says.
   */
  function PlannedComment(actor: Option<Id>, body: CommentBody, now: nat): (r: Result<Comment>)
    ensures !Truthy(body.document) || !Truthy(body.content) ==> r == Failure(Invalid)
    ensures Truthy(body.document) && Truthy(body.content) && actor.None? ==> r == Failure(ServerError)
    ensures r.Success? <==> Truthy(body.document) && Truthy(body.content) && actor.Some?
    ensures r.Success? ==>
      && r.value.document == body.document.value && r.value.content == body.content.value
      && r.value.user == actor.value && r.value.createdAt == now && r.value.updatedAt == now
  {
    if !Truthy(body.document) || !Truthy(body.content) then Failure(Invalid)
    else if actor.None? then Failure(ServerError)
    else Success(Comment(body.document.value, actor.value, body.content.value, now, now))
  }

  /**
   * The plan never consults the store: a comment on a document id that names
   * no document, or one the caller's listing hides, is accepted all the same.
   */
  lemma CommentOnAnyDocument(db: Database, actor: Id, document: Id, content: string, now: nat)
    requires document != [] && content != []
    requires document !in db.documents
    ensures PlannedComment(Some(actor), CommentBody(Some(document), Some(content)), now).Success?
  {
  }

  /** `createComment`: stores the planned comment under the fresh id `newId`. */
  method CreateComment(db: Database, actor: Option<Id>, body: CommentBody, newId: Id, now: nat) returns (r: Result<Id>)
    requires db.Valid() && newId !in db.comments
    modifies db`comments
    ensures db.Valid()
    ensures var plan := PlannedComment(actor, body, now);
      && (plan.Success? ==> r == Success(newId) && db.comments == old(db.comments)[newId := plan.value])
      && (plan.Failure? ==> r == Failure(plan.error) && db.comments == old(db.comments))
  {
    if !Truthy(body.document) || !Truthy(body.content) {
      return Failure(Invalid);
    }
    if actor.None? {
      return Failure(ServerError);
    }
    db.PutComment(newId, Comment(body.document.value, actor.value, body.content.value, now, now));
    r := Success(newId);
  }

  /** The answer of `updateComment`: empty content, then a missing comment, then a caller who is not the author. */
  function CommentUpdateDecision(db: Database, actor: Option<Id>, id: Id, content: Option<string>): (r: Outcome)
    reads db
    ensures !Truthy(content) ==> r == Invalid
    ensures Truthy(content) && id !in db.comments ==> r == NotFound
    ensures r == Ok <==> Truthy(content) && id in db.comments && actor == Some(db.comments[id].user)
    ensures Truthy(content) && id in db.comments && actor.Some? && actor.value != db.comments[id].user ==> r == Forbidden
    ensures Truthy(content) && id in db.comments && actor.None? ==> r == ServerError
  {
    if !Truthy(content) then Invalid
    else if id !in db.comments then NotFound
    else if actor.None? then ServerError
    else if db.comments[id].user != actor.value then Forbidden
    else Ok
  }

  /**
   * The saved comment: the new content; the timestamps plugin refreshes
   * `updatedAt` only when the assignment changed the content, so re-sending
   * the same text saves the comment untouched. Document, author and creation
   * time stay.
   */
  function Edited(c: Comment, content: string, now: nat): (r: Comment)
    ensures r.content == content
    ensures r.updatedAt == (if content == c.content then c.updatedAt else now)
    ensures r.document == c.document && r.user == c.user && r.createdAt == c.createdAt
    ensures content == c.content ==> r == c
  {
    if content == c.content then c else c.(content := content, updatedAt := now)
  }

  /** Saving the same edit twice changes nothing the second time, whenever it happens. */
  lemma EditedIdempotent(c: Comment, content: string, now: nat, later: nat)
    ensures Edited(Edited(c, content, now), content, later) == Edited(c, content, now)
  {
  }

  /** `updateComment`: the author's edit is saved; on refusal nothing changes. */
  method UpdateComment(db: Database, actor: Option<Id>, id: Id, content: Option<string>, now: nat) returns (r: Result<Comment>)
    requires db.Valid()
    modifies db`comments
    ensures db.Valid()
    ensures r.Success? <==> old(CommentUpdateDecision(db, actor, id, content)) == Ok
    ensures r.Failure? ==> r.error == old(CommentUpdateDecision(db, actor, id, content)) && db.comments == old(db.comments)
    ensures r.Success? ==> r.value == Edited(old(db.comments[id]), content.value, now)
    ensures r.Success? ==> db.comments == old(db.comments)[id := r.value]
  {
    if !Truthy(content) {
      return Failure(Invalid);
    }
    if id !in db.comments {
      return Failure(NotFound);
    }
    var comment := db.comments[id];
    if actor.None? {
      return Failure(ServerError);
    }
    if comment.user != actor.value {
      return Failure(Forbidden);
    }
    comment := Edited(comment, content.value, now);
    db.PutComment(id, comment);
    r := Success(comment);
  }

  /** The answer of `deleteComment`: a missing comment, then a caller who is not the author. */
  function CommentDeleteDecision(db: Database, actor: Option<Id>, id: Id): (r: Outcome)
    reads db
    ensures id !in db.comments ==> r == NotFound
    ensures r == Ok <==> id in db.comments && actor == Some(db.comments[id].user)
    ensures id in db.comments && actor.Some? && actor.value != db.comments[id].user ==> r == Forbidden
    ensures id in db.comments && actor.None? ==> r == ServerError
  {
    if id !in db.comments then NotFound
    else if actor.None? then ServerError
    else if db.comments[id].user != actor.value then Forbidden
    else Ok
  }

  /** `deleteComment`: the author's comment is removed; on refusal nothing changes. */
  method DeleteComment(db: Database, actor: Option<Id>, id: Id) returns (r: Outcome)
    requires db.Valid()
    modifies db`comments
    ensures db.Valid()
    ensures r == old(CommentDeleteDecision(db, actor, id))
    ensures r == Ok ==> db.comments == old(db.comments) - {id}
    ensures r != Ok ==> db.comments == old(db.comments)
  {
    if id !in db.comments {
      return NotFound;
    }
    if actor.None? {
      return ServerError;
    }
    if db.comments[id].user != actor.value {
      return Forbidden;
    }
    db.comments := db.comments - {id};
    r := Ok;
  }

  /** No admin override: an admin who did not write a comment can neither edit nor delete it. */
  lemma NoAdminOverride(db: Database, admin: Id, id: Id, content: string)
    requires db.RoleOfUser(admin) == Some(Admin)
    requires id in db.comments && db.comments[id].user != admin && content != []
    ensures CommentUpdateDecision(db, Some(admin), id, Some(content)) == Forbidden
    ensures CommentDeleteDecision(db, Some(admin), id) == Forbidden
  {
  }
}
