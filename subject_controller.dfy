/**
 * The subject handlers of Backend/controllers/subjectController.js: the
 * public reads, creation and update under the schema's `trim`, `required` and
 * unique-name rules, and the cascade that removes a subject together with its
 * documents and the comments on them.
 *
 * `createSubject` and `updateSubject` pass the whole request body to
 * Mongoose. The body is modelled by its two string fields `name` and
 * `description`; keys naming no schema path are dropped by the schema, and
 * the `_id` and `createdAt` paths the schema also has are not modelled. For the update the validators run on the written fields before
 * the record is looked up, so an invalid body is refused even for a missing id.
 */
module SubjectController {
  import opened Common
  import opened Strings
  import opened Models
  import opened Ordering
  import opened Store

  datatype SubjectBody = SubjectBody(name: Option<string>, description: Option<string>)

  /** The name of each stored subject. */
  function Names(subjects: map<Id, Subject>): (r: map<Id, string>)
    ensures r.Keys == subjects.Keys
    ensures forall s :: s in r ==> r[s] == subjects[s].name
  {
    map s | s in subjects :: subjects[s].name
  }

  /** `getSubjects`: every subject, by name ascending (`sort('name')`). */
  ghost function GetSubjects(db: Database): (r: seq<Id>)
    reads db
    ensures Enumerates(db.subjects.Keys, r)
    ensures forall i, j :: 0 <= i < j < |r| ==> LexLeq(db.subjects[r[i]].name, db.subjects[r[j]].name)
  {
    SortByTextAsc(Names(db.subjects))
  }

  /**
   * Subject names are unique, so the listing order is fully determined: every
   * name-sorted listing of the subjects is the one `getSubjects` returns.
   */
  lemma GetSubjectsDetermined(db: Database, listing: seq<Id>)
    requires ValidSubjects(db.subjects)
    requires Enumerates(db.subjects.Keys, listing)
    requires forall i, j :: 0 <= i < j < |listing| ==> LexLeq(db.subjects[listing[i]].name, db.subjects[listing[j]].name)
    ensures listing == GetSubjects(db)
  {
    var m := Names(db.subjects);
    assert UniqueSubjectNames(db.subjects);
    TextOrderUnique(m, db.subjects.Keys, listing, GetSubjects(db));
  }

  /** `getSubject`: 404 for a missing id. */
  function GetSubject(db: Database, id: Id): (r: Result<Subject>)
    reads db
    ensures r.Success? <==> id in db.subjects
    ensures r.Success? ==> r.value == db.subjects[id]
    ensures r.Failure? ==> r.error == NotFound
  {
    if id in db.subjects then Success(db.subjects[id]) else Failure(NotFound)
  }

  // ---------------------------------------------------------------------------
  // Create and update

  /** A field as the `trim` setter and the `required` validator leave it: `None` when refused. */
  function RequiredTrimmed(field: Option<string>): (r: Option<string>)
    ensures r.Some? <==> field.Some? && !IsBlank(field.value)
    ensures r.Some? ==> r.value == Trim(field.value) && r.value != [] && IsTrimmed(r.value)
  {
    if field.None? then None
    else
      TrimEmptyIffBlank(field.value);
      TrimIsTrimmed(field.value);
      if Trim(field.value) == [] then None else Some(Trim(field.value))
  }

  /** The subject `Subject.create(body)` builds, before the unique index is consulted. */
  function PlannedSubject(body: SubjectBody): (r: Result<Subject>)
    ensures r.Success? <==> body.name.Some? && !IsBlank(body.name.value) && body.description.Some? && !IsBlank(body.description.value)
    ensures r.Failure? ==> r.error == Invalid
    ensures r.Success? ==> ValidSubject(r.value)
    ensures r.Success? ==> r.value == Subject(Trim(body.name.value), Trim(body.description.value))
  {
    match (RequiredTrimmed(body.name), RequiredTrimmed(body.description))
    case (Some(n), Some(d)) => Success(Subject(n, d))
    case _ => Failure(Invalid)
  }

  /** Whether a subject other than `id` already holds `name`. */
  predicate NameTaken(subjects: map<Id, Subject>, id: Id, name: string)
  {
    exists o :: o in subjects && o != id && subjects[o].name == name
  }

  /** `createSubject`: stores the planned subject under the fresh id `newId`; a taken name is refused. */
  method CreateSubject(db: Database, body: SubjectBody, newId: Id) returns (r: Result<Id>)
    requires db.Valid() && newId !in db.subjects
    modifies db`subjects
    ensures db.Valid()
    ensures var plan := PlannedSubject(body);
      && (plan.Success? && !NameTaken(old(db.subjects), newId, plan.value.name) ==>
            r == Success(newId) && db.subjects == old(db.subjects)[newId := plan.value])
      && (plan.Failure? || NameTaken(old(db.subjects), newId, plan.value.name) ==>
            r == Failure(Invalid) && db.subjects == old(db.subjects))
  {
    var plan := PlannedSubject(body);
    if plan.Failure? {
      return Failure(plan.error);
    }
    if NameTaken(db.subjects, newId, plan.value.name) {
      return Failure(Invalid);
    }
    db.PutSubject(newId, plan.value);
    r := Success(newId);
  }

  /** The update validators accept the body: each given field is non-blank. */
  predicate FieldsAccepted(body: SubjectBody)
  {
    (body.name.Some? ==> !IsBlank(body.name.value)) && (body.description.Some? ==> !IsBlank(body.description.value))
  }

  /**
   * The update `findByIdAndUpdate(id, body, {runValidators: true})` applies:
   * each given field is trimmed and must stay non-empty; absent fields are
   * kept. `None` when a given field is refused.
   */
  function PatchSubject(s: Subject, body: SubjectBody): (r: Option<Subject>)
    ensures r.Some? <==> FieldsAccepted(body)
    ensures r.Some? ==> r.value.name == (if body.name.Some? then Trim(body.name.value) else s.name)
    ensures r.Some? ==> r.value.description == (if body.description.Some? then Trim(body.description.value) else s.description)
    ensures r.Some? && ValidSubject(s) ==> ValidSubject(r.value)
  {
    var name := RequiredTrimmed(body.name);
    var description := RequiredTrimmed(body.description);
    if (body.name.Some? && name.None?) || (body.description.Some? && description.None?) then None
    else Some(Subject(if name.Some? then name.value else s.name,
                      if description.Some? then description.value else s.description))
  }

  /** An update body with neither field leaves a subject as it was. */
  lemma PatchSubjectEmptyBody(s: Subject)
    ensures PatchSubject(s, SubjectBody(None, None)) == Some(s)
  {
  }

  /** The answer of `updateSubject`: 400 for a refused field, then 404 for a missing id, then 400 for a taken name. */
  function SubjectUpdateDecision(db: Database, id: Id, body: SubjectBody): (r: Outcome)
    reads db
    ensures r == Ok <==>
      (id in db.subjects && PatchSubject(db.subjects[id], body).Some? &&
       !NameTaken(db.subjects, id, PatchSubject(db.subjects[id], body).value.name))
    ensures !FieldsAccepted(body) ==> r == Invalid
    ensures id !in db.subjects && FieldsAccepted(body) ==> r == NotFound
    ensures r != Ok && r != NotFound ==> r == Invalid
  {
    if !FieldsAccepted(body) then Invalid
    else if id !in db.subjects then NotFound
    else if NameTaken(db.subjects, id, PatchSubject(db.subjects[id], body).value.name) then Invalid
    else Ok
  }

  /** `updateSubject`: writes the patched subject; on refusal nothing changes. */
  method UpdateSubject(db: Database, id: Id, body: SubjectBody) returns (r: Result<Subject>)
    requires db.Valid()
    modifies db`subjects
    ensures db.Valid()
    ensures r.Success? <==> old(SubjectUpdateDecision(db, id, body)) == Ok
    ensures r.Failure? ==> r.error == old(SubjectUpdateDecision(db, id, body)) && db.subjects == old(db.subjects)
    ensures r.Success? ==> r.value == PatchSubject(old(db.subjects[id]), body).value
    ensures r.Success? ==> db.subjects == old(db.subjects)[id := r.value]
  {
    var name := RequiredTrimmed(body.name);
    var description := RequiredTrimmed(body.description);
    if (body.name.Some? && name.None?) || (body.description.Some? && description.None?) {
      return Failure(Invalid);
    }
    if id !in db.subjects {
      return Failure(NotFound);
    }
    var patched := PatchSubject(db.subjects[id], body).value;
    if NameTaken(db.subjects, id, patched.name) {
      return Failure(Invalid);
    }
    db.PutSubject(id, patched);
    r := Success(patched);
  }

  // ---------------------------------------------------------------------------
  // Delete

  /**
   * `deleteSubject`: the ids of the subject's documents are collected first;
   * then the comments on those documents go, then the documents, then the
   * subject.
   */
  method DeleteSubject(db: Database, id: Id) returns (r: Outcome)
    requires db.Valid()
    modifies db`comments, db`documents, db`subjects
    ensures db.Valid()
    ensures r == Ok <==> id in old(db.subjects)
    ensures r != Ok ==> r == NotFound
    ensures r == Ok ==>
      && db.comments == CommentsNotOn(old(db.comments), DocumentIdsIn(old(db.documents), id))
      && db.documents == DocumentsNotIn(old(db.documents), id)
      && db.subjects == old(db.subjects) - {id}
    ensures r != Ok ==>
      db.comments == old(db.comments) && db.documents == old(db.documents) && db.subjects == old(db.subjects)
  {
    if id !in db.subjects {
      return NotFound;
    }
    var docIds := DocumentIdsIn(db.documents, id);
    db.comments := CommentsNotOn(db.comments, docIds);
    db.documents := DocumentsNotIn(db.documents, id);
    db.subjects := db.subjects - {id};
    r := Ok;
  }

  /**
   * The subject cascade leaves no comment on a removed document, and touches
   * nothing of other subjects: their documents stay as they were, and so do
   * the comments on them.
   */
  lemma SubjectCascadeScope(comments: map<Id, Comment>, documents: map<Id, Document>, s: Id)
    ensures var kept := CommentsNotOn(comments, DocumentIdsIn(documents, s));
      var left := DocumentsNotIn(documents, s);
      && (forall c :: c in kept && comments[c].document in documents ==> comments[c].document in left)
      && (forall d :: d in documents && documents[d].subject != s ==> d in left && left[d] == documents[d])
      && (forall c :: c in comments && comments[c].document in documents && documents[comments[c].document].subject != s ==>
            c in kept && kept[c] == comments[c])
  {
  }
}
