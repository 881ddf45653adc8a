/**
 * The MongoDB database as the controllers see it: one collection per model,
 * keyed by ObjectId, plus the unique indexes and schema guarantees that hold
 * of every stored record. References between collections are plain ids that
 * the database does not check; `Valid` deliberately says nothing about them.
 */
module Store {
  import opened Common
  import opened Strings
  import opened Models

  /** No two users share a username (the unique index on `username`). */
  predicate UniqueUsernames(users: map<Id, User>)
  {
    forall a, b :: a in users && b in users && users[a].username == users[b].username ==> a == b
  }

  /** No two subjects share a name (the unique index on `name`). */
  predicate UniqueSubjectNames(subjects: map<Id, Subject>)
  {
    forall a, b :: a in subjects && b in subjects && subjects[a].name == subjects[b].name ==> a == b
  }

  predicate ValidUsers(users: map<Id, User>)
  {
    UniqueUsernames(users) && forall u :: u in users ==> ValidUser(users[u])
  }

  predicate ValidSubjects(subjects: map<Id, Subject>)
  {
    UniqueSubjectNames(subjects) && forall s :: s in subjects ==> ValidSubject(subjects[s])
  }

  predicate ValidDocuments(documents: map<Id, Document>)
  {
    forall d :: d in documents ==> ValidDocument(documents[d])
  }

  /** Every stored comment has content (`required` on `content`). */
  predicate ValidComments(comments: map<Id, Comment>)
  {
    forall c :: c in comments ==> comments[c].content != []
  }

  /** Role references are ObjectIds, never the empty string. */
  predicate ValidRoles(roles: map<Id, Role>)
  {
    forall r :: r in roles ==> r != []
  }

  lemma ValidDocumentsPut(documents: map<Id, Document>, id: Id, d: Document)
    requires ValidDocuments(documents) && ValidDocument(d)
    ensures ValidDocuments(documents[id := d])
  {
  }

  /** Writing a valid user whose username no other user holds keeps the users valid. */
  lemma ValidUsersPut(users: map<Id, User>, id: Id, u: User)
    requires ValidUsers(users) && ValidUser(u)
    requires forall o :: o in users && o != id ==> users[o].username != u.username
    ensures ValidUsers(users[id := u])
  {
  }

  class Database {
    var roles: map<Id, Role>
    var levels: map<Id, DocumentLevel>
    var users: map<Id, User>
    var subjects: map<Id, Subject>
    var documents: map<Id, Document>
    var comments: map<Id, Comment>

    /** What the schemas and indexes guarantee of every stored record. */
    ghost predicate Valid()
      reads this
    {
      && ValidRoles(roles) && ValidUsers(users) && ValidSubjects(subjects)
      && ValidDocuments(documents) && ValidComments(comments)
    }

    constructor ()
      ensures Valid()
      ensures roles == map[] && levels == map[] && users == map[]
      ensures subjects == map[] && documents == map[] && comments == map[]
    {
      roles := map[];
      levels := map[];
      users := map[];
      subjects := map[];
      documents := map[];
      comments := map[];
    }

    /** Stores user `u` under `id`; a valid user whose username no other user holds keeps the store valid. */
    method PutUser(id: Id, u: User)
      requires Valid() && ValidUser(u)
      requires forall o :: o in users && o != id ==> users[o].username != u.username
      modifies this`users
      ensures Valid() && users == old(users)[id := u]
    {
      ValidUsersPut(users, id, u);
      users := users[id := u];
    }

    /** Stores document `d` under `id`; a valid document keeps the store valid. */
    method PutDocument(id: Id, d: Document)
      requires Valid() && ValidDocument(d)
      modifies this`documents
      ensures Valid() && documents == old(documents)[id := d]
    {
      ValidDocumentsPut(documents, id, d);
      documents := documents[id := d];
    }

    /** Stores subject `s` under `id`; a valid subject whose name no other subject holds keeps the store valid. */
    method PutSubject(id: Id, s: Subject)
      requires Valid() && ValidSubject(s)
      requires forall o :: o in subjects && o != id ==> subjects[o].name != s.name
      modifies this`subjects
      ensures Valid() && subjects == old(subjects)[id := s]
    {
      subjects := subjects[id := s];
    }

    /** Stores comment `c` under `id`; a comment with content keeps the store valid. */
    method PutComment(id: Id, c: Comment)
      requires Valid() && c.content != []
      modifies this`comments
      ensures Valid() && comments == old(comments)[id := c]
    {
      comments := comments[id := c];
    }

    /**
     * The role kind of the user with id `u`, as `populate('role')` resolves it:
     * `None` when the user is missing or its role reference dangles.
     */
    function RoleOfUser(u: Id): (r: Option<RoleKind>)
      reads this
      ensures r.Some? <==> u in users && users[u].role in roles
      ensures r.Some? ==> r.value == roles[users[u].role].role
    {
      if u in users && users[u].role in roles then Some(roles[users[u].role].role) else None
    }

    /** The number of the level with id `level`, `None` when the reference dangles. */
    function LevelNumber(level: Id): (r: Option<int>)
      reads this
      ensures r.Some? <==> level in levels
      ensures r.Some? ==> r.value == levels[level].level
    {
      if level in levels then Some(levels[level].level) else None
    }
  }

  // ---------------------------------------------------------------------------
  // The `deleteMany` filters the cascades use

  /** `Comment.deleteMany({document: {$in: docs}})` */
  function CommentsNotOn(comments: map<Id, Comment>, docs: set<Id>): (r: map<Id, Comment>)
    ensures forall c :: c in r <==> c in comments && comments[c].document !in docs
    ensures forall c :: c in r ==> r[c] == comments[c]
  {
    map c | c in comments && comments[c].document !in docs :: comments[c]
  }

  /** `Comment.deleteMany({user: u})` */
  function CommentsNotBy(comments: map<Id, Comment>, u: Id): (r: map<Id, Comment>)
    ensures forall c :: c in r <==> c in comments && comments[c].user != u
    ensures forall c :: c in r ==> r[c] == comments[c]
  {
    map c | c in comments && comments[c].user != u :: comments[c]
  }

  /** `Document.deleteMany({user: u})` */
  function DocumentsNotBy(documents: map<Id, Document>, u: Id): (r: map<Id, Document>)
    ensures forall d :: d in r <==> d in documents && documents[d].user != u
    ensures forall d :: d in r ==> r[d] == documents[d]
  {
    map d | d in documents && documents[d].user != u :: documents[d]
  }

  /** `Document.deleteMany({subject: s})` */
  function DocumentsNotIn(documents: map<Id, Document>, s: Id): (r: map<Id, Document>)
    ensures forall d :: d in r <==> d in documents && documents[d].subject != s
    ensures forall d :: d in r ==> r[d] == documents[d]
  {
    map d | d in documents && documents[d].subject != s :: documents[d]
  }

  /** The ids of the documents filed under subject `s`. */
  function DocumentIdsIn(documents: map<Id, Document>, s: Id): (r: set<Id>)
    ensures forall d :: d in r <==> d in documents && documents[d].subject == s
  {
    set d | d in documents && documents[d].subject == s
  }
}
