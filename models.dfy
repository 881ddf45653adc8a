/**
 * The stored records (Backend/models) and the schema rules Mongoose enforces
 * when a record is created: required fields, `trim` setters, length limits,
 * defaults, and the two hooks of the User schema.
 */
module Models {
  import opened Common
  import opened Strings

  /** The `role` enum of the Role schema. */
  datatype RoleKind = Student | Teacher | Admin

  function RoleName(k: RoleKind): string
  {
    match k
    case Student => "student"
    case Teacher => "teacher"
    case Admin => "admin"
  }

  /** The Role record whose `role` field equals `s`, by kind; `None` when no kind is spelled `s`. */
  function ParseRole(s: string): (r: Option<RoleKind>)
    ensures r.Some? ==> RoleName(r.value) == s
  {
    if s == "student" then Some(Student)
    else if s == "teacher" then Some(Teacher)
    else if s == "admin" then Some(Admin)
    else None
  }

  /** Parsing and spelling are inverse: every kind is found under its own name and no other. */
  lemma ParseRoleName(k: RoleKind, s: string)
    ensures ParseRole(RoleName(k)) == Some(k)
    ensures ParseRole(s) == Some(k) <==> s == RoleName(k)
  {
  }

  datatype Role = Role(name: string, role: RoleKind)

  /** A DocumentLevel record: the schema leaves `level` an unconstrained number. */
  datatype DocumentLevel = DocumentLevel(name: string, level: int)

  /** The level numbers the provisioning script seeds, and what they mean to the controllers. */
  const PublicLevel: int := 1
  const TeacherOnlyLevel: int := 2
  const PrivateLevel: int := 3

  datatype User = User(nickname: string, username: string, password: string, role: Id)

  /** A user as a query returns it: the password path is `select: false`, so the hash is left out. */
  datatype UserView = UserView(nickname: string, username: string, role: Id)

  function View(u: User): UserView
  {
    UserView(u.nickname, u.username, u.role)
  }

  /** Two users look the same exactly when they differ at most in their password. */
  lemma ViewHidesOnlyPassword(u: User, w: User)
    ensures View(u) == View(w) <==> u.(password := w.password) == w
  {
  }

  datatype Subject = Subject(name: string, description: string)

  datatype Document = Document(
    title: string,
    description: string,
    level: Id,
    file: string,
    fileType: string,
    fileSize: nat,
    downloadCount: nat,
    subject: Id,
    user: Id,
    nickname: string,
    createdAt: nat)

  datatype Comment = Comment(document: Id, user: Id, content: string, createdAt: nat, updatedAt: nat)

  // ---------------------------------------------------------------------------
  // Document schema

  const TitleMax: nat := 100
  const DescriptionMax: nat := 500

  /** What the Document schema guarantees of every stored document. */
  predicate ValidDocument(d: Document)
  {
    && d.title != [] && IsTrimmed(d.title) && Utf16Length(d.title) <= TitleMax
    && d.description != [] && Utf16Length(d.description) <= DescriptionMax
    && d.level != [] && d.file != [] && d.subject != [] && d.user != [] && d.nickname != []
  }

  /** The fields `Document.create` receives; absent request fields are `None`. */
  datatype DocumentInput = DocumentInput(
    title: Option<string>,
    description: Option<string>,
    level: Option<Id>,
    file: string,
    fileType: string,
    fileSize: nat,
    subject: Option<Id>,
    user: Id,
    nickname: string,
    createdAt: nat)

  /**
   * `Document.create`: the title is trimmed and must then be non-empty and at
   * most 100 UTF-16 code units long, the description non-empty and at most 500, the
   * references and the nickname present; `downloadCount` starts at 0.
   */
  function CreateDocument(input: DocumentInput): (r: Result<Document>)
    ensures r.Success? <==>
      && input.title.Some? && Trim(input.title.value) != [] && Utf16Length(Trim(input.title.value)) <= TitleMax
      && Truthy(input.description) && Utf16Length(input.description.value) <= DescriptionMax
      && Truthy(input.level) && Truthy(input.subject)
      && input.file != [] && input.user != [] && input.nickname != []
    ensures r.Failure? ==> r.error == Invalid
    ensures r.Success? ==> ValidDocument(r.value)
    ensures r.Success? ==> var d := r.value;
      && d.title == Trim(input.title.value) && d.description == input.description.value
      && d.level == input.level.value && d.subject == input.subject.value
      && d.file == input.file && d.fileType == input.fileType && d.fileSize == input.fileSize
      && d.user == input.user && d.nickname == input.nickname
      && d.downloadCount == 0 && d.createdAt == input.createdAt
  {
    if input.title.None? then Failure(Invalid)
    else
      var title := Trim(input.title.value);
      if title == [] || Utf16Length(title) > TitleMax then Failure(Invalid)
      else if !Truthy(input.description) || Utf16Length(input.description.value) > DescriptionMax then Failure(Invalid)
      else if !Truthy(input.level) || !Truthy(input.subject) then Failure(Invalid)
      else if input.file == [] || input.user == [] || input.nickname == [] then Failure(Invalid)
      else
        TrimIsTrimmed(input.title.value);
        Success(Document(title, input.description.value, input.level.value, input.file,
                         input.fileType, input.fileSize, 0, input.subject.value,
                         input.user, input.nickname, input.createdAt))
  }

  /**
   * `maxlength` counts UTF-16 code units: sixty emoji are 120 units, so such a
   * title is refused although it holds only sixty characters.
   */
  lemma AstralTitleRefused(input: DocumentInput)
    requires input.title == Some(seq(60, _ => '\U{1F4D8}'))
    ensures CreateDocument(input).Failure?
  {
    var t := input.title.value;
    assert !IsSpace(t[0]) && !IsSpace(t[|t| - 1]);
    TrimmedIsFixed(t);
    assert Utf16Length(t) == 120;
  }

  // ---------------------------------------------------------------------------
  // User schema

  const PasswordMin: nat := 6

  /** What the User schema guarantees of the identity fields of every stored user. */
  predicate ValidUser(u: User)
  {
    && u.nickname != [] && IsTrimmed(u.nickname)
    && u.username != [] && IsTrimmed(u.username)
    && u.role != []
  }

  /** What the Subject schema guarantees of every stored subject. */
  predicate ValidSubject(s: Subject)
  {
    && s.name != [] && IsTrimmed(s.name)
    && s.description != [] && IsTrimmed(s.description)
  }

  /**
   * A User document under construction (`new User(...)` / `User.create`).
   * The `trim` setters run on assignment; the two hooks update the fields in place.
   */
  class UserDraft {
    var nickname: string
    var username: string
    var password: string
    var role: Option<Id>
    var passwordModified: bool

    constructor (givenNickname: string, givenUsername: string, givenPassword: string)
      ensures nickname == Trim(givenNickname) && username == Trim(givenUsername)
      ensures password == givenPassword && role == None && passwordModified
    {
      var n := Trim(givenNickname);
      var u := Trim(givenUsername);
      nickname := n;
      username := u;
      password := givenPassword;
      role := None;
      passwordModified := true;
    }

    /**
     * The pre-validate hook: a user without a role gets a student role, and
     * validation fails when no student role exists; a set role is kept.
     */
    method PreValidate(roles: map<Id, Role>) returns (ok: bool)
      modifies this`role
      ensures old(role).Some? ==> ok && role == old(role)
      ensures old(role).None? ==> (ok <==> exists r :: r in roles && roles[r].role == Student)
      ensures ok ==> role.Some?
      ensures old(role).None? && ok ==> role.value in roles && roles[role.value].role == Student
      ensures !ok ==> role == old(role)
    {
      ok := true;
      if role.None? {
        if r :| r in roles && roles[r].role == Student {
          role := Some(r);
        } else {
          ok := false;
        }
      }
    }

    /** The schema validators, run after the pre-validate hook and before hashing. */
    predicate PassesValidators()
      reads this
    {
      nickname != [] && username != [] && Utf16Length(password) >= PasswordMin && role.Some? && role.value != []
    }

    /** The pre-save hook: the password is replaced by its hash only when it was modified. */
    method PreSave(hash: string -> string)
      modifies this`password
      ensures password == if passwordModified then hash(old(password)) else old(password)
    {
      if passwordModified {
        password := hash(password);
      }
    }

    function Record(): (u: User)
      requires role.Some?
      reads this
      ensures u.nickname == nickname && u.username == username && u.password == password
      ensures u.role == role.value
    {
      User(nickname, username, password, role.value)
    }
  }
}
