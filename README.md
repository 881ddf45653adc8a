# WEB-TTCS backend: access control and referential integrity

This project models the core of the WEB-TTCS document-sharing backend, a
Node/Express service over MongoDB. In that service, students, teachers and
admins upload, list, download and comment on study documents grouped by
subject. The model covers:

- the request pipeline: the `protect` and `authorize` middleware and the
  route tables that chain them in front of each handler;
- the controllers for authentication, users, subjects, documents, comments
  and statistics;
- the Mongoose schemas whose validators and hooks those controllers rely on;
- the multer upload rules: stored file name, file-type filter and size limit.

The collections (roles, document levels, users, subjects, documents,
comments) are map fields of one `Store.Database` object. Each state-changing
handler is a method on it. The method's postcondition ties the new state to a
decision function, which says which status the handler answers
(`Outcome`: 200/201, 400, 401, 403, 404, 500).

The properties proved are the service's access-control and integrity rules:

- who may read which document level;
- who may change or delete a document or a comment;
- that the admin guards admit exactly the admins;
- that deleting a user or a subject removes their documents and comments;
- that uniqueness of usernames and subject names is kept.

The model also proves round trips for the query-string operator rewriting and
for the timestamp in stored file names.

Modules follow the source files:

- `Common`, `Strings`, `Ordering`: JavaScript truthiness, trimming, lower-casing, string lengths in UTF-16 code units, `parseInt` and `Number`, and sorting done by the database.
- `Models`: the schemas in `Backend/models`.
- `Store`: the collections and the invariants the schemas enforce.
- `AuthMiddleware`: `Backend/middleware/auth.js`.
- `Routes`: `Backend/routes/*.js`, plus the error handler of `Backend/Server.js`.
- `UploadRules`: the multer configuration in `Backend/routes/documents.js`.
- `AuthController`, `UserController`, `SubjectController`, `DocumentQuery` with `DocumentController`, `CommentController`, `Stats`: the controllers.

Cryptography, the clock and the file system are parameters:

- the bcrypt hash and compare, and the JWT sign and verify, are functions passed in;
- `Date.now()` is a `now: nat` argument;
- whether a stored file lies inside `uploads/` and exists are two booleans.

## Model

| member | source | states |
|---|---|---|
| Common.OrElse | Backend/controllers/documentController.js:148-153 | `a || b` on a request field: the field when it is a non-empty string, the fallback otherwise |
| Strings.Trim | Backend/models/User.js:7-17 | `s.trim()` and the `trim: true` setter: white space removed at both ends |
| Strings.TrimEmptyIffBlank | Backend/models/Subject.js:3-14 | a trimmed value is empty exactly when the input is all white space, so a `trim` + `required` field rejects blank input |
| Strings.TrimIdempotent | Backend/models/User.js:7-17 | trimming twice is trimming once, so a value the setter already trimmed is stored unchanged |
| Strings.TrimmedIsFixed | Backend/models/User.js:7-17 | a string without surrounding white space is its own trim |
| Strings.ToLower | Backend/routes/documents.js:29 | `toLowerCase` keeps the length and lower-cases each ASCII letter in place |
| Strings.Utf16Length | Backend/models/Document.js:9-14 | `.length` as `maxlength`/`minlength` count it: between one and two units per character, exactly one per character outside the astral planes, two per astral character |
| Strings.Join | Backend/controllers/documentController.js:298-299 | `String(array)`: no items give the empty string, one item itself, more items the first, the separator and the rest |
| Strings.ParseInt | Backend/controllers/documentController.js:298-299 | `parseInt(s, 10)`: leading white space, an optional sign and the longest digit run; no digits is NaN |
| Strings.LexLeqTotal | Backend/controllers/subjectController.js:10 | the string order used by `sort('name')` is total |
| Strings.LexLeqTransitive | Backend/controllers/subjectController.js:10 | the string order is transitive |
| Strings.LexLeqAntisymmetric | Backend/controllers/subjectController.js:10 | the string order is antisymmetric, so equal keys are equal names |
| Strings.ParseIntDecimal | Backend/controllers/documentController.js:298-299 | `parseInt` of a decimal numeral followed by a non-digit gives back the number |
| Strings.IntegerValue | Backend/controllers/documentController.js:244-247 | `Number(s)` on plain decimal integers, which the query cast applies to a Number path |
| Strings.IntegerValueDecimal | Backend/controllers/documentController.js:244-247 | `Number` reads back the decimal text of every natural number |
| Ordering.SortByNumberDesc | Backend/controllers/statsController.js:23 | a descending sort by count lists every key once, counts never increasing |
| Ordering.SortByTextAsc | Backend/controllers/subjectController.js:10 | an ascending sort by name lists every key once, names in order |
| Ordering.TextOrderUnique | Backend/controllers/subjectController.js:10 | with distinct names, two listings sorted by name are the same listing |
| Models.ParseRoleName | Backend/models/Role.js:13 | the role strings `student`, `teacher`, `admin` and the three role kinds correspond one to one |
| Models.CreateDocument | Backend/models/Document.js:5-53 | a document is created exactly when the title (trimmed) is 1..100 UTF-16 code units long, the description 1..500, and level, subject, file, user and nickname are present; it starts with 0 downloads |
| Models.AstralTitleRefused | Backend/models/Document.js:9 | a title of sixty astral characters (120 code units) is refused by `maxlength: 100` |
| Models.UserDraft.constructor | Backend/models/User.js:7-17 | the `trim` setters store nickname and username trimmed; the password is marked modified |
| Models.UserDraft.PreValidate | Backend/models/User.js:36-50 | a user without a role gets the `student` role record; validation fails when no such record exists |
| Models.UserDraft.PreSave | Backend/models/User.js:53-60 | the password is replaced by its hash exactly when it was modified |
| Models.UserDraft.Record | Backend/models/User.js:6-33 | the stored user carries the draft's fields |
| Models.ViewHidesOnlyPassword | Backend/models/User.js:18-23 | the user a query returns leaves out the password (`select: false`): two users look the same exactly when they differ at most in their password |
| Store.Database.constructor | Backend/models/User.js:6-33 | an empty database satisfies every schema invariant |
| Store.Database.PutUser | Backend/models/User.js:12-17 | writing a valid user whose username no other user holds keeps usernames unique and changes only that entry |
| Store.Database.PutSubject | Backend/models/Subject.js:4-9 | writing a valid subject whose name no other subject holds keeps names unique and changes only that entry |
| Store.Database.PutDocument | Backend/models/Document.js:4-54 | writing a valid document changes only that entry and keeps the invariants |
| Store.Database.PutComment | Backend/models/Comment.js:4-24 | writing a comment with content changes only that entry and keeps the invariants |
| Store.Database.RoleOfUser | Backend/middleware/auth.js:29 | the populated role of a user: defined exactly when the user exists and its role reference resolves |
| Store.CommentsNotOn | Backend/controllers/subjectController.js:109-110 | `Comment.deleteMany({document: {$in: docs}})`: exactly the comments on other documents remain, unchanged |
| Store.CommentsNotBy | Backend/controllers/userController.js:120-121 | `Comment.deleteMany({user})`: exactly the other users' comments remain, unchanged |
| Store.DocumentsNotBy | Backend/controllers/userController.js:123-124 | `Document.deleteMany({user})`: exactly the other users' documents remain, unchanged |
| Store.DocumentsNotIn | Backend/controllers/subjectController.js:112-113 | `Document.deleteMany({subject})`: exactly the documents of other subjects remain, unchanged |
| Store.DocumentIdsIn | Backend/controllers/subjectController.js:105-107 | the ids of exactly the documents filed under the subject |
| AuthMiddleware.BearerToken | Backend/middleware/auth.js:8-14 | a token is found only in a truthy header starting with `Bearer`; it is the non-empty second space-separated field |
| AuthMiddleware.BearerTokenOfHeader | Backend/middleware/auth.js:8-14 | `Bearer <token>` yields the token |
| AuthMiddleware.BearerTokenLoose | Backend/middleware/auth.js:10-13 | any header starting with `Bearer`, such as `Bearerx a b`, yields its second field |
| AuthMiddleware.BearerTokenDoubleSpace | Backend/middleware/auth.js:13-22 | `Bearer  <token>` (two spaces) yields no token and so 401 |
| AuthMiddleware.Authenticate | Backend/middleware/auth.js:5-37 | 401 when there is no token or it fails verification; otherwise the request goes on with the decoded user, or with a null user when that id names no user |
| AuthMiddleware.Request.Protect | Backend/middleware/auth.js:5-37 | `req.user` is set exactly when authentication succeeds; on 401 it is left as it was |
| AuthMiddleware.Authorize | Backend/middleware/auth.js:40-55 | admits exactly a user whose resolved role string is listed; other users get 403; no user gives 500 |
| AuthMiddleware.AuthorizeAdminOnly | Backend/middleware/auth.js:40-55 | `authorize('admin')` admits exactly the users whose role is admin |
| Routes.Resolve | Backend/routes/documents.js:47-67 | the route chosen is the first in declaration order that fits; none fits exactly when the result is none |
| Routes.RunGuards | Backend/routes/documents.js:47-67 | the route's middleware in order: a refusing guard's status (never 200) ends the chain; no guards pass the request user through |
| Routes.Dispatch | Backend/Server.js:34-58 | an unmatched path is 404; a dispatched request reaches the handler of the resolved route |
| Routes.ProtectFirst | Backend/middleware/auth.js:17-36 | a chain starting with `protect` answers 401 to a request that fails authentication |
| Routes.DocumentGuards | Backend/routes/documents.js:47-67 | every document route except download is guarded by `protect`; download has no guard |
| Routes.DocumentsNeedAuthentication | Backend/routes/documents.js:47-63 | an unauthenticated request to a document route other than download is answered 401 or 404 and never reaches a handler |
| Routes.DownloadIsPublic | Backend/routes/documents.js:65-67 | `GET /:id/download` reaches the download handler with no user and no token check |
| Routes.MyDocumentsBeforeId | Backend/routes/documents.js:55-63 | `GET /my-documents` also fits `/:id` but resolves to `getMyDocuments`, declared first |
| Routes.SubjectGuards | Backend/routes/subjects.js:13-22 | subject reads have no guard; subject writes are guarded by `protect` then `authorize('admin')` |
| Routes.UserGuards | Backend/routes/users.js:7-14 | every user route is guarded by `protect` then `authorize('admin')` |
| Routes.CommentGuards | Backend/routes/comments.js:8-17 | every comment route is guarded by `protect` alone |
| Routes.AdminChain | Backend/middleware/auth.js:5-55 | `protect` + `authorize('admin')`: 401 without valid token, 500 with a null user, 403 for a non-admin, pass for an admin |
| Routes.UsersAdminOnly | Backend/routes/users.js:7-14 | a user route reaches its handler only for an authenticated admin |
| Routes.SubjectWritesAdminOnly | Backend/routes/subjects.js:16-22 | a subject write reaches its handler only for an authenticated admin |
| Routes.SubjectReadsPublic | Backend/routes/subjects.js:15-20 | a subject read reaches its handler whatever the header |
| Routes.CommentsAnyRole | Backend/routes/comments.js:8-17 | a comment route reaches its handler for any authenticated request, whatever the role |
| UploadRules.StoredFilename | Backend/routes/documents.js:21-23 | the stored name is the decimal time, a dash, and the original name with white space turned into dashes; it holds no white space |
| UploadRules.StoredFilenameTime | Backend/routes/documents.js:21-23 | `parseInt` of the stored name gives back the upload time |
| UploadRules.StoredFilenameKeeps | Backend/routes/documents.js:21-23 | every non-space character of the original name is kept in place |
| UploadRules.ExtName | Backend/routes/documents.js:29 | `path.extname` is empty or a dot followed by characters that are neither dots nor slashes |
| UploadRules.ExtNameOfFileName | Backend/routes/documents.js:29 | the extension of `stem.ext` is `.ext` |
| UploadRules.ExtNameLeadingDot | Backend/routes/documents.js:29 | a name of the form `.name` has no extension |
| UploadRules.MatchesFileTypes | Backend/routes/documents.js:28 | the unanchored alternation: some listed word occurs in the text |
| UploadRules.FileFilterAsWritten | Backend/routes/documents.js:27-37 | the filter as written: the lower-cased extension and the raw MIME type must both match the alternation |
| UploadRules.FileFilter | Backend/routes/documents.js:27-37 | the filter as intended: a listed extension with a matching MIME type or one of the four legacy MIME types |
| UploadRules.TextAndWordMimeUnmatched | Backend/routes/documents.js:28-30 | the alternation matches neither `text/plain` nor `application/msword` |
| UploadRules.ExcelMimeUnmatched | Backend/routes/documents.js:28-30 | the alternation does not match `application/vnd.ms-excel` |
| UploadRules.PowerPointMimeUnmatched | Backend/routes/documents.js:28-30 | the alternation does not match `application/vnd.ms-powerpoint` |
| UploadRules.LegacyMimeTypeUnmatched | Backend/routes/documents.js:28-30 | the alternation matches none of the four legacy MIME types |
| UploadRules.PdfAccepted | Backend/routes/documents.js:27-33 | a `.pdf` file sent as `application/pdf` passes the filter as written |
| UploadRules.LegacyTypeRefused | Backend/routes/documents.js:27-37 | a `.txt`, `.doc`, `.xls` or `.ppt` file sent with its registered MIME type is refused by the filter as written and accepted by the corrected filter |
| UploadRules.FileFilterExtends | Backend/routes/documents.js:27-37 | the corrected filter accepts everything the filter as written accepts, still requires a listed extension, and differs only on the legacy MIME types |
| UploadRules.ReceiveUpload | Backend/routes/documents.js:27-43 | with the filter as written: no file part passes through; a refused type is 500 through the global handler; a file over 10 MiB is 400; otherwise the file is stored under its timestamped name |
| UploadRules.ReceiveUploadCorrected | Backend/routes/documents.js:27-43 | the same step with the corrected filter: refused types 500, oversized files 400, the rest stored under the timestamped name |
| UploadRules.ReceiveUploadCorrectedAgrees | Backend/routes/documents.js:27-43 | the two steps give the same answer except for a legacy MIME type, and whenever the step as written succeeds |
| UploadRules.LegacyUploadAnswers | Backend/routes/documents.js:27-43 | a `.txt`, `.doc`, `.xls` or `.ppt` file within the limit, sent with its registered MIME type, is 500 as written and stored when corrected |
| UploadRules.SizeCheckRedundant | Backend/controllers/documentController.js:46-51 | a file multer accepted is never over 10 MiB, so the handler's own size check cannot fire |
| AuthController.TokenResponse | Backend/controllers/authController.js:120-143 | the response carries the signed token and the user's id, nickname, username and populated role |
| AuthController.RegisterDecision | Backend/controllers/authController.js:6-44 | registration succeeds exactly when all three fields are given, the trimmed username is free, a student role exists, the trimmed names are non-empty and the password has at least 6 UTF-16 code units; every refusal is 400 |
| AuthController.CreateUserRecord | Backend/models/User.js:6-60 | `User.create` succeeds exactly when a student role exists, the trimmed names are non-empty and the password has at least 6 UTF-16 code units; the record holds the trimmed names, the hashed password and the student role |
| AuthController.Register | Backend/controllers/authController.js:6-44 | on success exactly one user is added under the new id, a student with trimmed names and hashed password, and its token response is returned; on refusal the users are unchanged |
| AuthController.Login | Backend/controllers/authController.js:50-88 | missing fields are 400; 401 exactly when no user has the trimmed username with a matching password; success returns the token response of that user |
| AuthController.GetMe | Backend/controllers/authController.js:93-107 | the stored record of the request user without its password, or null when it is gone; no request user is 400 |
| AuthController.Logout | Backend/controllers/authController.js:112-117 | logout always answers 200 and changes nothing |
| UserController.ChooseRole | Backend/controllers/userController.js:57-69 | a requested role is looked up case-insensitively and must exist (400 otherwise); no request keeps the current role |
| UserController.MergedUser | Backend/controllers/userController.js:49-52 | each given field replaces the stored one, trimmed; a given password is hashed; the role is left to the role lookup |
| UserController.WriteCheck | Backend/models/User.js:7-23 | the update validators on the paths the update sets: non-empty names, a password of at least 6 code units only when a password is sent (and then it is the hash that is measured), and a username no other user holds; any failure is 400 |
| UserController.UserUpdateDecision | Backend/controllers/userController.js:29-95 | 404 for a missing user, 403 for an admin, 400 for an unknown role or invalid fields; a success means an existing non-admin user whose requested role exists, or whose current role resolves when none is requested |
| UserController.UpdateUser | Backend/controllers/userController.js:29-95 | on success only that user changes, to the merged fields and the chosen role, and the new record is returned without its password; on failure nothing changes |
| UserController.UpdateUserEmptyBody | Backend/controllers/userController.js:49-82 | an empty body leaves a valid non-admin user unchanged and succeeds |
| UserController.ShortPasswordAccepted | Backend/controllers/userController.js:49-82 | a one-character password is accepted on update, because `minlength` is checked on its hash |
| UserController.RoleNameIgnoresCase | Backend/controllers/userController.js:57-69 | `Admin`, `ADMIN` and `aDmIn` all name the admin role |
| UserController.UserDeleteDecision | Backend/controllers/userController.js:100-118 | deletion proceeds exactly for an existing non-admin user; missing is 404, admin is 400 |
| UserController.DeleteUser | Backend/controllers/userController.js:100-139 | on success the user, all the user's comments and all the user's documents are removed and nothing else; on refusal nothing changes |
| UserController.DeleteUserLeavesForeignComments | Backend/controllers/userController.js:121-127 | others' comments on the deleted user's documents survive, pointing at removed documents |
| SubjectController.GetSubjects | Backend/controllers/subjectController.js:8-22 | every subject listed once, in ascending name order |
| SubjectController.GetSubjectsDetermined | Backend/controllers/subjectController.js:10 | since names are unique, the name order fixes the listing completely |
| SubjectController.GetSubject | Backend/controllers/subjectController.js:27-46 | the stored subject, or 404 |
| SubjectController.PlannedSubject | Backend/controllers/subjectController.js:51-64 | creation needs a non-blank name and description, stored trimmed; otherwise 400 |
| SubjectController.CreateSubject | Backend/controllers/subjectController.js:51-64 | a valid subject with a free name is added under the new id; otherwise 400 and nothing changes |
| SubjectController.PatchSubject | Backend/controllers/subjectController.js:69-91 | given fields must be non-blank and replace the stored ones trimmed; absent fields are kept |
| SubjectController.PatchSubjectEmptyBody | Backend/controllers/subjectController.js:71-74 | an empty body changes nothing |
| SubjectController.SubjectUpdateDecision | Backend/controllers/subjectController.js:69-91 | 400 for a blank field or a taken name, 404 for a missing subject, otherwise success |
| SubjectController.UpdateSubject | Backend/controllers/subjectController.js:69-91 | on success only that subject changes, to the patched value; on failure nothing changes |
| SubjectController.DeleteSubject | Backend/controllers/subjectController.js:96-129 | 404 for a missing subject; otherwise the subject, its documents and the comments on those documents are removed, and nothing else |
| SubjectController.SubjectCascadeScope | Backend/controllers/subjectController.js:107-117 | after the cascade, no surviving comment points at a removed document, and documents of other subjects with their comments are kept |
| DocumentQuery.QueryString | Backend/controllers/documentController.js:298-299 | `String(v)`: a string is itself, an array its items joined by commas |
| DocumentQuery.Cleaned | Backend/controllers/documentController.js:224-235 | drops `select`, `sort`, `page`, `limit` and blank values and keeps the rest unchanged; 400 exactly when a remaining value is an array or an object, on which `trim` throws |
| DocumentQuery.CleanQuery | Backend/controllers/documentController.js:224-235 | the two loops compute exactly the cleaned query |
| DocumentQuery.CleanedFrom | Backend/controllers/documentController.js:227-235 | the cleaned query is the query minus the paging keys minus the blank values |
| DocumentQuery.Rewrite | Backend/controllers/documentController.js:243-244 | the `\b(gt\|gte\|lt\|lte\|in)\b` replacement over JSON string text: whole operator words get a `$`; a word right after a control character is glued to its escape and kept |
| DocumentQuery.RestoreRewrite | Backend/controllers/documentController.js:243-244 | the operator rewriting is undone by removing the inserted `$` |
| DocumentQuery.RewriteInjective | Backend/controllers/documentController.js:243-244 | distinct query strings stay distinct after rewriting |
| DocumentQuery.RewriteLeadingOperator | Backend/controllers/documentController.js:244 | a whole word `gt`, `gte`, `lt`, `lte` or `in` gets a `$` in front |
| DocumentQuery.RewriteNoLeadingOperator | Backend/controllers/documentController.js:244 | after rewriting, no text starts with a bare operator word |
| DocumentQuery.RewriteAfterControl | Backend/controllers/documentController.js:243-244 | a word after a control character (such as `\nin`) is kept as it is |
| DocumentQuery.MatchHere | Backend/controllers/documentController.js:238-240 | the case-insensitive pattern at the start of the text, with `$` as the end anchor |
| DocumentQuery.Search | Backend/controllers/documentController.js:238-240 | the unanchored `$regex` search: the pattern matches at some position |
| DocumentQuery.MatchHereLiteral | Backend/controllers/documentController.js:238-240 | a title pattern without `$` matches case-insensitively, letter by letter |
| DocumentQuery.TitleSearchForOperatorWord | Backend/controllers/documentController.js:238-244 | a title search opening with `in`, `gt` and the like is rewritten to `$in`..., which, trimmed by the setter, matches no title |
| DocumentQuery.BaseFilter | Backend/controllers/documentController.js:238-247 | the filter is one equality per rewritten key and value, with the title as its rewritten and trimmed case-insensitive pattern; a key rewritten to `$comment` adds nothing; 400 exactly when a key is rewritten to any other top-level operator |
| DocumentQuery.CommentOperatorKept | Backend/controllers/documentController.js:243-247 | `$comment` is left alone by the rewrite, so it is accepted and not refused |
| DocumentQuery.CommentKeyAddsNothing | Backend/controllers/documentController.js:243-247 | adding `?$comment=...` to an accepted query leaves the filter unchanged |
| DocumentQuery.FieldText | Backend/models/Document.js:4-54 | the text a key addresses: defined exactly on the string and ObjectId paths; `_id` is the document's id |
| DocumentQuery.FieldNumber | Backend/models/Document.js:29-35 | the number a key addresses: defined exactly on `fileSize`, `downloadCount` and `__v`, which is always 0 |
| DocumentQuery.Holds | Backend/controllers/documentController.js:247-280 | a document meets an equality when the string path equals the text, or the Number path equals the number the cast reads; a title pattern when it searches the title |
| DocumentQuery.DownloadCountFilter | Backend/controllers/documentController.js:244-247 | `?downloadCount=n` selects exactly the documents downloaded `n` times |
| DocumentQuery.UnknownPathMatchesNothing | Backend/controllers/documentController.js:244-247 | a key naming no schema path matches no document |
| DocumentQuery.LevelIdsByNumbers | Backend/controllers/documentController.js:12-15 | exactly the level records whose number is listed |
| DocumentQuery.VisibilityFor | Backend/controllers/documentController.js:250-277 | a gone request user is 400; a student or teacher is restricted to their shared levels and their own level-3 documents |
| DocumentQuery.Matching | Backend/controllers/documentController.js:284-304 | the stored documents that meet every condition and the visibility |
| DocumentQuery.StudentListing | Backend/controllers/documentController.js:254-262 | a student lists a document exactly when it matches the filter and is level 1, or level 3 and the student's own |
| DocumentQuery.TeacherListing | Backend/controllers/documentController.js:263-271 | a teacher lists a document exactly when it matches the filter and is level 1 or 2, or level 3 and the teacher's own |
| DocumentQuery.UnrestrictedListing | Backend/controllers/documentController.js:250-278 | an admin, a user whose role does not resolve, or no user lists every document matching the filter |
| DocumentQuery.RestrictedListingExcludes | Backend/controllers/documentController.js:254-277 | a student never lists a level-2 document, and nobody restricted lists another's level-3 document or one whose level does not resolve |
| DocumentQuery.PagingNumber | Backend/controllers/documentController.js:298-299 | `parseInt(String(v), 10) || d`: the parsed number when it is non-zero, the default when absent, NaN or 0; an object is NaN |
| DocumentQuery.ObjectIsNaN | Backend/controllers/documentController.js:298-299 | `parseInt("[object Object]")` is NaN |
| DocumentQuery.PagingNumberFirstItem | Backend/controllers/documentController.js:298-299 | a repeated key such as `?page=3&page=4` gives its first value |
| DocumentQuery.PageLinks | Backend/controllers/documentController.js:309-322 | `next` exactly when `page * limit < total`, `prev` exactly when `(page - 1) * limit > 0` |
| DocumentQuery.PageLinksMeaning | Backend/controllers/documentController.js:309-322 | for positive page and limit: `next` exactly when documents remain after this page, `prev` exactly when the page is past the first |
| DocumentQuery.Window | Backend/controllers/documentController.js:300-304 | skip then limit: the consecutive run of at most `|limit|` items from the start index |
| DocumentQuery.WindowOfNewest | Backend/controllers/documentController.js:294-304 | a window of the newest-first order holds distinct matching documents, still newest first |
| DocumentQuery.PageOf | Backend/controllers/documentController.js:294-329 | a negative skip is 400; otherwise the page holds distinct matching documents, newest first, as many as the window allows, with the total and the links |
| DocumentQuery.ListDocuments | Backend/controllers/documentController.js:221-336 | every failure is 400, and an array or object `select` or `sort` always fails; a success has a valid query and filter, reports the total number of visible matching documents and shows only such documents, at most `\|limit\|` of them; when the query, the filter and the visibility all succeed and `select`/`sort` are plain strings, the answer is exactly the page `PageOf` cuts from the visible matching documents with the parsed `page` (default 1) and `limit` (default 10) |
| DocumentController.StudentLevelCheck | Backend/controllers/documentController.js:57-75 | a student's level must name a level record numbered 1 or 3; otherwise 400 |
| DocumentController.MayModify | Backend/controllers/documentController.js:127-132 | the update and delete right, checked again at lines 188-193: the caller owns the document or is an admin |
| DocumentController.PlannedUpload | Backend/controllers/documentController.js:39-108 | no file or an oversized file is 400; the created document belongs to the caller, carries the caller's nickname, the stored file's name, type and size, and 0 downloads |
| DocumentController.StudentUploadLevel | Backend/controllers/documentController.js:57-75 | an upload by a student succeeds only at level 1 or 3 |
| DocumentController.StudentUploadAccepted | Backend/controllers/documentController.js:57-89 | a student's upload at level 1 or 3 within the size limit is exactly what the schema makes of it |
| DocumentController.NonStudentUploadAnyLevel | Backend/controllers/documentController.js:57-89 | for a teacher or admin the level is not checked beyond the schema |
| DocumentController.UploadDocument | Backend/controllers/documentController.js:39-108 | the planned document is added under the new id, or nothing changes and the error is returned |
| DocumentController.StudentSeesOwnUpload | Backend/controllers/documentController.js:57-75 | a student's accepted upload is visible to that student in the listing |
| DocumentController.MergeUpdate | Backend/controllers/documentController.js:148-158 | title, description, level and subject are replaced by given values (title trimmed); everything else is kept; for a valid document the update succeeds exactly when the new title is 1..100 code units and the description at most 500 |
| DocumentController.MergeUpdateEmptyBody | Backend/controllers/documentController.js:148-153 | an empty body leaves a valid document unchanged |
| DocumentController.PlannedUpdate | Backend/controllers/documentController.js:113-170 | 404 for a missing document; 400 for a missing caller; 401 exactly when the caller is neither the owner nor an admin; a student setting a level that is not 1 or 3 is 400; otherwise the result is the merged update |
| DocumentController.UpdateRightWithoutVisibility | Backend/controllers/documentController.js:127-132 | a student who owns a level-2 document may update it although the listing never shows it to them |
| DocumentController.UpdateDocument | Backend/controllers/documentController.js:113-170 | on success only that document changes, to the merged value; on failure nothing changes |
| DocumentController.DeleteDecision | Backend/controllers/documentController.js:175-193 | 404 for a missing document; deletion exactly for the owner or an admin; others 401 |
| DocumentController.DeleteDocument | Backend/controllers/documentController.js:175-216 | on success the document and all comments on it are removed and nothing else; otherwise nothing changes |
| DocumentController.GetDocument | Backend/controllers/documentController.js:341-362 | the stored document, or 404, with no visibility check |
| DocumentController.UncheckedFetch | Backend/controllers/documentController.js:341-362 | a student can fetch by id another user's level-3 document that the listing hides |
| DocumentController.DownloadDecision | Backend/controllers/documentController.js:367-397 | 404 for a missing document or file, 400 for a path outside `uploads/`, otherwise the download proceeds |
| DocumentController.WithDownload | Backend/controllers/documentController.js:399 | a download adds exactly one to the count and keeps the document valid |
| DocumentController.DownloadDocument | Backend/controllers/documentController.js:367-409 | a proceeding download increments that document's count and changes nothing else |
| DocumentController.GetMyDocuments | Backend/controllers/documentController.js:414-434 | an admin gets every document, anyone else exactly their own |
| DocumentController.MyDocumentsAreModifiable | Backend/controllers/documentController.js:414-434 | for a non-admin, "my documents" are exactly the documents they may update or delete |
| CommentController.CommentsOn | Backend/controllers/commentController.js:15-17 | exactly the comments on the given document |
| CommentController.CommentsOnAny | Backend/controllers/commentController.js:15-17 | exactly the comments on one of the given documents (an array value cast to `$in`) |
| CommentController.Named | Backend/controllers/commentController.js:15 | a string names its one document, an array every item |
| CommentController.GetComments | Backend/controllers/commentController.js:8-23 | a missing or empty document id is 400; an object value is 500; otherwise every comment on the named documents once, newest first |
| CommentController.GetCommentsOfOne | Backend/controllers/commentController.js:8-23 | a plain non-empty document id lists exactly the comments on that document |
| CommentController.GetCommentsOfTwo | Backend/controllers/commentController.js:8-23 | a repeated `documentId` key lists the union of the comments on either document |
| CommentController.PlannedComment | Backend/controllers/commentController.js:31-53 | document and content are required (400); no request user is 500; the comment records the caller and the time |
| CommentController.CommentOnAnyDocument | Backend/controllers/commentController.js:39-44 | a comment is accepted on a document id that names no document |
| CommentController.CreateComment | Backend/controllers/commentController.js:31-53 | the planned comment is added under the new id, or nothing changes |
| CommentController.CommentUpdateDecision | Backend/controllers/commentController.js:60-80 | no content is 400, a missing comment 404; success exactly for the comment's author; another user is 403; a null request user (a valid token whose user is gone) is 500 |
| CommentController.Edited | Backend/controllers/commentController.js:79-80 | the edit sets the content and keeps document, author and creation time; `updatedAt` is refreshed only when the content changes, and the same text saves the comment untouched |
| CommentController.EditedIdempotent | Backend/controllers/commentController.js:79-80 | saving the same edit again later changes nothing |
| CommentController.UpdateComment | Backend/controllers/commentController.js:60-89 | on success only that comment changes, to the edited value; otherwise nothing changes |
| CommentController.CommentDeleteDecision | Backend/controllers/commentController.js:96-107 | a missing comment is 404; deletion exactly for the author; another user is 403; a null request user is 500 |
| CommentController.DeleteComment | Backend/controllers/commentController.js:96-115 | on success exactly that comment is removed; otherwise nothing changes |
| CommentController.NoAdminOverride | Backend/controllers/commentController.js:69-77 | an admin can neither edit nor delete another user's comment |
| Stats.GroupCounts | Backend/controllers/statsController.js:16-22 | one entry per subject some document uses, holding the number of its documents |
| Stats.TopGroups | Backend/controllers/statsController.js:16-25 | at most 5 distinct used subjects in non-increasing count order; an unlisted subject means 5 were listed and it has no more documents than the last |
| Stats.Label | Backend/controllers/statsController.js:34-37 | the subject's name, or the placeholder when the subject is gone or its name is empty |
| Stats.SumDownloads | Backend/controllers/statsController.js:40-48 | the total downloads; 0 for no documents |
| Stats.SumDownloadsRemove | Backend/controllers/statsController.js:40-48 | the total downloads split as one document's count plus the rest |
| Stats.SumDownloadsAddOne | Backend/controllers/statsController.js:40-48 | one download adds exactly one to the total |
| Stats.BySubject | Backend/controllers/statsController.js:16-37 | at most five entries, one per top subject, with its label and its number of documents |
| Stats.BySubjectOrdered | Backend/controllers/statsController.js:16-37 | the per-subject entries have non-increasing counts, each at least 1 |
| Stats.BySubjectIsTop | Backend/controllers/statsController.js:16-37 | a used subject left out of the entries has no more documents than the fifth entry |
| Stats.GetStats | Backend/controllers/statsController.js:8-81 | the report holds the three totals, the top subjects, the total downloads (0 for no documents), and the fixed zeros and empty list |

## Left out

- Express and HTTP mechanics: body parsing (body fields are strings here; see the AuthController.Login line below), CORS, cookies, trailing slashes and `HEAD` requests. The cookie options built in `sendTokenResponse` are never sent, so they have no effect.
- `Backend/Server.js`: only the route mounts and the global error handler are modelled. Start-up and the database connection are not.
- The feedback and stats routers and their guards are not part of this model. `getStats` is modelled as a function of the stored data.
- `getDocumentLevels` and `getUsers`: plain listings of a whole collection. They are reachable through the route tables but their handlers are not modelled.
- bcrypt, JWT signing and verification: passed in as functions. Token expiry is part of `verify`.
- The file system: `fs.unlink` has no modelled effect. The file's location and existence are parameters of `DocumentController.DownloadDecision`. The bytes are not modelled.
- Time: `Date.now()` is a parameter. The "last week" figures are the constants 0 that the source returns.
- Concurrency: the username and subject-name checks and the writes after them are not atomic in the source. The model runs each handler alone.
- ObjectId casting: ids are plain strings, and a malformed id is treated like an id naming no record. In the source it throws a cast error instead:
  - the `catch` of the document, subject, user and auth handlers answers it with 400, where the model answers 404;
  - the `catch` of the comment handlers answers it with 500 (Backend/controllers/commentController.js:19-21, 49-51, 85-87, 111-113);
  - in `createComment` a malformed document id fails the `save` with a cast error, so 500, where the model accepts it (CommentController.CommentOnAnyDocument covers only well-formed ids naming no document);
  - in a listing filter on an ObjectId path a malformed value gives 400, where the model matches no document.
- Mongoose behaviour the model assumes:
  - `trim` setters also apply to query values, including the title's `$regex` pattern;
  - `strictQuery` is off (the Mongoose 7 default): a filter key that names no schema path is sent to MongoDB as it is and matches nothing; under Mongoose 6, whose default is on, the key would be dropped from the filter instead;
  - update validators run only on the paths the update sets;
  - the timestamps plugin refreshes `updatedAt` only when a save modifies the document;
  - update validators run before the record lookup;
  - `required` refuses the empty string;
  - `unique` is enforced as a store invariant rather than by an index.
- Case folding is ASCII only: `toLowerCase` on non-ASCII letters is the identity here.
- `parseInt` is unbounded: JavaScript's double precision is not modelled.
- DocumentQuery.Holds: a value on a Number path is read only as a plain decimal integer. `Number`'s other syntaxes (`1.0`, `1e1`, `0x10`, a blank value) and the cast error (400) on a value that is not a number are not modelled; such a value matches nothing here.
- DocumentQuery.FieldText: `createdAt` is a Date; a filter on it is not modelled and matches nothing here.
- DocumentQuery.BaseFilter: a key rewritten to `$where` or `$expr` is refused here; MongoDB would evaluate the string as a JavaScript or aggregation expression, which is not modelled. Other top-level operators with a string operand are refused by MongoDB too.
- DocumentQuery.Cleaned: an array value is refused whatever its items. The query parser's limit of 20 array items (beyond which it builds an object) is not modelled.
- DocumentQuery.MatchHere: the title is searched as a regular expression with `$options: 'i'`, and only its `$` anchor is interpreted; every other character is matched literally. Two differences follow. First, a pattern MongoDB cannot compile, such as `?title=(`, is a regex error that the listing's `catch` answers with 400, while here the listing succeeds and matches the character literally. Second, case is folded for ASCII letters only (`Strings.LowerChar`), while MongoDB's `i` option also folds non-ASCII letters: `?title=TOÁN` finds a title "Toán" in the source and not here.
- DocumentQuery.Search: inherits both differences of `DocumentQuery.MatchHere`, the invalid-pattern 400 and the ASCII-only case folding, at every starting position.
- DocumentQuery.MatchHereLiteral: its letter-by-letter case-insensitive match folds ASCII letters only; non-ASCII letters that MongoDB folds (`Á` and `á`) are different letters here.
- AuthController.Login, AuthController.RegisterDecision: body fields are modelled as strings, but `express.json()` (Backend/Server.js:19) lets a field be a number, array or object. An object with operators such as `{"username": {"$ne": ""}}` turns `User.findOne({ username })` (Backend/controllers/authController.js:19 and 62) into an operator query: login then checks the password against whichever user the database returns, and registration's uniqueness lookup tests that query instead of one name. Non-string values in the other request bodies (subjects, documents, users, comments) are not modelled either.
- SubjectController.CreateSubject, SubjectController.UpdateSubject: the whole body reaches Mongoose, and the schema also has `createdAt` and the implicit `_id`. A body `createdAt` that is not a date fails the cast (400), and a valid one replaces the creation time; here such a body succeeds and the key is ignored. A body `_id` chooses the new subject's id (a taken id is a duplicate-key error, 400), where the model always stores under `newId`; on update an `_id` other than the record's own is refused by MongoDB (400).
- The `select` and `sort` query parameters: projection and custom sort orders are not modelled. Listings use the default newest-first order.
- Ordering.SortByNumberDesc, Ordering.SortByTextAsc, DocumentQuery.NewestFirst: the order among equal keys is left open, as the database leaves it.
- CommentController.GetComments: an object `documentId` (`?documentId[$ne]=x`) is answered with 500 here, as the ObjectId cast does for an object without operators. An object holding operators is an operator query that MongoDB evaluates (`$ne` lists the comments on every other document); the query parser's object contents are not modelled.
- Stats.GetStats: `topUsers` is the constant empty list the source returns.
- Store.Database methods: a database error during a write (the handlers' `catch` giving 400) is not modelled.

## Findings

| source | as written | input that shows it | evidently intended | confidence | as-written member | corrected member |
|---|---|---|---|---|---|---|
| Backend/routes/documents.js:27-37 | the type pattern `pdf\|doc\|docx\|ppt\|pptx\|xls\|xlsx\|txt` is also tested against the MIME type, which for several listed extensions contains none of those words | `notes.txt` sent as `text/plain` is refused, so the upload answers 500; likewise `.doc` as `application/msword`, `.xls` as `application/vnd.ms-excel` and `.ppt` as `application/vnd.ms-powerpoint` | every listed extension is accepted with its registered MIME type | not executed | UploadRules.FileFilterAsWritten (used by UploadRules.ReceiveUpload; shown by UploadRules.LegacyTypeRefused, UploadRules.LegacyUploadAnswers) | UploadRules.FileFilter (used by UploadRules.ReceiveUploadCorrected; UploadRules.FileFilterExtends, UploadRules.ReceiveUploadCorrectedAgrees) |
