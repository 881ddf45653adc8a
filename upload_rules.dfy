/**
 * The upload rules of Backend/routes/documents.js: the name multer stores a
 * file under, the file-type filter, and the 10 MB limit, with what the global
 * error handler of Backend/Server.js answers when one of them refuses.
 *
 * The filter tests an unanchored regular expression of eight words against
 * both the lower-cased extension and the MIME type. The MIME types of plain
 * text and of the legacy Word, Excel and PowerPoint formats contain none of
 * the words, so those files are refused although their extensions are listed.
 * `FileFilterAsWritten` is that filter and `ReceiveUpload` applies it;
 * `FileFilter` also admits the four legacy MIME types, and
 * `ReceiveUploadCorrected` applies that one.
 */
module UploadRules {
  import opened Common
  import opened Strings
  import opened DocumentController

  /** A file part as multer receives it, before it is stored. */
  datatype FilePart = FilePart(originalname: string, mimetype: string, size: nat)

  // ---------------------------------------------------------------------------
  // Stored file name

  /** `${Date.now()}-${originalname.replace(/\s/g, '-')}`. */
  function StoredFilename(now: nat, originalname: string): (r: string)
    ensures |r| == |Decimal(now)| + 1 + |originalname|
    ensures r[..|Decimal(now)|] == Decimal(now) && r[|Decimal(now)|] == '-'
    ensures r[|Decimal(now)| + 1..] == DashSpaces(originalname)
    ensures forall i :: 0 <= i < |r| ==> !IsSpace(r[i])
  {
    var r := Decimal(now) + "-" + DashSpaces(originalname);
    assert forall i :: 0 <= i < |Decimal(now)| ==> IsDigit(r[i]);
    r
  }

  /** `parseInt` of a stored name gives back the upload time. */
  lemma StoredFilenameTime(now: nat, originalname: string)
    ensures ParseInt(StoredFilename(now, originalname)) == Some(now)
  {
    var rest := "-" + DashSpaces(originalname);
    assert StoredFilename(now, originalname) == Decimal(now) + rest;
    ParseIntDecimal(now, rest);
  }

  /** Whitespace is the only thing the name part changes: every other character is kept in place. */
  lemma StoredFilenameKeeps(now: nat, originalname: string, i: nat)
    requires i < |originalname| && !IsSpace(originalname[i])
    ensures StoredFilename(now, originalname)[|Decimal(now)| + 1 + i] == originalname[i]
  {
    var r := StoredFilename(now, originalname);
    assert r[|Decimal(now)| + 1..][i] == DashSpaces(originalname)[i];
  }

  // ---------------------------------------------------------------------------
  // Extension (Node's path.extname on POSIX paths)

  /** The index of the last `c` in `s`, `None` when `c` does not occur. */
  function LastIndex(s: string, c: char): (r: Option<nat>)
    ensures r.Some? ==> r.value < |s| && s[r.value] == c
    ensures r.Some? ==> forall j :: r.value < j < |s| ==> s[j] != c
    ensures r.None? ==> forall j :: 0 <= j < |s| ==> s[j] != c
  {
    if s == [] then None
    else if s[|s| - 1] == c then Some(|s| - 1)
    else LastIndex(s[..|s| - 1], c)
  }

  /** `s` without its trailing '/' characters. */
  function StripSlashes(s: string): (r: string)
    ensures |r| <= |s| && r == s[..|r|]
    ensures r == [] || r[|r| - 1] != '/'
    ensures forall j :: |r| <= j < |s| ==> s[j] == '/'
  {
    if s != [] && s[|s| - 1] == '/' then StripSlashes(s[..|s| - 1]) else s
  }

  /** The last portion of a path: after the last '/', once trailing slashes are dropped. */
  function LastPortion(p: string): (r: string)
    ensures forall j :: 0 <= j < |r| ==> r[j] != '/'
  {
    var s := StripSlashes(p);
    match LastIndex(s, '/')
    case None => s
    case Some(i) => s[i + 1..]
  }

  /**
   * `path.extname`: from the last '.' of the last portion to its end; empty
   * when there is no '.', when the only text before it is nothing (a leading
   * dot, as in ".profile"), and for "..".
   */
  function ExtName(p: string): (r: string)
    ensures r != [] ==> r[0] == '.' && forall j :: 1 <= j < |r| ==> r[j] != '.' && r[j] != '/'
  {
    var b := LastPortion(p);
    match LastIndex(b, '.')
    case None => []
    case Some(i) => if i == 0 || b == ".." then [] else b[i..]
  }

  lemma LastIndexIs(s: string, c: char, i: nat)
    requires i < |s| && s[i] == c && forall j :: i < j < |s| ==> s[j] != c
    ensures LastIndex(s, c) == Some(i)
  {
  }

  lemma LastIndexNone(s: string, c: char)
    requires forall j :: 0 <= j < |s| ==> s[j] != c
    ensures LastIndex(s, c) == None
  {
  }

  /** For a plain file name "stem.ext" with a non-empty stem, the extension is ".ext". */
  lemma ExtNameOfFileName(stem: string, ext: string)
    requires stem != [] && ext != [] && ext[|ext| - 1] != '/'
    requires forall j :: 0 <= j < |stem| ==> stem[j] != '/'
    requires forall j :: 0 <= j < |ext| ==> ext[j] != '.' && ext[j] != '/'
    ensures ExtName(stem + "." + ext) == "." + ext
  {
    var p := stem + "." + ext;
    assert p[|stem|] == '.' && p[|p| - 1] == ext[|ext| - 1];
    assert forall j :: |stem| < j < |p| ==> p[j] == ext[j - |stem| - 1];
    assert forall j :: 0 <= j < |stem| ==> p[j] == stem[j];
    assert StripSlashes(p) == p;
    LastIndexNone(p, '/');
    assert LastPortion(p) == p;
    LastIndexIs(p, '.', |stem|);
    assert p != ".." by {
      assert |p| >= 3;
    }
    assert p[|stem|..] == "." + ext;
  }

  /** A leading dot is no extension: ".profile" has none. */
  lemma ExtNameLeadingDot(name: string)
    requires forall j :: 0 <= j < |name| ==> name[j] != '.' && name[j] != '/'
    ensures ExtName("." + name) == []
  {
    var p := "." + name;
    if p[|p| - 1] == '/' {
      assert false;
    }
    assert StripSlashes(p) == p;
    LastIndexNone(p, '/');
    LastIndexIs(p, '.', 0);
  }

  // ---------------------------------------------------------------------------
  // File-type filter

  /** `w` occurs in `s` at index `i`. */
  predicate OccursAt(s: string, w: string, i: int)
  {
    0 <= i && i + |w| <= |s| && s[i..i + |w|] == w
  }

  /** `w` occurs somewhere in `s`. */
  predicate Contains(s: string, w: string)
  {
    exists i :: 0 <= i <= |s| - |w| && OccursAt(s, w, i)
  }

  /** The unanchored `/pdf|doc|docx|ppt|pptx|xls|xlsx|txt/.test(s)`: some word of the alternation occurs in `s`. */
  predicate MatchesFileTypes(s: string)
  {
    || Contains(s, "pdf") || Contains(s, "doc") || Contains(s, "docx") || Contains(s, "ppt")
    || Contains(s, "pptx") || Contains(s, "xls") || Contains(s, "xlsx") || Contains(s, "txt")
  }

  /** `fileFilter` as written: the lower-cased extension and the raw MIME type must both match. */
  predicate FileFilterAsWritten(originalname: string, mimetype: string)
  {
    MatchesFileTypes(ToLower(ExtName(originalname))) && MatchesFileTypes(mimetype)
  }

  /** The MIME types of the four legacy formats whose extensions the alternation names. */
  const LegacyMimeTypes: set<string> := {
    "text/plain", "application/msword", "application/vnd.ms-excel", "application/vnd.ms-powerpoint"
  }

  /** The filter as evidently intended: the listed extensions with their registered MIME types, legacy ones included. */
  predicate FileFilter(originalname: string, mimetype: string)
  {
    MatchesFileTypes(ToLower(ExtName(originalname))) && (MatchesFileTypes(mimetype) || mimetype in LegacyMimeTypes)
  }

  /** `w` does not occur in `s` when no position of `s` starts with the first three characters of `w`. */
  lemma NotContains(s: string, w: string)
    requires |w| >= 3
    requires forall i :: 0 <= i < |s| - 2 ==> s[i] != w[0] || s[i + 1] != w[1] || s[i + 2] != w[2]
    ensures !Contains(s, w)
  {
    if Contains(s, w) {
      var i :| 0 <= i <= |s| - |w| && OccursAt(s, w, i);
      assert w[0] == s[i] && w[1] == s[i + 1] && w[2] == s[i + 2] by {
        assert s[i..i + |w|] == w;
      }
      assert false;
    }
  }

  /** No word of the alternation occurs in a text where no "pd", "ppt", "do", "xl" or "tx" starts before its last two characters. */
  lemma NoFileTypeWord(s: string)
    requires forall i :: 0 <= i < |s| - 2 ==>
      && (s[i] == 'p' ==> s[i + 1] != 'd' && (s[i + 1] == 'p' ==> s[i + 2] != 't'))
      && (s[i] == 'd' ==> s[i + 1] != 'o')
      && (s[i] == 'x' ==> s[i + 1] != 'l')
      && (s[i] == 't' ==> s[i + 1] != 'x')
    ensures !MatchesFileTypes(s)
  {
    NotContains(s, "pdf");
    NotContains(s, "doc");
    NotContains(s, "docx");
    NotContains(s, "ppt");
    NotContains(s, "pptx");
    NotContains(s, "xls");
    NotContains(s, "xlsx");
    NotContains(s, "txt");
  }

  /** No word of the alternation occurs in "text/plain" or "application/msword". */
  lemma TextAndWordMimeUnmatched()
    ensures !MatchesFileTypes("text/plain")
    ensures !MatchesFileTypes("application/msword")
  {
    NoFileTypeWord("text/plain");
    NoFileTypeWord("application/msword");
  }

  /** Nor in "application/vnd.ms-excel". */
  lemma ExcelMimeUnmatched()
    ensures !MatchesFileTypes("application/vnd.ms-excel")
  {
    NoFileTypeWord("application/vnd.ms-excel");
  }

  /** Nor in "application/vnd.ms-powerpoint". */
  lemma PowerPointMimeUnmatched()
    ensures !MatchesFileTypes("application/vnd.ms-powerpoint")
  {
    NoFileTypeWord("application/vnd.ms-powerpoint");
  }

  /** No word of the alternation occurs in any of the legacy MIME types. */
  lemma LegacyMimeTypeUnmatched(m: string)
    requires m in LegacyMimeTypes
    ensures !MatchesFileTypes(m)
  {
    TextAndWordMimeUnmatched();
    ExcelMimeUnmatched();
    PowerPointMimeUnmatched();
  }

  /** The extension of a plain "stem.ext" name with a lower-case `ext` is ".ext", already lower-case. */
  lemma LowerExtension(stem: string, ext: string)
    requires stem != [] && forall j :: 0 <= j < |stem| ==> stem[j] != '/'
    requires ext != [] && forall j :: 0 <= j < |ext| ==> 'a' <= ext[j] <= 'z'
    ensures ToLower(ExtName(stem + "." + ext)) == "." + ext
  {
    ExtNameOfFileName(stem, ext);
    LowerCaseFixed("." + ext);
  }

  /** So a lower-case `ext` occurs in the lower-cased extension of "stem.ext". */
  lemma ExtensionContains(stem: string, ext: string)
    requires stem != [] && forall j :: 0 <= j < |stem| ==> stem[j] != '/'
    requires ext != [] && forall j :: 0 <= j < |ext| ==> 'a' <= ext[j] <= 'z'
    ensures Contains(ToLower(ExtName(stem + "." + ext)), ext)
  {
    LowerExtension(stem, ext);
    DotContains(ext);
  }

  /** `ext` occurs in ".ext", right after the dot. */
  lemma DotContains(ext: string)
    ensures Contains("." + ext, ext)
  {
    assert OccursAt("." + ext, ext, 1) by {
      assert ("." + ext)[1..1 + |ext|] == ext;
    }
  }

  /** The lower-cased extension of "stem" + `dotted`, where `dotted` is "." and a word of the alternation, matches. */
  lemma ListedExtensionMatches(stem: string, dotted: string, word: string)
    requires stem != [] && forall j :: 0 <= j < |stem| ==> stem[j] != '/'
    requires word in {"pdf", "doc", "docx", "ppt", "pptx", "xls", "xlsx", "txt"} && dotted == "." + word
    requires forall j :: 0 <= j < |word| ==> 'a' <= word[j] <= 'z'
    ensures MatchesFileTypes(ToLower(ExtName(stem + dotted)))
  {
    assert stem + dotted == stem + "." + word;
    var e := ToLower(ExtName(stem + dotted));
    assert Contains(e, word) by {
      ExtensionContains(stem, word);
    }
  }

  /** Each legacy MIME type beside the listed extension its files carry. */
  predicate LegacyPair(ext: string, mimetype: string)
  {
    || (ext == "txt" && mimetype == "text/plain")
    || (ext == "doc" && mimetype == "application/msword")
    || (ext == "xls" && mimetype == "application/vnd.ms-excel")
    || (ext == "ppt" && mimetype == "application/vnd.ms-powerpoint")
  }

  /**
   * A plain-text, Word 97, Excel 97 or PowerPoint 97 file, sent with its
   * registered MIME type, is refused by the filter as written although its
   * extension is listed; the corrected filter accepts it.
   */
  lemma LegacyTypeRefused(stem: string, ext: string, mimetype: string)
    requires stem != [] && forall j :: 0 <= j < |stem| ==> stem[j] != '/'
    requires LegacyPair(ext, mimetype)
    ensures !FileFilterAsWritten(stem + "." + ext, mimetype)
    ensures FileFilter(stem + "." + ext, mimetype)
  {
    LegacyPairListed(ext, mimetype);
    ListedExtensionMatches(stem, "." + ext, ext);
    assert stem + "." + ext == stem + ("." + ext);
    LegacyMimeTypeUnmatched(mimetype);
  }

  /** A legacy pair names a listed, lower-case extension and a legacy MIME type. */
  lemma LegacyPairListed(ext: string, mimetype: string)
    requires LegacyPair(ext, mimetype)
    ensures ext in {"pdf", "doc", "docx", "ppt", "pptx", "xls", "xlsx", "txt"}
    ensures forall j :: 0 <= j < |ext| ==> 'a' <= ext[j] <= 'z'
    ensures mimetype in LegacyMimeTypes
  {
  }

  /** The corrected filter refuses nothing the written one accepts, and still demands a listed extension. */
  lemma FileFilterExtends(originalname: string, mimetype: string)
    ensures FileFilterAsWritten(originalname, mimetype) ==> FileFilter(originalname, mimetype)
    ensures FileFilter(originalname, mimetype) ==> MatchesFileTypes(ToLower(ExtName(originalname)))
    ensures FileFilter(originalname, mimetype) && mimetype !in LegacyMimeTypes ==> FileFilterAsWritten(originalname, mimetype)
  {
  }

  /** A PDF, sent as "application/pdf", passes the filter as written. */
  lemma PdfAccepted(stem: string)
    requires stem != [] && forall j :: 0 <= j < |stem| ==> stem[j] != '/'
    ensures FileFilterAsWritten(stem + ".pdf", "application/pdf")
  {
    ListedExtensionMatches(stem, ".pdf", "pdf");
    PdfMimeMatches();
  }

  /** "application/pdf" matches the alternation. */
  lemma PdfMimeMatches()
    ensures MatchesFileTypes("application/pdf")
  {
    assert OccursAt("application/pdf", "pdf", 12);
  }

  // ---------------------------------------------------------------------------
  // The multer step

  /**
   * `upload.single('file')` with the filter as written: no file part leaves
   * `req.file` unset; a part the filter refuses reaches the global error
   * handler as a plain error (500); one over the size limit raises a
   * MulterError (400); otherwise the file is stored under its timestamped name.
   */
  function ReceiveUpload(part: Option<FilePart>, now: nat): (r: Result<Option<UploadedFile>>)
    ensures part.None? ==> r == Success(None)
    ensures part.Some? && !FileFilterAsWritten(part.value.originalname, part.value.mimetype) ==> r == Failure(ServerError)
    ensures part.Some? && FileFilterAsWritten(part.value.originalname, part.value.mimetype) && part.value.size > MaxUploadBytes ==>
      r == Failure(Invalid)
    ensures r.Success? && r.value.Some? ==>
      && part.Some? && FileFilterAsWritten(part.value.originalname, part.value.mimetype)
      && r.value.value.size == part.value.size <= MaxUploadBytes
      && r.value.value.mimetype == part.value.mimetype
      && r.value.value.filename == StoredFilename(now, part.value.originalname)
  {
    match part
    case None => Success(None)
    case Some(p) =>
      if !FileFilterAsWritten(p.originalname, p.mimetype) then Failure(ServerError)
      else if p.size > MaxUploadBytes then Failure(Invalid)
      else Success(Some(UploadedFile(StoredFilename(now, p.originalname), p.mimetype, p.size)))
  }

  /** The multer step with the corrected filter; the same answers otherwise. */
  function ReceiveUploadCorrected(part: Option<FilePart>, now: nat): (r: Result<Option<UploadedFile>>)
    ensures part.None? ==> r == Success(None)
    ensures part.Some? && !FileFilter(part.value.originalname, part.value.mimetype) ==> r == Failure(ServerError)
    ensures part.Some? && FileFilter(part.value.originalname, part.value.mimetype) && part.value.size > MaxUploadBytes ==>
      r == Failure(Invalid)
    ensures r.Success? && r.value.Some? ==>
      && part.Some? && FileFilter(part.value.originalname, part.value.mimetype)
      && r.value.value.size == part.value.size <= MaxUploadBytes
      && r.value.value.mimetype == part.value.mimetype
      && r.value.value.filename == StoredFilename(now, part.value.originalname)
  {
    match part
    case None => Success(None)
    case Some(p) =>
      if !FileFilter(p.originalname, p.mimetype) then Failure(ServerError)
      else if p.size > MaxUploadBytes then Failure(Invalid)
      else Success(Some(UploadedFile(StoredFilename(now, p.originalname), p.mimetype, p.size)))
  }

  /**
   * The two multer steps answer alike except on a legacy MIME type, where the
   * written filter's 500 becomes the corrected one's acceptance (or its 400
   * when the file is too large).
   */
  lemma ReceiveUploadCorrectedAgrees(part: Option<FilePart>, now: nat)
    ensures part.None? || part.value.mimetype !in LegacyMimeTypes ==>
      ReceiveUploadCorrected(part, now) == ReceiveUpload(part, now)
    ensures ReceiveUpload(part, now).Success? ==> ReceiveUploadCorrected(part, now) == ReceiveUpload(part, now)
  {
  }

  /**
   * A plain-text, Word 97, Excel 97 or PowerPoint 97 file within the limit,
   * sent with its registered MIME type: 500 as written, stored when corrected.
   */
  lemma LegacyUploadAnswers(stem: string, ext: string, mimetype: string, size: nat, now: nat)
    requires stem != [] && forall j :: 0 <= j < |stem| ==> stem[j] != '/'
    requires LegacyPair(ext, mimetype) && size <= MaxUploadBytes
    ensures ReceiveUpload(Some(FilePart(stem + "." + ext, mimetype, size)), now) == Failure(ServerError)
    ensures ReceiveUploadCorrected(Some(FilePart(stem + "." + ext, mimetype, size)), now).Success?
  {
    LegacyTypeRefused(stem, ext, mimetype);
    CorrectionAccepts(Some(FilePart(stem + "." + ext, mimetype, size)), now);
  }

  /** A part within the limit that only the corrected filter accepts: 500 as written, stored when corrected. */
  lemma CorrectionAccepts(part: Option<FilePart>, now: nat)
    requires part.Some? && part.value.size <= MaxUploadBytes
    requires !FileFilterAsWritten(part.value.originalname, part.value.mimetype)
    requires FileFilter(part.value.originalname, part.value.mimetype)
    ensures ReceiveUpload(part, now) == Failure(ServerError)
    ensures ReceiveUploadCorrected(part, now).Success?
  {
  }

  /** Whatever multer lets through is within the limit, so the handler's own size check never refuses it. */
  lemma SizeCheckRedundant(part: Option<FilePart>, now: nat)
    requires ReceiveUpload(part, now).Success? && ReceiveUpload(part, now).value.Some?
    ensures !(ReceiveUpload(part, now).value.value.size > MaxUploadBytes)
  {
  }
}
