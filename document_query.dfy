/**
 * The document listing of Backend/controllers/documentController.js
 * (`getDocuments` and its helper `getDocumentLevelIdsByNumbers`): the query
 * string is cleaned, turned into a MongoDB filter, conjoined with a
 * role-dependent visibility condition and cut into pages.
 *
 * The filter is given its meaning directly, as a predicate over stored
 * documents, and the listing as the set of documents satisfying it.
 */
module DocumentQuery {
  import opened Common
  import opened Strings
  import opened Ordering
  import opened Models
  import opened Store

  /**
   * A query-string value as the query parser builds it: a plain string, an
   * array of strings from a repeated key (`?page=3&page=4`), or an object
   * from a bracketed key (`?page[a]=3`).
   */
  datatype QueryValue = Text(text: string) | List(items: seq<string>) | Nested

  /** `String(v)`: an array joins its items with commas, an object prints as "[object Object]". */
  function QueryString(v: QueryValue): (r: string)
    ensures v.Text? ==> r == v.text
    ensures v.List? ==> r == Join(v.items, ",")
  {
    match v
    case Text(s) => s
    case List(items) => Join(items, ",")
    case Nested => "[object Object]"
  }

  // ---------------------------------------------------------------------------
  // Cleaning the query

  /** The keys removed before filtering; they steer projection, order and paging instead. */
  const PagingKeys: seq<string> := ["select", "sort", "page", "limit"]

  predicate IsPagingKey(k: string)
  {
    k == "select" || k == "sort" || k == "page" || k == "limit"
  }

  /**
   * The query with the paging keys removed and the blank values dropped.
   * A remaining value that is not a string (an array or an object) makes
   * `.trim()` throw, which the handler answers with 400.
   */
  function Cleaned(query: map<string, QueryValue>): (r: Result<map<string, string>>)
    ensures r.Failure? <==> exists k :: k in query && !IsPagingKey(k) && !query[k].Text?
    ensures r.Failure? ==> r.error == Invalid
    ensures r.Success? ==> forall k :: k in r.value <==>
      k in query && !IsPagingKey(k) && query[k].Text? && !IsBlank(query[k].text)
    ensures r.Success? ==> forall k :: k in r.value ==> query[k] == Text(r.value[k])
  {
    if exists k :: k in query && !IsPagingKey(k) && !query[k].Text? then Failure(Invalid)
    else Success(map k | k in query && !IsPagingKey(k) && query[k].Text? && !IsBlank(query[k].text) :: query[k].text)
  }

  /** The two `forEach`/`delete` passes over the copied query, in place. */
  method CleanQuery(query: map<string, QueryValue>) returns (r: Result<map<string, string>>)
    ensures r == Cleaned(query)
  {
    var reqQuery := query;
    var i := 0;
    while i < |PagingKeys|
      invariant 0 <= i <= |PagingKeys|
      invariant forall k :: k in reqQuery <==> k in query && k !in PagingKeys[..i]
      invariant forall k :: k in reqQuery ==> reqQuery[k] == query[k]
    {
      assert PagingKeys[..i + 1] == PagingKeys[..i] + [PagingKeys[i]];
      reqQuery := reqQuery - {PagingKeys[i]};
      i := i + 1;
    }
    assert PagingKeys[..i] == ["select", "sort", "page", "limit"];
    ghost var stripped := reqQuery;
    var keys := reqQuery.Keys;
    while keys != {}
      invariant keys <= stripped.Keys
      invariant forall k :: k in stripped && k !in keys ==> stripped[k].Text?
      invariant forall k :: k in reqQuery <==> k in stripped && (k in keys || !IsBlank(stripped[k].text))
      invariant forall k :: k in reqQuery ==> reqQuery[k] == stripped[k]
      decreases |keys|
    {
      var k :| k in keys;
      match reqQuery[k]
      case Text(v) =>
        if IsBlank(v) {
          reqQuery := reqQuery - {k};
        }
        keys := keys - {k};
      case _ =>
        assert k in query && !IsPagingKey(k) && !query[k].Text?;
        return Failure(Invalid);
    }
    CleanedFrom(query, stripped, reqQuery);
    r := Success(map k | k in reqQuery :: reqQuery[k].text);
  }

  /** When every value left after the paging keys is a string, the blank-free rest is the cleaned query. */
  lemma CleanedFrom(query: map<string, QueryValue>, stripped: map<string, QueryValue>, kept: map<string, QueryValue>)
    requires forall k :: k in stripped <==> k in query && !IsPagingKey(k)
    requires forall k :: k in stripped ==> stripped[k] == query[k] && stripped[k].Text?
    requires forall k :: k in kept <==> k in stripped && !IsBlank(stripped[k].text)
    requires forall k :: k in kept ==> kept[k] == stripped[k]
    ensures Cleaned(query) == Success(map k | k in kept :: kept[k].text)
  {
    var m := map k | k in kept :: kept[k].text;
    assert Cleaned(query).Success?;
    assert Cleaned(query).value == m;
  }

  // ---------------------------------------------------------------------------
  // Operator words

  /** A character of the `\w` class (ASCII letters, digits and `_`). */
  predicate IsWordChar(c: char)
  {
    ('a' <= c <= 'z') || ('A' <= c <= 'Z') || ('0' <= c <= '9') || c == '_'
  }

  /** Length of the word that starts `s`. */
  function WordLen(s: string): (n: nat)
    ensures n <= |s|
    ensures forall i :: 0 <= i < n ==> IsWordChar(s[i])
    ensures n < |s| ==> !IsWordChar(s[n])
  {
    if s != [] && IsWordChar(s[0]) then 1 + WordLen(s[1..]) else 0
  }

  const Operators: set<string> := {"gt", "gte", "lt", "lte", "in"}

  /**
   * A control character, which `JSON.stringify` writes as an escape ending in
   * word characters (`\n`, `\t`, `\u001f`, ...): the word after it is glued to
   * the escape, so no word boundary separates them.
   */
  predicate IsControl(c: char)
  {
    c < ' '
  }

  /**
   * `replace(/\b(gt|gte|lt|lte|in)\b/g, m => '$' + m)` on the text of one
   * JSON string: every whole word that is an operator name gets a `$` in
   * front; a word right after a control character joins that character's
   * escape (which starts with b, f, n, r, t or u, as no operator does) and is
   * kept; other words and characters stay.
   */
  function Rewrite(s: string): string
    decreases |s|
  {
    if s == [] then []
    else if IsControl(s[0]) then
      var n := WordLen(s[1..]);
      [s[0]] + s[1..][..n] + Rewrite(s[1 + n..])
    else if !IsWordChar(s[0]) then [s[0]] + Rewrite(s[1..])
    else
      var n := WordLen(s);
      (if s[..n] in Operators then "$" + s[..n] else s[..n]) + Rewrite(s[n..])
  }

  /** Removes the `$` that `Rewrite` put in front of an operator word. */
  function Restore(s: string): string
    decreases |s|
  {
    if s == [] then []
    else
      var n := WordLen(s[1..]);
      if IsControl(s[0]) then [s[0]] + s[1..][..n] + Restore(s[1 + n..])
      else if s[0] == '$' && s[1..][..n] in Operators then s[1..][..n] + Restore(s[1 + n..])
      else if IsWordChar(s[0]) then s[..WordLen(s)] + Restore(s[WordLen(s)..])
      else [s[0]] + Restore(s[1..])
  }

  lemma {:induction false} WordLenConcat(w: string, t: string)
    requires forall i :: 0 <= i < |w| ==> IsWordChar(w[i])
    requires t == [] || !IsWordChar(t[0])
    ensures WordLen(w + t) == |w|
    ensures (w + t)[..|w|] == w && (w + t)[|w|..] == t
    decreases |w|
  {
    if w != [] {
      assert (w + t)[1..] == w[1..] + t;
      WordLenConcat(w[1..], t);
    }
  }

  /** What `Rewrite` produces never starts with an operator word: those all got their `$`. */
  lemma RewriteNoLeadingOperator(x: string)
    ensures var y := Rewrite(x); y[..WordLen(y)] !in Operators
  {
    var y := Rewrite(x);
    if x != [] && IsWordChar(x[0]) {
      var n := WordLen(x);
      var w := x[..n];
      var rest := x[n..];
      var z := Rewrite(rest);
      assert z == [] || !IsWordChar(z[0]);
      if w !in Operators {
        assert y == w + z;
        WordLenConcat(w, z);
      } else {
        assert y[0] == '$';
      }
    }
  }

  /** `Restore` on a non-word, non-control character followed by rewritten text. */
  lemma RestoreAfterSymbol(c: char, x: string)
    requires !IsWordChar(c) && !IsControl(c)
    ensures Restore([c] + Rewrite(x)) == [c] + Restore(Rewrite(x))
  {
    var y := Rewrite(x);
    assert ([c] + y)[1..] == y;
    if c == '$' {
      RewriteNoLeadingOperator(x);
    }
  }

  /** `Restore` on a word followed by rewritten text that starts with no word character. */
  lemma RestoreAfterWord(w: string, y: string)
    requires w != [] && forall i :: 0 <= i < |w| ==> IsWordChar(w[i])
    requires y == [] || !IsWordChar(y[0])
    ensures w in Operators ==> Restore("$" + w + y) == w + Restore(y)
    ensures w !in Operators ==> Restore(w + y) == w + Restore(y)
  {
    if w in Operators {
      RestoreOperatorWord(w, y);
    } else {
      RestorePlainWord(w, y);
    }
  }

  /** `Restore` drops the `$` in front of an operator word. */
  lemma RestoreOperatorWord(w: string, y: string)
    requires w in Operators && forall i :: 0 <= i < |w| ==> IsWordChar(w[i])
    requires y == [] || !IsWordChar(y[0])
    ensures Restore("$" + w + y) == w + Restore(y)
  {
    var z := "$" + w + y;
    assert z[1..] == w + y;
    WordLenConcat(w, y);
    assert z[1 + |w|..] == y;
  }

  /** `Restore` keeps a word that is no operator name as it is. */
  lemma RestorePlainWord(w: string, y: string)
    requires w != [] && w !in Operators && forall i :: 0 <= i < |w| ==> IsWordChar(w[i])
    requires y == [] || !IsWordChar(y[0])
    ensures Restore(w + y) == w + Restore(y)
  {
    var z := w + y;
    assert z[0] == w[0] && z[0] != '$';
    WordLenConcat(w, y);
  }

  /** The rewrite loses nothing: `Restore` recovers the original text. */
  lemma {:induction false} RestoreRewrite(s: string)
    ensures Restore(Rewrite(s)) == s
    decreases |s|
  {
    if s == [] {
    } else if IsControl(s[0]) {
      RestoreRewrite(s[1 + WordLen(s[1..])..]);
      RestoreRewriteControl(s);
    } else if !IsWordChar(s[0]) {
      RestoreRewrite(s[1..]);
      RestoreRewriteSymbol(s);
    } else {
      RestoreRewrite(s[WordLen(s)..]);
      RestoreRewriteWord(s);
    }
  }

  /** Rewritten text starts with a word character only where the original did. */
  lemma RewriteKeepsNonWordStart(x: string)
    requires x == [] || !IsWordChar(x[0])
    ensures Rewrite(x) == [] || !IsWordChar(Rewrite(x)[0])
  {
  }

  /** `Restore` copies a control character and the word glued to it. */
  lemma RestoreAfterControl(c: char, w: string, y: string)
    requires IsControl(c)
    requires forall i :: 0 <= i < |w| ==> IsWordChar(w[i])
    requires y == [] || !IsWordChar(y[0])
    ensures Restore([c] + w + y) == [c] + w + Restore(y)
  {
    var z := [c] + w + y;
    assert z[1..] == w + y;
    WordLenConcat(w, y);
    assert z[1 + |w|..] == y;
  }

  /** The step of `RestoreRewrite` for a text that starts with a control character. */
  lemma RestoreRewriteControl(s: string)
    requires s != [] && IsControl(s[0])
    requires Restore(Rewrite(s[1 + WordLen(s[1..])..])) == s[1 + WordLen(s[1..])..]
    ensures Restore(Rewrite(s)) == s
  {
    var n := WordLen(s[1..]);
    var w := s[1..][..n];
    var rest := s[1 + n..];
    assert Restore(Rewrite([s[0]] + w + rest)) == [s[0]] + w + rest by {
      RestoreRewriteGlued(s[0], w, rest);
    }
    assert s == [s[0]] + w + rest;
  }

  /** A control character, the word glued to it and a rest that round-trips round-trip together. */
  lemma RestoreRewriteGlued(c: char, w: string, rest: string)
    requires IsControl(c)
    requires forall i :: 0 <= i < |w| ==> IsWordChar(w[i])
    requires rest == [] || !IsWordChar(rest[0])
    requires Restore(Rewrite(rest)) == rest
    ensures Restore(Rewrite([c] + w + rest)) == [c] + w + rest
  {
    RewriteAfterControl(c, w, rest);
    RewriteKeepsNonWordStart(rest);
    RestoreAfterControl(c, w, Rewrite(rest));
  }

  /** The step of `RestoreRewrite` for a text that starts with another non-word character. */
  lemma RestoreRewriteSymbol(s: string)
    requires s != [] && !IsWordChar(s[0]) && !IsControl(s[0])
    requires Restore(Rewrite(s[1..])) == s[1..]
    ensures Restore(Rewrite(s)) == s
  {
    assert Rewrite(s) == [s[0]] + Rewrite(s[1..]);
    RestoreAfterSymbol(s[0], s[1..]);
    assert s == [s[0]] + s[1..];
  }

  /** The step of `RestoreRewrite` for a text that starts with a word. */
  lemma RestoreRewriteWord(s: string)
    requires s != [] && IsWordChar(s[0])
    requires Restore(Rewrite(s[WordLen(s)..])) == s[WordLen(s)..]
    ensures Restore(Rewrite(s)) == s
  {
    var n := WordLen(s);
    var w := s[..n];
    var rest := s[n..];
    assert s == w + rest;
    var y := Rewrite(rest);
    assert y == [] || !IsWordChar(y[0]);
    assert Rewrite(s) == (if w in Operators then "$" + w else w) + y;
    RestoreAfterWord(w, y);
  }

  /** So two different query texts never collapse into the same filter text. */
  lemma RewriteInjective(a: string, b: string)
    requires Rewrite(a) == Rewrite(b)
    ensures a == b
  {
    RestoreRewrite(a);
    RestoreRewrite(b);
  }

  /** A text that opens with an operator word is rewritten to start with `$` and that word. */
  lemma RewriteLeadingOperator(op: string, rest: string)
    requires op in Operators
    requires rest == [] || !IsWordChar(rest[0])
    ensures Rewrite(op + rest) == "$" + op + Rewrite(rest)
  {
    assert forall i :: 0 <= i < |op| ==> IsWordChar(op[i]);
    WordLenConcat(op, rest);
  }

  /**
   * After a control character even an operator word is kept: a query value
   * "\nin" stays "\nin", where the same word after a space would be rewritten.
   */
  lemma RewriteAfterControl(c: char, w: string, rest: string)
    requires IsControl(c)
    requires forall i :: 0 <= i < |w| ==> IsWordChar(w[i])
    requires rest == [] || !IsWordChar(rest[0])
    ensures Rewrite([c] + w + rest) == [c] + w + Rewrite(rest)
  {
    var s := [c] + w + rest;
    assert s[1..] == w + rest;
    WordLenConcat(w, rest);
    assert s[1 + |w|..] == rest;
  }

  // ---------------------------------------------------------------------------
  // The title pattern

  /**
   * Whether the regular expression `p`, matched case-insensitively, matches
   * at the start of `s`. Only the `$` anchor is interpreted; every other
   * character stands for itself.
   */
  predicate MatchHere(p: string, s: string)
    decreases |p|
  {
    if p == [] then true
    else if p[0] == '$' then s == [] && MatchHere(p[1..], s)
    else s != [] && LowerChar(p[0]) == LowerChar(s[0]) && MatchHere(p[1..], s[1..])
  }

  /** `{ $regex: p, $options: 'i' }` on the text `s`. */
  predicate Search(p: string, s: string)
  {
    exists i :: 0 <= i <= |s| && MatchHere(p, s[i..])
  }

  /** Without anchors the pattern is a case-insensitive literal: it matches where `s` starts with it. */
  lemma {:induction false} MatchHereLiteral(p: string, s: string)
    requires forall j :: 0 <= j < |p| ==> p[j] != '$'
    ensures MatchHere(p, s) <==> |p| <= |s| && forall j :: 0 <= j < |p| ==> LowerChar(p[j]) == LowerChar(s[j])
    decreases |p|
  {
    if p != [] && s != [] {
      MatchHereLiteral(p[1..], s[1..]);
      if |p| <= |s| && forall j :: 0 <= j < |p| ==> LowerChar(p[j]) == LowerChar(s[j]) {
        forall j | 0 <= j < |p| - 1
          ensures LowerChar(p[1..][j]) == LowerChar(s[1..][j])
        {
          assert p[1..][j] == p[j + 1] && s[1..][j] == s[j + 1];
        }
      }
      if MatchHere(p, s) {
        forall j | 0 <= j < |p|
          ensures LowerChar(p[j]) == LowerChar(s[j])
        {
          if j > 0 {
            assert p[1..][j - 1] == p[j] && s[1..][j - 1] == s[j];
          }
        }
      }
    }
  }

  /** A `$` followed by anything but another `$` demands more text after the end: nothing matches. */
  lemma {:induction false} AnchorBeforeTextNeverMatches(p: string, s: string, j: nat)
    requires j + 1 < |p| && p[j] == '$' && p[j + 1] != '$'
    ensures !MatchHere(p, s)
    decreases j
  {
    if j > 0 {
      if s != [] {
        AnchorBeforeTextNeverMatches(p[1..], s[1..], j - 1);
      }
      AnchorBeforeTextNeverMatches(p[1..], s, j - 1);
    }
  }

  /**
   * A title search that opens with one of the operator words ("in", "lt", ...)
   * is rewritten into a pattern starting with an anchor, so it finds no title.
   */
  lemma TitleSearchForOperatorWord(op: string, rest: string, title: string)
    requires op in Operators
    requires rest == [] || !IsWordChar(rest[0])
    ensures !Search(Trim(Rewrite(op + rest)), title)
  {
    RewriteLeadingOperator(op, rest);
    OperatorPatternHead(op, Rewrite(rest), Rewrite(op + rest));
    TrimmedAnchorFindsNothing(Rewrite(op + rest), title);
  }

  /** A `$` and an operator word open with `$` and a lower-case letter. */
  lemma OperatorPatternHead(op: string, rest: string, q: string)
    requires op in Operators
    requires q == "$" + op + rest
    ensures |q| >= 2 && q[0] == '$' && 'a' <= q[1] <= 'z'
  {
  }

  /** The trim setter keeps a leading `$` and letter in place, so such a pattern still matches nothing. */
  lemma TrimmedAnchorFindsNothing(q: string, title: string)
    requires |q| >= 2 && q[0] == '$' && 'a' <= q[1] <= 'z'
    ensures !Search(Trim(q), title)
  {
    TrimKeepsHead(q);
    AnchoredPatternFindsNothing(Trim(q), title);
  }

  /** A pattern that opens with `$` and then something else matches no text at all. */
  lemma AnchoredPatternFindsNothing(p: string, title: string)
    requires |p| >= 2 && p[0] == '$' && p[1] != '$'
    ensures !Search(p, title)
  {
    forall i | 0 <= i <= |title|
      ensures !MatchHere(p, title[i..])
    {
      AnchorBeforeTextNeverMatches(p, title[i..], 0);
    }
  }

  /** Trimming a text whose first two characters are no white space keeps those two in front. */
  lemma TrimKeepsHead(q: string)
    requires |q| >= 2 && !IsSpace(q[0]) && !IsSpace(q[1])
    ensures |Trim(q)| >= 2 && Trim(q)[0] == q[0] && Trim(q)[1] == q[1]
  {
    assert TrimStart(q) == q;
    var r := TrimEnd(q);
    assert r == q[..|r|];
  }

  // ---------------------------------------------------------------------------
  // The filter

  /** One conjunct of the base filter. */
  datatype Condition = FieldEquals(field: string, value: string) | TitleMatches(pattern: string)

  /** The top-level operator MongoDB takes as a note on the query; it constrains nothing. */
  const CommentOperator: string := "$comment"

  /** A key the rewrite turns into `$comment`. */
  predicate IsCommentKey(k: string)
  {
    Rewrite(k) == CommentOperator
  }

  /** A key the rewrite turns into a top-level operator other than `$comment`. */
  predicate IsOperatorKey(k: string)
  {
    StartsWith(Rewrite(k), "$") && !IsCommentKey(k)
  }

  /**
   * The base filter built from the cleaned query: `title` becomes a
   * case-insensitive pattern, which the title's `trim` setter trims, and
   * every other key an equality; operator words are rewritten in keys and
   * values alike. A key that ends up starting with `$` is a top-level
   * operator with a string operand: `$comment` is accepted and adds no
   * condition, any other is refused (400).
   */
  function BaseFilter(cleaned: map<string, string>): (r: Result<set<Condition>>)
    ensures r.Failure? <==> exists k :: k in cleaned && IsOperatorKey(k)
    ensures r.Failure? ==> r.error == Invalid
    ensures r.Success? ==> forall c :: c in r.value <==>
      || (c.TitleMatches? && "title" in cleaned && c.pattern == Trim(Rewrite(cleaned["title"])))
      || (c.FieldEquals? &&
            exists k :: k in cleaned && k != "title" && !IsCommentKey(k) && c == FieldEquals(Rewrite(k), Rewrite(cleaned[k])))
  {
    if exists k :: k in cleaned && IsOperatorKey(k) then Failure(Invalid)
    else
      var fields := set k | k in cleaned && k != "title" && !IsCommentKey(k) :: FieldEquals(Rewrite(k), Rewrite(cleaned[k]));
      var title := if "title" in cleaned then {TitleMatches(Trim(Rewrite(cleaned["title"])))} else {};
      Success(fields + title)
  }

  /** The string-valued paths of the Document schema (ObjectIds compared as their text). */
  const TextPaths: set<string> := {"_id", "title", "description", "level", "file", "fileType", "subject", "user", "nickname"}

  /** The Number paths, `__v` included. */
  const NumberPaths: set<string> := {"fileSize", "downloadCount", "__v"}

  /** The text a filter key addresses in stored document `id`; other keys address no text. */
  function FieldText(id: Id, d: Document, field: string): (r: Option<string>)
    ensures r.Some? <==> field in TextPaths
    ensures field == "_id" ==> r == Some(id)
  {
    if field == "_id" then Some(id)
    else if field == "title" then Some(d.title)
    else if field == "description" then Some(d.description)
    else if field == "level" then Some(d.level)
    else if field == "file" then Some(d.file)
    else if field == "fileType" then Some(d.fileType)
    else if field == "subject" then Some(d.subject)
    else if field == "user" then Some(d.user)
    else if field == "nickname" then Some(d.nickname)
    else None
  }

  /**
   * The number a filter key addresses. The version key `__v` is 0 on every
   * document: it is created at 0 and only array changes would raise it, and
   * a Document has no array.
   */
  function FieldNumber(d: Document, field: string): (r: Option<int>)
    ensures r.Some? <==> field in NumberPaths
    ensures field == "__v" ==> r == Some(0)
  {
    if field == "fileSize" then Some(d.fileSize as int)
    else if field == "downloadCount" then Some(d.downloadCount as int)
    else if field == "__v" then Some(0)
    else None
  }

  /**
   * Whether stored document `id` meets one condition. A string path equals
   * the text; a Number path equals the number the cast reads from the text;
   * a key naming no path matches nothing.
   */
  predicate Holds(c: Condition, id: Id, d: Document)
  {
    match c
    case FieldEquals(f, v) => FieldText(id, d, f) == Some(v) || (FieldNumber(d, f).Some? && IntegerValue(v) == FieldNumber(d, f))
    case TitleMatches(p) => Search(p, d.title)
  }

  /** `?downloadCount=n` selects exactly the documents downloaded `n` times. */
  lemma DownloadCountFilter(n: nat, id: Id, d: Document)
    ensures Holds(FieldEquals("downloadCount", Decimal(n)), id, d) <==> d.downloadCount == n
  {
    assert FieldText(id, d, "downloadCount") == None;
    assert FieldNumber(d, "downloadCount") == Some(d.downloadCount as int);
    IntegerValueDecimal(n);
  }

  /** A key naming no schema path matches no document. */
  lemma UnknownPathMatchesNothing(f: string, v: string, id: Id, d: Document)
    requires f !in TextPaths && f !in NumberPaths
    ensures !Holds(FieldEquals(f, v), id, d)
  {
  }

  /** "$comment" is left alone by the rewrite, so it is the comment key. */
  lemma CommentOperatorKept()
    ensures IsCommentKey(CommentOperator) && !IsOperatorKey(CommentOperator)
  {
    var w := "comment";
    assert forall i :: 0 <= i < |w| ==> IsWordChar(w[i]);
    assert w !in Operators;
    RewritePlainWord(w);
    RewriteAfterSymbolChar('$', w);
    assert CommentOperator == ['$'] + w;
  }

  /** A word that is no operator name is rewritten to itself. */
  lemma RewritePlainWord(w: string)
    requires w != [] && w !in Operators && forall i :: 0 <= i < |w| ==> IsWordChar(w[i])
    ensures Rewrite(w) == w
  {
    WordLenConcat(w, []);
    assert w + [] == w;
  }

  /** A character that is neither a word character nor a control character is copied as it is. */
  lemma RewriteAfterSymbolChar(c: char, x: string)
    requires !IsWordChar(c) && !IsControl(c)
    ensures Rewrite([c] + x) == [c] + Rewrite(x)
  {
    assert ([c] + x)[1..] == x;
  }

  /** `?$comment=...` lists what the listing without it lists. */
  lemma CommentKeyAddsNothing(cleaned: map<string, string>, note: string)
    requires CommentOperator !in cleaned
    requires BaseFilter(cleaned).Success?
    ensures BaseFilter(cleaned[CommentOperator := note]) == BaseFilter(cleaned)
  {
    var more := cleaned[CommentOperator := note];
    CommentOperatorKept();
    assert forall k :: k in more && !IsCommentKey(k) ==> k in cleaned && more[k] == cleaned[k];
    assert !exists k :: k in more && IsOperatorKey(k);
    assert BaseFilter(more).Success?;
    var a := BaseFilter(more).value;
    var b := BaseFilter(cleaned).value;
    assert "title" in more <==> "title" in cleaned;
    if "title" in cleaned {
      assert more["title"] == cleaned["title"];
    }
    forall c
      ensures c in a <==> c in b
    {
      if c.FieldEquals? && c in b {
        var k :| k in cleaned && k != "title" && !IsCommentKey(k) && c == FieldEquals(Rewrite(k), Rewrite(cleaned[k]));
        assert k in more && more[k] == cleaned[k];
      }
      if c.FieldEquals? && c in a {
        var k :| k in more && k != "title" && !IsCommentKey(k) && c == FieldEquals(Rewrite(k), Rewrite(more[k]));
        assert k in cleaned && more[k] == cleaned[k];
      }
    }
    assert a == b;
  }

  predicate BaseHolds(filter: set<Condition>, id: Id, d: Document)
  {
    forall c :: c in filter ==> Holds(c, id, d)
  }

  // ---------------------------------------------------------------------------
  // Visibility

  /**
   * The condition conjoined with the base filter: none, or documents whose
   * level is one of the shared levels, or one of the private levels and owned
   * by the caller.
   */
  datatype Visibility = Unrestricted | Restricted(shared: set<Id>, private: set<Id>, owner: Id)

  /** `getDocumentLevelIdsByNumbers`: the ids of the level records carrying one of the numbers. */
  function LevelIdsByNumbers(levels: map<Id, DocumentLevel>, numbers: set<int>): (r: set<Id>)
    ensures forall l :: l in r <==> l in levels && levels[l].level in numbers
  {
    set l | l in levels && levels[l].level in numbers
  }

  predicate Visible(v: Visibility, d: Document)
  {
    match v
    case Unrestricted => true
    case Restricted(shared, private, owner) => d.level in shared || (d.level in private && d.user == owner)
  }

  /**
   * The visibility for the caller `actor` (`None` when there is no request
   * user): students share level 1, teachers levels 1 and 2, both see their own
   * level-3 documents; any other role, an unresolved role or no user is
   * unrestricted. A caller id that no longer names a user makes
   * `currentUser.role` throw, which the handler answers with 400.
   */
  function VisibilityFor(db: Database, actor: Option<Id>): (r: Result<Visibility>)
    reads db
    ensures r.Failure? <==> actor.Some? && actor.value !in db.users
    ensures r.Failure? ==> r.error == Invalid
    ensures r.Success? && r.value.Restricted? ==> actor.Some? && r.value.owner == actor.value
    ensures r.Success? && r.value.Restricted? ==> r.value.private == LevelIdsByNumbers(db.levels, {PrivateLevel})
  {
    match actor
    case None => Success(Unrestricted)
    case Some(u) =>
      if u !in db.users then Failure(Invalid)
      else if db.RoleOfUser(u) == Some(Student) then
        Success(Restricted(LevelIdsByNumbers(db.levels, {PublicLevel}), LevelIdsByNumbers(db.levels, {PrivateLevel}), u))
      else if db.RoleOfUser(u) == Some(Teacher) then
        Success(Restricted(LevelIdsByNumbers(db.levels, {PublicLevel, TeacherOnlyLevel}), LevelIdsByNumbers(db.levels, {PrivateLevel}), u))
      else Success(Unrestricted)
  }

  /** The ids of the stored documents the filter and the visibility admit. */
  function Matching(db: Database, filter: set<Condition>, v: Visibility): (r: set<Id>)
    reads db
    ensures r <= db.documents.Keys
  {
    set id | id in db.documents && BaseHolds(filter, id, db.documents[id]) && Visible(v, db.documents[id])
  }

  /** A student's listing: base filter and (level 1, or level 3 and own). */
  lemma StudentListing(db: Database, u: Id, filter: set<Condition>, id: Id)
    requires u in db.users && db.RoleOfUser(u) == Some(Student)
    ensures id in Matching(db, filter, VisibilityFor(db, Some(u)).value) <==>
      && id in db.documents && BaseHolds(filter, id, db.documents[id])
      && (|| db.LevelNumber(db.documents[id].level) == Some(PublicLevel)
          || (db.LevelNumber(db.documents[id].level) == Some(PrivateLevel) && db.documents[id].user == u))
  {
  }

  /** A teacher's listing: base filter and (level 1 or 2, or level 3 and own). */
  lemma TeacherListing(db: Database, u: Id, filter: set<Condition>, id: Id)
    requires u in db.users && db.RoleOfUser(u) == Some(Teacher)
    ensures id in Matching(db, filter, VisibilityFor(db, Some(u)).value) <==>
      && id in db.documents && BaseHolds(filter, id, db.documents[id])
      && (|| db.LevelNumber(db.documents[id].level) == Some(PublicLevel)
          || db.LevelNumber(db.documents[id].level) == Some(TeacherOnlyLevel)
          || (db.LevelNumber(db.documents[id].level) == Some(PrivateLevel) && db.documents[id].user == u))
  {
  }

  /** An admin, a user whose role does not resolve, or no request user: the base filter alone. */
  lemma UnrestrictedListing(db: Database, actor: Option<Id>, filter: set<Condition>)
    requires actor.Some? ==> actor.value in db.users
    requires actor.Some? ==> db.RoleOfUser(actor.value) != Some(Student) && db.RoleOfUser(actor.value) != Some(Teacher)
    ensures Matching(db, filter, VisibilityFor(db, actor).value) ==
      set id | id in db.documents && BaseHolds(filter, id, db.documents[id])
  {
  }

  /**
   * What a restricted caller never sees: a level-2 document if a student, a
   * level-3 document of someone else, or a document whose level reference dangles.
   */
  lemma RestrictedListingExcludes(db: Database, u: Id, filter: set<Condition>, id: Id)
    requires u in db.users && id in db.documents
    requires db.RoleOfUser(u) == Some(Student) || db.RoleOfUser(u) == Some(Teacher)
    ensures var d := db.documents[id];
      var listed := id in Matching(db, filter, VisibilityFor(db, Some(u)).value);
      && (db.RoleOfUser(u) == Some(Student) && db.LevelNumber(d.level) == Some(TeacherOnlyLevel) ==> !listed)
      && (db.LevelNumber(d.level) == Some(PrivateLevel) && d.user != u ==> !listed)
      && (db.LevelNumber(d.level).None? ==> !listed)
  {
  }

  // ---------------------------------------------------------------------------
  // Paging

  /**
   * `parseInt(v, 10) || fallback`: `parseInt` reads `String(v)`, so an array
   * is read from its first item onwards and an object ("[object Object]") is NaN.
   */
  function PagingNumber(v: Option<QueryValue>, fallback: int): (r: int)
    requires fallback != 0
    ensures r != 0
    ensures (v.None? || v == Some(Nested)) ==> r == fallback
    ensures v.Some? && ParseInt(QueryString(v.value)).Some? && ParseInt(QueryString(v.value)).value != 0 ==>
      r == ParseInt(QueryString(v.value)).value
    ensures v.Some? && (ParseInt(QueryString(v.value)).None? || ParseInt(QueryString(v.value)) == Some(0)) ==>
      r == fallback
  {
    match v
    case None => fallback
    case Some(q) =>
      ObjectIsNaN();
      match ParseInt(QueryString(q))
      case Some(n) => if n == 0 then fallback else n
      case None => fallback
  }

  /** `parseInt("[object Object]")` is NaN. */
  lemma ObjectIsNaN()
    ensures ParseInt(QueryString(Nested)) == None
  {
    var t := QueryString(Nested);
    assert !IsSpace(t[0]) && t[0] != '-' && t[0] != '+' && !IsDigit(t[0]);
    assert TrimStart(t) == t;
  }

  /** A repeated paging key (`?page=3&page=4`) takes its first value. */
  lemma PagingNumberFirstItem(n: nat, more: seq<string>, fallback: int)
    requires n != 0 && fallback != 0
    ensures PagingNumber(Some(List([Decimal(n)] + more)), fallback) == n
  {
    var items := [Decimal(n)] + more;
    if more == [] {
      ParseIntDecimal(n, []);
      assert Decimal(n) + [] == Decimal(n);
    } else {
      assert items[1..] == more;
      var rest := "," + Join(more, ",");
      assert Join(items, ",") == Decimal(n) + rest;
      ParseIntDecimal(n, rest);
    }
  }

  datatype PageRef = PageRef(page: int, limit: int)

  datatype Links = Links(next: Option<PageRef>, prev: Option<PageRef>)

  /** The `pagination` object: `next` when the page ends before the total, `prev` when it starts after 0. */
  function PageLinks(page: int, limit: int, total: nat): (r: Links)
    ensures r.next.Some? <==> page * limit < total
    ensures r.prev.Some? <==> (page - 1) * limit > 0
    ensures r.next.Some? ==> r.next.value == PageRef(page + 1, limit)
    ensures r.prev.Some? ==> r.prev.value == PageRef(page - 1, limit)
  {
    Links(if page * limit < total then Some(PageRef(page + 1, limit)) else None,
          if (page - 1) * limit > 0 then Some(PageRef(page - 1, limit)) else None)
  }

  /**
   * For ordinary page numbers and sizes the links mean what they say: `next`
   * exactly when some matching document lies beyond this page, `prev` exactly
   * when this is not the first page.
   */
  lemma PageLinksMeaning(page: int, limit: int, total: nat)
    requires page >= 1 && limit >= 1
    ensures PageLinks(page, limit, total).next.Some? <==> (page - 1) * limit + limit < total
    ensures PageLinks(page, limit, total).prev.Some? <==> page > 1
  {
    if page > 1 {
      assert (page - 1) * limit >= limit;
    }
  }

  datatype Listing = Listing(data: seq<Id>, count: nat, total: nat, links: Links)

  function Abs(n: int): nat
  {
    if n < 0 then -n else n
  }

  /** The slice `skip(start).limit(limit)` takes from the ordered ids. */
  function Window(ordered: seq<Id>, start: nat, limit: int): (r: seq<Id>)
    ensures |r| <= Abs(limit)
    ensures |r| == Min(Abs(limit), Max(0, |ordered| - start))
    ensures forall i :: 0 <= i < |r| ==> r[i] == ordered[start + i]
  {
    var from := Min(start, |ordered|);
    var to := Min(start + Abs(limit), |ordered|);
    ordered[from..to]
  }

  /** The newest-first order of the ids (`sort('-createdAt')`); ties are in no particular order. */
  ghost function NewestFirst(db: Database, ids: set<Id>): (r: seq<Id>)
    requires ids <= db.documents.Keys
    reads db
    ensures Enumerates(ids, r)
    ensures forall i, j :: 0 <= i < j < |r| ==> db.documents[r[i]].createdAt >= db.documents[r[j]].createdAt
  {
    var stamps := map id | id in db.documents :: db.documents[id].createdAt as int;
    SortKeysByNumberDesc(stamps, ids)
  }

  /**
   * One page of the matching documents: newest first, skipping
   * `(page-1)*limit` of them and keeping at most `|limit|` (MongoDB reads a
   * negative limit as its size); a negative skip is refused.
   */
  ghost function PageOf(db: Database, matching: set<Id>, page: int, limit: int): (r: Result<Listing>)
    requires matching <= db.documents.Keys
    reads db
    ensures r.Failure? <==> (page - 1) * limit < 0
    ensures r.Failure? ==> r.error == Invalid
    ensures r.Success? ==>
      && r.value.total == |matching|
      && r.value.count == |r.value.data| == Min(Abs(limit), Max(0, |matching| - (page - 1) * limit))
      && (forall i :: 0 <= i < |r.value.data| ==> r.value.data[i] in matching)
      && (forall i, j :: 0 <= i < j < |r.value.data| ==> r.value.data[i] != r.value.data[j])
      && (forall i, j :: 0 <= i < j < |r.value.data| ==>
            db.documents[r.value.data[i]].createdAt >= db.documents[r.value.data[j]].createdAt)
      && r.value.links == PageLinks(page, limit, |matching|)
  {
    var start := (page - 1) * limit;
    if start < 0 then Failure(Invalid)
    else
      var data := Window(NewestFirst(db, matching), start, limit);
      WindowOfNewest(db, matching, start, limit);
      Success(Listing(data, |data|, |matching|, PageLinks(page, limit, |matching|)))
  }

  /** A window of the newest-first order holds distinct matching ids, still newest first. */
  lemma WindowOfNewest(db: Database, matching: set<Id>, start: nat, limit: int)
    requires matching <= db.documents.Keys
    ensures var data := Window(NewestFirst(db, matching), start, limit);
      && (forall i :: 0 <= i < |data| ==> data[i] in matching)
      && (forall i, j :: 0 <= i < j < |data| ==> data[i] != data[j])
      && (forall i, j :: 0 <= i < j < |data| ==>
            db.documents[data[i]].createdAt >= db.documents[data[j]].createdAt)
  {
    var ordered := NewestFirst(db, matching);
    var data := Window(ordered, start, limit);
    forall i, j | 0 <= i < j < |data|
      ensures data[i] != data[j]
      ensures db.documents[data[i]].createdAt >= db.documents[data[j]].createdAt
    {
      assert data[i] == ordered[start + i] && data[j] == ordered[start + j];
    }
  }

  /**
   * The whole `getDocuments` handler for the caller `actor`: every failure is
   * answered with 400; a success is the requested page of the documents the
   * cleaned query and the caller's visibility select.
   */
  ghost function ListDocuments(db: Database, actor: Option<Id>, query: map<string, QueryValue>): (r: Result<Listing>)
    reads db
    ensures r.Failure? ==> r.error == Invalid
    ensures r.Success? ==>
      Cleaned(query).Success? && BaseFilter(Cleaned(query).value).Success? && VisibilityFor(db, actor).Success?
    ensures ("select" in query && !query["select"].Text?) || ("sort" in query && !query["sort"].Text?) ==>
      r == Failure(Invalid)
    ensures (&& Cleaned(query).Success? && BaseFilter(Cleaned(query).value).Success?
             && VisibilityFor(db, actor).Success?
             && ("select" in query ==> query["select"].Text?) && ("sort" in query ==> query["sort"].Text?)) ==>
      r == PageOf(db, Matching(db, BaseFilter(Cleaned(query).value).value, VisibilityFor(db, actor).value),
                  PagingNumber(if "page" in query then Some(query["page"]) else None, 1),
                  PagingNumber(if "limit" in query then Some(query["limit"]) else None, 10))
    ensures r.Success? ==>
      var matching := Matching(db, BaseFilter(Cleaned(query).value).value, VisibilityFor(db, actor).value);
      && r.value.total == |matching|
      && (forall i :: 0 <= i < |r.value.data| ==> r.value.data[i] in matching)
      && r.value.count <= Abs(PagingNumber(if "limit" in query then Some(query["limit"]) else None, 10))
  {
    match Cleaned(query)
    case Failure(e) => Failure(e)
    case Success(cleaned) =>
      if ("select" in query && !query["select"].Text?) || ("sort" in query && !query["sort"].Text?) then Failure(Invalid)
      else
        match BaseFilter(cleaned)
        case Failure(e) => Failure(e)
        case Success(filter) =>
          match VisibilityFor(db, actor)
          case Failure(e) => Failure(e)
          case Success(v) =>
            PageOf(db, Matching(db, filter, v),
                   PagingNumber(if "page" in query then Some(query["page"]) else None, 1),
                   PagingNumber(if "limit" in query then Some(query["limit"]) else None, 10))
  }
}
