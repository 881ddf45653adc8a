/**
 * The admin dashboard figures of Backend/controllers/statsController.js:
 * store sizes, the five subjects with the most documents, and the total of
 * the download counters. The `$group`/`$sort`/`$limit` pipeline is given its
 * meaning directly over the document store; ties between equal counts are
 * ordered as MongoDB pleases, so the listing is a ghost choice.
 */
module Stats {
  import opened Common
  import opened Models
  import opened Ordering
  import opened Store

  /** How many groups `$limit` keeps. */
  const TopLimit: nat := 5

  /** The label of a group whose subject does not resolve or has no name. */
  const UnknownSubject: string := "Kh\U{00F4}ng x\U{00E1}c \U{0111}\U{1ECB}nh"

  /** The subject ids some document refers to: the `_id`s `$group` produces. */
  function SubjectsUsed(documents: map<Id, Document>): (r: set<Id>)
    ensures forall s :: s in r <==> exists d :: d in documents && documents[d].subject == s
  {
    set d | d in documents :: documents[d].subject
  }

  /** `{$sum: 1}` per group: each used subject with the number of its documents. */
  function GroupCounts(documents: map<Id, Document>): (r: map<Id, int>)
    ensures r.Keys == SubjectsUsed(documents)
    ensures forall s :: s in r ==> r[s] == |DocumentIdsIn(documents, s)| && r[s] >= 1
  {
    map s | s in SubjectsUsed(documents) :: CountIn(documents, s)
  }

  /** The number of documents of subject `s`, at least one when some document has it. */
  function CountIn(documents: map<Id, Document>, s: Id): (r: int)
    ensures r == |DocumentIdsIn(documents, s)|
    ensures (exists d :: d in documents && documents[d].subject == s) ==> r >= 1
  {
    var ids := DocumentIdsIn(documents, s);
    if ids == {} then 0
    else
      var d :| d in ids;
      assert d in ids;
      |ids|
  }

  /**
   * A prefix of length `n` of a listing of the keys of `counts` by count
   * descending keeps distinct keys in that order, and every key it leaves out
   * counts no more than its last element.
   */
  lemma TopPrefix(counts: map<Id, int>, all: seq<Id>, n: nat)
    requires n > 0 && Enumerates(counts.Keys, all)
    requires forall i, j :: 0 <= i < j < |all| ==> counts[all[i]] >= counts[all[j]]
    ensures var r := all[..Min(n, |all|)];
      && |r| == Min(n, |counts.Keys|)
      && (forall i :: 0 <= i < |r| ==> r[i] in counts)
      && (forall i, j :: 0 <= i < j < |r| ==> r[i] != r[j])
      && (forall i, j :: 0 <= i < j < |r| ==> counts[r[i]] >= counts[r[j]])
      && (forall k :: k in counts && k !in r ==> |r| == n && counts[k] <= counts[r[n - 1]])
  {
    var r := all[..Min(n, |all|)];
    forall k | k in counts && k !in r
      ensures |r| == n && counts[k] <= counts[r[n - 1]]
    {
      var j :| 0 <= j < |all| && all[j] == k;
      assert j >= |r|;
      assert r[n - 1] == all[n - 1];
    }
  }

  /** The first `n` keys of `counts` by count descending (`$sort: {count: -1}`, `$limit: n`). */
  ghost function TopKeys(counts: map<Id, int>, n: nat): (r: seq<Id>)
    requires n > 0
    ensures |r| == Min(n, |counts.Keys|)
    ensures forall i :: 0 <= i < |r| ==> r[i] in counts
    ensures forall i, j :: 0 <= i < j < |r| ==> r[i] != r[j]
    ensures forall i, j :: 0 <= i < j < |r| ==> counts[r[i]] >= counts[r[j]]
    ensures forall k :: k in counts && k !in r ==> |r| == n && counts[k] <= counts[r[n - 1]]
  {
    var all := SortByNumberDesc(counts);
    TopPrefix(counts, all, n);
    all[..Min(n, |all|)]
  }

  /**
   * The subject ids of the `bySubject` groups, in order: at most five distinct
   * used subjects by number of documents descending, and a used subject left
   * out has no more documents than the last one kept.
   */
  ghost function TopGroups(documents: map<Id, Document>): (r: seq<Id>)
    ensures |r| == Min(TopLimit, |SubjectsUsed(documents)|)
    ensures forall i :: 0 <= i < |r| ==> r[i] in SubjectsUsed(documents)
    ensures forall i, j :: 0 <= i < j < |r| ==> r[i] != r[j]
    ensures forall i, j :: 0 <= i < j < |r| ==>
      |DocumentIdsIn(documents, r[i])| >= |DocumentIdsIn(documents, r[j])|
    ensures forall s :: s in SubjectsUsed(documents) && s !in r ==>
      |r| == TopLimit && |DocumentIdsIn(documents, s)| <= |DocumentIdsIn(documents, r[TopLimit - 1])|
  {
    var counts := GroupCounts(documents);
    TopKeys(counts, TopLimit)
  }

  /** One entry of `bySubject`. */
  datatype SubjectCount = SubjectCount(subject: string, count: int)

  /** The label of a group: the populated subject's name, or the fallback when it is missing or empty. */
  function Label(subjects: map<Id, Subject>, s: Id): (r: string)
    ensures s in subjects && subjects[s].name != [] ==> r == subjects[s].name
    ensures s !in subjects || subjects[s].name == [] ==> r == UnknownSubject
    ensures r != []
  {
    if s in subjects && subjects[s].name != [] then subjects[s].name else UnknownSubject
  }

  /**
   * The total of `downloadCount` over the documents (`{$sum: '$downloadCount'}`
   * in one group, and 0 when the pipeline yields no group).
   */
  ghost function SumDownloads(documents: map<Id, Document>): (r: nat)
    ensures documents == map[] ==> r == 0
    decreases |documents|
  {
    if documents == map[] then 0
    else
      var d :| d in documents;
      documents[d].downloadCount + SumDownloads(documents - {d})
  }

  /** The sum does not depend on the order the documents are taken in: any one can be taken first. */
  lemma {:induction false} SumDownloadsRemove(documents: map<Id, Document>, k: Id)
    requires k in documents
    ensures SumDownloads(documents) == documents[k].downloadCount + SumDownloads(documents - {k})
    decreases |documents|
  {
    var d :| d in documents && SumDownloads(documents) == documents[d].downloadCount + SumDownloads(documents - {d});
    if d != k {
      var rest := documents - {d} - {k};
      SumDownloadsRemove(documents - {d}, k);
      SumDownloadsRemove(documents - {k}, d);
      assert documents - {d} - {k} == documents - {k} - {d};
    }
  }

  /** Every document's counter is part of the total. */
  lemma SumDownloadsBounds(documents: map<Id, Document>, k: Id)
    requires k in documents
    ensures SumDownloads(documents) >= documents[k].downloadCount
  {
    SumDownloadsRemove(documents, k);
  }

  /** Raising one document's counter by one, as a served download does, raises the total by one. */
  lemma SumDownloadsAddOne(documents: map<Id, Document>, k: Id, v: Document)
    requires k in documents && v.downloadCount == documents[k].downloadCount + 1
    ensures SumDownloads(documents[k := v]) == SumDownloads(documents) + 1
  {
    var updated := documents[k := v];
    SumDownloadsRemove(documents, k);
    SumDownloadsRemove(updated, k);
    assert updated - {k} == documents - {k};
  }

  /** The `bySubject` entries of the groups `top`: each with its label and its count. */
  function Entries(top: seq<Id>, counts: map<Id, int>, subjects: map<Id, Subject>): (r: seq<SubjectCount>)
    requires forall i :: 0 <= i < |top| ==> top[i] in counts
    ensures |r| == |top|
    ensures forall i :: 0 <= i < |r| ==> r[i] == SubjectCount(Label(subjects, top[i]), counts[top[i]])
  {
    if top == [] then []
    else [SubjectCount(Label(subjects, top[0]), counts[top[0]])] + Entries(top[1..], counts, subjects)
  }

  /** `bySubject`: the label and the document count of each kept group, in order. */
  ghost function BySubject(documents: map<Id, Document>, subjects: map<Id, Subject>): (r: seq<SubjectCount>)
    ensures |r| == Min(TopLimit, |SubjectsUsed(documents)|)
    ensures forall i :: 0 <= i < |r| ==>
      var s := TopGroups(documents)[i];
      r[i] == SubjectCount(Label(subjects, s), |DocumentIdsIn(documents, s)|)
  {
    Entries(TopGroups(documents), GroupCounts(documents), subjects)
  }

  /** The entries come by count descending, and every listed subject has at least one document. */
  lemma BySubjectOrdered(documents: map<Id, Document>, subjects: map<Id, Subject>)
    ensures var r := BySubject(documents, subjects);
      && (forall i, j :: 0 <= i < j < |r| ==> r[i].count >= r[j].count)
      && (forall i :: 0 <= i < |r| ==> r[i].count >= 1)
  {
    var r := BySubject(documents, subjects);
    var top := TopGroups(documents);
    var counts := GroupCounts(documents);
    assert forall i :: 0 <= i < |r| ==> r[i].count == counts[top[i]];
  }

  /** A used subject missing from `bySubject` has no more documents than the fifth entry counts. */
  lemma BySubjectIsTop(documents: map<Id, Document>, subjects: map<Id, Subject>, s: Id)
    requires s in SubjectsUsed(documents) && s !in TopGroups(documents)
    ensures var r := BySubject(documents, subjects);
      |r| == TopLimit && |DocumentIdsIn(documents, s)| <= r[TopLimit - 1].count
  {
  }

  /** The response of `getStats`; the week figures and the active-user list are fixed placeholders. */
  datatype Report = Report(
    users: int, usersLastWeek: int,
    documents: int, documentsLastWeek: int, bySubject: seq<SubjectCount>,
    subjects: int,
    downloads: int, downloadsLastWeek: int,
    topUsers: seq<Id>)

  /** `getStats` over the current stores. */
  ghost function GetStats(db: Database): (r: Report)
    reads db
    ensures r.users == |db.users| && r.documents == |db.documents| && r.subjects == |db.subjects|
    ensures r.bySubject == BySubject(db.documents, db.subjects)
    ensures r.downloads == SumDownloads(db.documents)
    ensures db.documents == map[] ==> r.downloads == 0 && r.bySubject == []
    ensures r.usersLastWeek == 0 && r.documentsLastWeek == 0 && r.downloadsLastWeek == 0 && r.topUsers == []
  {
    Report(
      |db.users|, 0,
      |db.documents|, 0, BySubject(db.documents, db.subjects),
      |db.subjects|,
      SumDownloads(db.documents), 0,
      [])
  }
}
