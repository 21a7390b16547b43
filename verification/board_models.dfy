/** The board's ownership schema.

 News, Notice, Translation and Information rows share one shape: a bilingual title and
 content, an optional image, a creation date (Translation has none) and exactly one
 owning University. An InformationDocuments row belongs to exactly one Information, so
 its university is the one reached through that Information. Deleting a University
 deletes its content; deleting an Information deletes its documents.
 */
module BoardModels {
  import opened Wrappers
  import opened Seqs
  import opened Access

  datatype ContentKind = News | Notice | Translation | Information

  datatype Content = Content(
    id: nat,
    kind: ContentKind,
    titleUz: string,
    titleKo: string,
    contentUz: string,
    contentKo: string,
    image: Option<string>,
    date: Option<int>,
    university: UniversityId)

  datatype Document = Document(
    id: nat,
    information: nat,
    file: string,
    documentUz: string,
    documentKo: string)

  /** The board tables together with the universities they may refer to. */
  datatype Board = Board(
    universities: set<UniversityId>,
    news: seq<Content>,
    notices: seq<Content>,
    translations: seq<Content>,
    information: seq<Content>,
    documents: seq<Document>)

  // ---------------------------------------------------------------------------
  // Lookup by primary key (`Model.objects.get(id=...)`)

  function FindContent(rows: seq<Content>, id: nat): (r: Option<Content>)
    ensures r.Some? ==> r.value in rows && r.value.id == id
    ensures r.None? <==> forall i :: 0 <= i < |rows| ==> rows[i].id != id
  {
    if |rows| == 0 then None
    else if rows[0].id == id then Some(rows[0])
    else FindContent(rows[1..], id)
  }

  function FindDocument(docs: seq<Document>, id: nat): (r: Option<Document>)
    ensures r.Some? ==> r.value in docs && r.value.id == id
    ensures r.None? <==> forall i :: 0 <= i < |docs| ==> docs[i].id != id
  {
    if |docs| == 0 then None
    else if docs[0].id == id then Some(docs[0])
    else FindDocument(docs[1..], id)
  }

  /** The primary key the store gives the next inserted content row. */
  function NextContentId(rows: seq<Content>): (r: nat)
    ensures forall i :: 0 <= i < |rows| ==> rows[i].id < r
  {
    if |rows| == 0 then 1
    else var rest := NextContentId(rows[1..]); if rows[0].id < rest then rest else rows[0].id + 1
  }

  function NextDocumentId(docs: seq<Document>): (r: nat)
    ensures forall i :: 0 <= i < |docs| ==> docs[i].id < r
  {
    if |docs| == 0 then 1
    else var rest := NextDocumentId(docs[1..]); if docs[0].id < rest then rest else docs[0].id + 1
  }

  /** The university a document belongs to, through its Information row. */
  function DocumentUniversity(infos: seq<Content>, d: Document): (r: Option<UniversityId>)
    ensures r.Some? <==> FindContent(infos, d.information).Some?
    ensures r.Some? ==> r.value == FindContent(infos, d.information).value.university
  {
    match FindContent(infos, d.information)
    case Some(info) => Some(info.university)
    case None => None
  }

  // ---------------------------------------------------------------------------
  // Integrity of the tables

  predicate UniqueContentIds(rows: seq<Content>) {
    forall i, j :: 0 <= i < j < |rows| ==> rows[i].id != rows[j].id
  }

  predicate UniqueDocumentIds(docs: seq<Document>) {
    forall i, j :: 0 <= i < j < |docs| ==> docs[i].id != docs[j].id
  }

  /** Every row of a content table has the table's kind and an existing owning university. */
  predicate TableOwned(rows: seq<Content>, kind: ContentKind, universities: set<UniversityId>) {
    UniqueContentIds(rows) &&
    forall i :: 0 <= i < |rows| ==> rows[i].kind == kind && rows[i].university in universities
  }

  /** Every document is attached to an existing Information row. */
  predicate DocumentsAttached(docs: seq<Document>, infos: seq<Content>) {
    forall i :: 0 <= i < |docs| ==> FindContent(infos, docs[i].information).Some?
  }

  predicate WellFormed(b: Board) {
    && TableOwned(b.news, News, b.universities)
    && TableOwned(b.notices, Notice, b.universities)
    && TableOwned(b.translations, Translation, b.universities)
    && TableOwned(b.information, Information, b.universities)
    && UniqueDocumentIds(b.documents)
    && DocumentsAttached(b.documents, b.information)
  }

  // ---------------------------------------------------------------------------
  // Cascading deletes, written out as explicit filters

  function NotId(id: nat): Content -> bool {
    (c: Content) => c.id != id
  }

  function NotOwnedBy(u: UniversityId): Content -> bool {
    (c: Content) => c.university != u
  }

  function NotAttachedTo(id: nat): Document -> bool {
    (d: Document) => d.information != id
  }

  function NotUnder(infos: seq<Content>, u: UniversityId): Document -> bool {
    (d: Document) => DocumentUniversity(infos, d) != Some(u)
  }

  /** Lookup in a filtered table finds the same row when the row survives the filter. */
  lemma {:induction false} FindInFilter(rows: seq<Content>, p: Content -> bool, id: nat)
    requires FindContent(rows, id).Some? && p(FindContent(rows, id).value)
    ensures FindContent(Filter(rows, p), id) == FindContent(rows, id)
  {
    if rows[0].id == id {
      FindFilterAtHead(rows, p, id);
    } else {
      assert FindContent(rows, id) == FindContent(rows[1..], id);
      FindInFilter(rows[1..], p, id);
      FindFilterPastHead(rows, p, id);
    }
  }

  lemma FindFilterAtHead(rows: seq<Content>, p: Content -> bool, id: nat)
    requires |rows| > 0 && rows[0].id == id && p(rows[0])
    ensures FindContent(Filter(rows, p), id) == Some(rows[0])
  {
    FilterUnfold(rows, p);
    FindCons(rows[0], Filter(rows[1..], p), id);
  }

  lemma FindFilterPastHead(rows: seq<Content>, p: Content -> bool, id: nat)
    requires |rows| > 0 && rows[0].id != id
    ensures FindContent(Filter(rows, p), id) == FindContent(Filter(rows[1..], p), id)
  {
    var tail := Filter(rows[1..], p);
    FilterUnfold(rows, p);
    if p(rows[0]) {
      assert Filter(rows, p) == [rows[0]] + tail;
      FindCons(rows[0], tail, id);
    } else {
      assert Filter(rows, p) == tail;
    }
  }

  /** Lookup in a table with a given first row. */
  lemma FindCons(x: Content, rows: seq<Content>, id: nat)
    ensures FindContent([x] + rows, id) == if x.id == id then Some(x) else FindContent(rows, id)
  {
    assert ([x] + rows)[1..] == rows;
  }

  /** Deleting an Information row also deletes the documents attached to it. */
  function DeleteInformationCascade(infos: seq<Content>, docs: seq<Document>, id: nat): (r: (seq<Content>, seq<Document>))
    ensures FindContent(r.0, id).None?
    ensures forall i :: 0 <= i < |r.1| ==> r.1[i].information != id
    ensures forall i :: 0 <= i < |infos| && infos[i].id != id ==> infos[i] in r.0
    ensures forall i :: 0 <= i < |docs| && docs[i].information != id ==> docs[i] in r.1
  {
    (Filter(infos, NotId(id)), Filter(docs, NotAttachedTo(id)))
  }

  /** The cascade leaves no document without its Information row. */
  lemma DeleteInformationKeepsAttached(infos: seq<Content>, docs: seq<Document>, id: nat)
    requires DocumentsAttached(docs, infos)
    ensures DocumentsAttached(DeleteInformationCascade(infos, docs, id).1, DeleteInformationCascade(infos, docs, id).0)
  {
    var infos' := Filter(infos, NotId(id));
    var docs' := Filter(docs, NotAttachedTo(id));
    forall i | 0 <= i < |docs'|
      ensures FindContent(infos', docs'[i].information).Some?
    {
      var d := docs'[i];
      var k :| 0 <= k < |docs| && docs[k] == d;
      FindInFilter(infos, NotId(id), d.information);
    }
  }

  /** Deleting a University deletes its content of every kind and the documents under its
      Information rows. */
  function DeleteUniversityCascade(b: Board, u: UniversityId): (r: Board)
    ensures r.universities == b.universities - {u}
    ensures forall i :: 0 <= i < |r.information| ==> r.information[i].university != u
    ensures forall i :: 0 <= i < |r.news| ==> r.news[i].university != u
    ensures forall i :: 0 <= i < |r.notices| ==> r.notices[i].university != u
    ensures forall i :: 0 <= i < |r.translations| ==> r.translations[i].university != u
    ensures forall i :: 0 <= i < |r.documents| ==> DocumentUniversity(b.information, r.documents[i]) != Some(u)
    ensures forall i :: 0 <= i < |b.news| && b.news[i].university != u ==> b.news[i] in r.news
    ensures forall i :: 0 <= i < |b.notices| && b.notices[i].university != u ==> b.notices[i] in r.notices
    ensures forall i :: 0 <= i < |b.translations| && b.translations[i].university != u ==> b.translations[i] in r.translations
    ensures forall i :: 0 <= i < |b.information| && b.information[i].university != u ==> b.information[i] in r.information
    ensures forall i :: 0 <= i < |b.documents| && DocumentUniversity(b.information, b.documents[i]) != Some(u)
              ==> b.documents[i] in r.documents
  {
    Board(b.universities - {u},
          Filter(b.news, NotOwnedBy(u)),
          Filter(b.notices, NotOwnedBy(u)),
          Filter(b.translations, NotOwnedBy(u)),
          Filter(b.information, NotOwnedBy(u)),
          Filter(b.documents, NotUnder(b.information, u)))
  }

  /** The university cascade keeps the board well formed: no row refers to the deleted
      university and no document is left without its Information row. */
  lemma DeleteUniversityKeepsWellFormed(b: Board, u: UniversityId)
    requires WellFormed(b)
    ensures WellFormed(DeleteUniversityCascade(b, u))
  {
    var infos' := Filter(b.information, NotOwnedBy(u));
    var docs' := Filter(b.documents, NotUnder(b.information, u));
    FilterKeepsOwned(b.news, News, b.universities, u);
    FilterKeepsOwned(b.notices, Notice, b.universities, u);
    FilterKeepsOwned(b.translations, Translation, b.universities, u);
    FilterKeepsOwned(b.information, Information, b.universities, u);
    FilterKeepsUniqueDocs(b.documents, NotUnder(b.information, u));
    forall i | 0 <= i < |docs'|
      ensures FindContent(infos', docs'[i].information).Some?
    {
      var d := docs'[i];
      var k :| 0 <= k < |b.documents| && b.documents[k] == d;
      FindInFilter(b.information, NotOwnedBy(u), d.information);
    }
  }

  lemma FilterKeepsOwned(rows: seq<Content>, kind: ContentKind, universities: set<UniversityId>, u: UniversityId)
    requires TableOwned(rows, kind, universities)
    ensures TableOwned(Filter(rows, NotOwnedBy(u)), kind, universities - {u})
  {
    FilterKeepsUniqueContent(rows, NotOwnedBy(u));
  }

  lemma FilterKeepsTableOwned(rows: seq<Content>, kind: ContentKind, universities: set<UniversityId>, p: Content -> bool)
    requires TableOwned(rows, kind, universities)
    ensures TableOwned(Filter(rows, p), kind, universities)
  {
    FilterKeepsUniqueContent(rows, p);
  }

  lemma {:induction false} FilterKeepsUniqueContent(rows: seq<Content>, p: Content -> bool)
    requires UniqueContentIds(rows)
    ensures UniqueContentIds(Filter(rows, p))
  {
    if |rows| > 0 {
      FilterKeepsUniqueContent(rows[1..], p);
      var rest := Filter(rows[1..], p);
      forall j | 0 <= j < |rest|
        ensures rest[j].id != rows[0].id
      {
        var k :| 0 <= k < |rows[1..]| && rows[1..][k] == rest[j];
        assert rows[k + 1] == rest[j];
      }
    }
  }

  lemma {:induction false} FilterKeepsUniqueDocs(docs: seq<Document>, p: Document -> bool)
    requires UniqueDocumentIds(docs)
    ensures UniqueDocumentIds(Filter(docs, p))
  {
    if |docs| > 0 {
      FilterKeepsUniqueDocs(docs[1..], p);
      var rest := Filter(docs[1..], p);
      forall j | 0 <= j < |rest|
        ensures rest[j].id != docs[0].id
      {
        var k :| 0 <= k < |docs[1..]| && docs[1..][k] == rest[j];
        assert docs[k + 1] == rest[j];
      }
    }
  }

  // ---------------------------------------------------------------------------
  // __str__

  /** `__str__` of News, Notice and Information is the Uzbek title, of Translation the
      Uzbek title followed by " Translation"; the Korean title is never used. */
  function ContentStr(c: Content): (r: string)
    ensures |r| >= |c.titleUz| && r[..|c.titleUz|] == c.titleUz
    ensures c.kind == Translation ==> r[|c.titleUz|..] == " Translation"
    ensures c.kind != Translation ==> |r| == |c.titleUz|
  {
    match c.kind
    case Translation => c.titleUz + " Translation"
    case _ => c.titleUz
  }

  /** `__str__` of a document names the Uzbek title of its Information. */
  function DocumentStr(info: Content): (r: string)
    ensures |r| == |"Document for "| + |info.titleUz|
    ensures r[..|"Document for "|] == "Document for "
    ensures r[|"Document for "|..] == info.titleUz
  {
    "Document for " + info.titleUz
  }

  /** The Information's Uzbek title read back from a document's `__str__`, when the text
      has the document form. */
  function DocumentStrTitle(s: string): (r: Option<string>)
    ensures r.Some? <==> |s| >= |"Document for "| && s[..|"Document for "|] == "Document for "
    ensures r.Some? ==> s == "Document for " + r.value
  {
    var n := |"Document for "|;
    if |s| >= n && s[..n] == "Document for " then Some(s[n..]) else None
  }

  /** A document's `__str__` names its Information's Uzbek title and nothing else. */
  lemma DocumentStrReadsBack(info: Content)
    ensures DocumentStrTitle(DocumentStr(info)) == Some(info.titleUz)
  {
    var r := DocumentStr(info);
    assert r == r[..|"Document for "|] + r[|"Document for "|..];
  }

  /** `__str__` of board content never looks at the Korean title, even when the Uzbek one is empty. */
  lemma ContentStrIgnoresKorean(c: Content, ko: string)
    ensures ContentStr(c.(titleKo := ko)) == ContentStr(c)
  {
  }
}
