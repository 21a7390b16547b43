/** Properties relating the board endpoints to one another and to the board's integrity:
    list and detail agree for single-role callers and disagree for a caller in both staff
    groups; a created row is visible to its creator; every write keeps the board well
    formed and leaves the other rows alone; and the document update lets a university
    staff member move a document out of their own university.
 */
module BoardProperties {
  import opened Wrappers
  import opened Seqs
  import opened Access
  import opened BoardModels
  import opened BoardSerializers
  import opened BoardViews

  // ---------------------------------------------------------------------------
  // Lookup facts

  /** With unique primary keys, lookup by a row's key finds that row. */
  lemma {:induction false} FindUnique(rows: seq<Content>, x: Content)
    requires UniqueContentIds(rows) && x in rows
    ensures FindContent(rows, x.id) == Some(x)
  {
    if rows[0] != x {
      var k :| 0 <= k < |rows| && rows[k] == x;
      assert rows[0].id != x.id;
      assert rows[1..][k - 1] == x;
      FindUnique(rows[1..], x);
    }
  }

  lemma {:induction false} FindDocumentUnique(docs: seq<Document>, x: Document)
    requires UniqueDocumentIds(docs) && x in docs
    ensures FindDocument(docs, x.id) == Some(x)
  {
    if docs[0] != x {
      var k :| 0 <= k < |docs| && docs[k] == x;
      assert docs[0].id != x.id;
      assert docs[1..][k - 1] == x;
      FindDocumentUnique(docs[1..], x);
    }
  }

  /** Appending a row does not change the lookup of a key already present. */
  lemma {:induction false} FindAppend(rows: seq<Content>, c: Content, id: nat)
    ensures FindContent(rows + [c], id) ==
            if FindContent(rows, id).Some? then FindContent(rows, id)
            else if c.id == id then Some(c) else None
  {
    if |rows| == 0 {
      assert rows + [c] == [c];
    } else {
      assert (rows + [c])[1..] == rows[1..] + [c];
      FindAppend(rows[1..], c, id);
    }
  }

  lemma {:induction false} FindDocumentAppend(docs: seq<Document>, d: Document, id: nat)
    ensures FindDocument(docs + [d], id) ==
            if FindDocument(docs, id).Some? then FindDocument(docs, id)
            else if d.id == id then Some(d) else None
  {
    if |docs| == 0 {
      assert docs + [d] == [d];
    } else {
      assert (docs + [d])[1..] == docs[1..] + [d];
      FindDocumentAppend(docs[1..], d, id);
    }
  }

  /** Replacing the row of `c`'s key changes the lookup of that key only. */
  lemma {:induction false} FindReplace(rows: seq<Content>, c: Content, id: nat)
    ensures FindContent(ReplaceRow(rows, c), id) ==
            match FindContent(rows, id)
            case None => None
            case Some(x) => Some(if x.id == c.id then c else x)
  {
    if |rows| > 0 {
      assert ReplaceRow(rows, c)[1..] == ReplaceRow(rows[1..], c);
      FindReplace(rows[1..], c, id);
    }
  }

  lemma {:induction false} FindDocumentReplace(docs: seq<Document>, d: Document, id: nat)
    ensures FindDocument(ReplaceDocument(docs, d), id) ==
            match FindDocument(docs, id)
            case None => None
            case Some(x) => Some(if x.id == d.id then d else x)
  {
    if |docs| > 0 {
      assert ReplaceDocument(docs, d)[1..] == ReplaceDocument(docs[1..], d);
      FindDocumentReplace(docs[1..], d, id);
    }
  }

  lemma TableOfWellFormed(b: Board, kind: ContentKind)
    requires WellFormed(b)
    ensures TableOwned(Table(b, kind), kind, b.universities)
  {
  }

  // ---------------------------------------------------------------------------
  // List and detail

  /** For a caller in at most one staff group, detail succeeds on a row exactly when the
      row is in the caller's list. */
  lemma ListDetailAgree(b: Board, kind: ContentKind, u: User, x: Content)
    requires UniqueContentIds(Table(b, kind)) && x in Table(b, kind)
    requires !(InGroup(u, UpsightStaff) && InGroup(u, UniversityStaff))
    ensures ContentList(b, kind, u).Ok? ==>
              (ContentDetail(b, kind, u, x.id).Ok? <==> x in ContentList(b, kind, u).value)
  {
    FindUnique(Table(b, kind), x);
    var l := ContentList(b, kind, u);
    if l.Ok? && InGroup(u, UpsightStaff) {
      assert x in multiset(Table(b, kind));
      assert x in multiset(l.value);
    }
  }

  /** A caller in both staff groups, linked to university `m`, lists another university's
      row (upsight staff comes first in the list filter) but is refused its detail (the
      detail check tests university staff membership). */
  lemma DualRoleListDetailMismatch(b: Board, kind: ContentKind, u: User, x: Content, m: UniversityId)
    requires UniqueContentIds(Table(b, kind)) && x in Table(b, kind)
    requires InGroup(u, UpsightStaff) && InGroup(u, UniversityStaff)
    requires u.manager == Some(ManagerLink(m)) && x.university != m
    ensures ContentList(b, kind, u).Ok? && x in ContentList(b, kind, u).value
    ensures ContentDetail(b, kind, u, x.id) == Forbidden
  {
    FindUnique(Table(b, kind), x);
    assert x in multiset(Table(b, kind));
    assert x in multiset(ContentList(b, kind, u).value);
  }

  /** The same caller's document list is scoped: it holds no document of another university,
      while the content list holds every row. */
  lemma DualRoleDocumentListScoped(b: Board, u: User, m: UniversityId)
    requires InGroup(u, UpsightStaff) && InGroup(u, UniversityStaff)
    requires u.manager == Some(ManagerLink(m))
    ensures DocumentList(b, u).Ok?
    ensures forall i :: 0 <= i < |DocumentList(b, u).value| ==>
              DocumentUniversity(b.information, DocumentList(b, u).value[i]) == Some(m)
    ensures multiset(ContentList(b, Information, u).value) == multiset(b.information)
  {
  }

  // ---------------------------------------------------------------------------
  // Writes

  /** What a caller creates, they can read back by its new primary key. */
  lemma CreateThenDetail(b: Board, kind: ContentKind, u: User, d: ContentData, now: int)
    requires ContentCreate(b, kind, u, d, now).Ok?
    ensures ContentDetail(ContentCreate(b, kind, u, d, now).value.0, kind, u,
                          ContentCreate(b, kind, u, d, now).value.1.id)
            == Ok(ContentCreate(b, kind, u, d, now).value.1)
  {
    var (b', c) := ContentCreate(b, kind, u, d, now).value;
    FindAppend(Table(b, kind), c, c.id);
  }

  lemma AppendKeepsAttached(docs: seq<Document>, infos: seq<Content>, c: Content)
    requires DocumentsAttached(docs, infos)
    ensures DocumentsAttached(docs, infos + [c])
  {
    forall i | 0 <= i < |docs| ensures FindContent(infos + [c], docs[i].information).Some? {
      FindAppend(infos, c, docs[i].information);
    }
  }

  lemma ReplaceKeepsAttached(docs: seq<Document>, infos: seq<Content>, c: Content)
    requires DocumentsAttached(docs, infos)
    ensures DocumentsAttached(docs, ReplaceRow(infos, c))
  {
    forall i | 0 <= i < |docs| ensures FindContent(ReplaceRow(infos, c), docs[i].information).Some? {
      FindReplace(infos, c, docs[i].information);
    }
  }

  /** Content creation keeps the board well formed. */
  lemma CreateKeepsWellFormed(b: Board, kind: ContentKind, u: User, d: ContentData, now: int)
    requires WellFormed(b) && ContentCreate(b, kind, u, d, now).Ok?
    ensures WellFormed(ContentCreate(b, kind, u, d, now).value.0)
  {
    var (b', c) := ContentCreate(b, kind, u, d, now).value;
    var rows := Table(b, kind);
    TableOfWellFormed(b, kind);
    assert TableOwned(rows + [c], kind, b.universities) by {
      forall i, j | 0 <= i < j < |rows + [c]| ensures (rows + [c])[i].id != (rows + [c])[j].id {
        if j == |rows| {
          assert (rows + [c])[i] == rows[i];
        } else {
          assert (rows + [c])[i] == rows[i] && (rows + [c])[j] == rows[j];
        }
      }
    }
    if kind == Information {
      AppendKeepsAttached(b.documents, b.information, c);
    }
  }

  /** Content update keeps the board well formed. */
  lemma UpdateKeepsWellFormed(b: Board, kind: ContentKind, u: User, id: nat, d: ContentData, partial: bool)
    requires WellFormed(b) && ContentUpdate(b, kind, u, id, d, partial).Ok?
    ensures WellFormed(ContentUpdate(b, kind, u, id, d, partial).value.0)
  {
    var (b', c) := ContentUpdate(b, kind, u, id, d, partial).value;
    var rows := Table(b, kind);
    TableOfWellFormed(b, kind);
    var old_row := Locate(b, kind, u, id).value;
    assert c.university in b.universities;
    assert TableOwned(ReplaceRow(rows, c), kind, b.universities);
    if kind == Information {
      ReplaceKeepsAttached(b.documents, b.information, c);
    }
  }

  /** Content update changes the addressed row only. */
  lemma UpdateTouchesOnlyRow(b: Board, kind: ContentKind, u: User, id: nat, d: ContentData, partial: bool, other: nat)
    requires ContentUpdate(b, kind, u, id, d, partial).Ok? && other != id
    ensures FindContent(Table(ContentUpdate(b, kind, u, id, d, partial).value.0, kind), other) ==
            FindContent(Table(b, kind), other)
  {
    var c := ContentUpdate(b, kind, u, id, d, partial).value.1;
    FindReplace(Table(b, kind), c, other);
  }

  /** Content deletion keeps the board well formed (documents go with their Information). */
  lemma DeleteKeepsWellFormed(b: Board, kind: ContentKind, u: User, id: nat)
    requires WellFormed(b) && ContentDelete(b, kind, u, id).Ok?
    ensures WellFormed(ContentDelete(b, kind, u, id).value)
  {
    DeleteRowKeepsWellFormed(b, kind, id);
  }

  lemma DeleteRowKeepsWellFormed(b: Board, kind: ContentKind, id: nat)
    requires WellFormed(b)
    ensures WellFormed(DeleteRow(b, kind, id))
  {
    match kind
    case News =>
      FilterKeepsTableOwned(b.news, News, b.universities, NotId(id));
      assert DeleteRow(b, kind, id) == b.(news := Filter(b.news, NotId(id)));
    case Notice =>
      FilterKeepsTableOwned(b.notices, Notice, b.universities, NotId(id));
      assert DeleteRow(b, kind, id) == b.(notices := Filter(b.notices, NotId(id)));
    case Translation =>
      FilterKeepsTableOwned(b.translations, Translation, b.universities, NotId(id));
      assert DeleteRow(b, kind, id) == b.(translations := Filter(b.translations, NotId(id)));
    case Information =>
      var (infos, docs) := DeleteInformationCascade(b.information, b.documents, id);
      FilterKeepsTableOwned(b.information, Information, b.universities, NotId(id));
      DeleteInformationKeepsAttached(b.information, b.documents, id);
      FilterKeepsUniqueDocs(b.documents, NotAttachedTo(id));
      assert DeleteRow(b, kind, id) == b.(information := infos, documents := docs);
  }

  /** Document creation keeps the board well formed. */
  lemma DocumentCreateKeepsWellFormed(b: Board, u: User, d: DocumentData)
    requires WellFormed(b) && DocumentCreate(b, u, d).Ok?
    ensures WellFormed(DocumentCreate(b, u, d).value.0)
  {
    var (b', doc) := DocumentCreate(b, u, d).value;
    var docs := b.documents;
    forall i, j | 0 <= i < j < |docs + [doc]| ensures (docs + [doc])[i].id != (docs + [doc])[j].id {
      assert (docs + [doc])[i] == docs[i];
    }
    forall i | 0 <= i < |docs + [doc]| ensures FindContent(b.information, (docs + [doc])[i].information).Some? {
      if i < |docs| {
        assert (docs + [doc])[i] == docs[i];
      }
    }
  }

  /** Document update keeps the board well formed. */
  lemma DocumentUpdateKeepsWellFormed(b: Board, u: User, id: nat, d: DocumentData, partial: bool)
    requires WellFormed(b) && DocumentUpdate(b, u, id, d, partial).Ok?
    ensures WellFormed(DocumentUpdate(b, u, id, d, partial).value.0)
  {
    var doc := DocumentUpdate(b, u, id, d, partial).value.1;
    var prev := LocateDocument(b, u, id).value;
    if d.information.None? {
      var k :| 0 <= k < |b.documents| && b.documents[k] == prev;
      assert FindContent(b.information, doc.information).Some?;
    }
    ReplaceDocumentKeepsIntegrity(b.documents, b.information, doc);
  }

  /** Replacing a document by one attached to an existing Information row keeps the
      documents unique and attached. */
  lemma ReplaceDocumentKeepsIntegrity(docs: seq<Document>, infos: seq<Content>, doc: Document)
    requires UniqueDocumentIds(docs) && DocumentsAttached(docs, infos)
    requires FindContent(infos, doc.information).Some?
    ensures UniqueDocumentIds(ReplaceDocument(docs, doc))
    ensures DocumentsAttached(ReplaceDocument(docs, doc), infos)
  {
  }

  /** The document a caller creates is theirs to read back. */
  lemma DocumentCreateThenDetail(b: Board, u: User, d: DocumentData)
    requires DocumentCreate(b, u, d).Ok?
    ensures DocumentDetail(DocumentCreate(b, u, d).value.0, u, DocumentCreate(b, u, d).value.1.id)
            == Ok(DocumentCreate(b, u, d).value.1)
  {
    var (b', doc) := DocumentCreate(b, u, d).value;
    FindDocumentAppend(b.documents, doc, doc.id);
  }

  /** Deleting a document keeps the board well formed. */
  lemma DocumentDeleteKeepsWellFormed(b: Board, u: User, id: nat)
    requires WellFormed(b) && DocumentDelete(b, u, id).Ok?
    ensures WellFormed(DocumentDelete(b, u, id).value)
  {
    var docs := Filter(b.documents, NotDocId(id));
    FilterKeepsUniqueDocs(b.documents, NotDocId(id));
    forall i | 0 <= i < |docs| ensures FindContent(b.information, docs[i].information).Some? {
      var k :| 0 <= k < |b.documents| && b.documents[k] == docs[i];
    }
    assert DocumentDelete(b, u, id).value == b.(documents := docs);
  }

  // ---------------------------------------------------------------------------
  // Image and file flags

  /** A created row reports an image exactly when a non-empty image was uploaded with it. */
  lemma CreatedImageShown(b: Board, kind: ContentKind, u: User, d: ContentData, now: int)
    requires ContentCreate(b, kind, u, d, now).Ok?
    ensures HasImage(ContentCreate(b, kind, u, d, now).value.1) <==> d.image.Some? && d.image.value != ""
  {
  }

  /** An update that uploads no image keeps whether the row reports one; one that uploads a
      non-empty image makes it report one. */
  lemma UpdatedImageShown(b: Board, kind: ContentKind, u: User, id: nat, d: ContentData, partial: bool)
    requires ContentUpdate(b, kind, u, id, d, partial).Ok?
    ensures d.image.None? ==>
              (HasImage(ContentUpdate(b, kind, u, id, d, partial).value.1) <==> HasImage(Locate(b, kind, u, id).value))
    ensures d.image.Some? && d.image.value != "" ==> HasImage(ContentUpdate(b, kind, u, id, d, partial).value.1)
  {
    var c := Locate(b, kind, u, id).value;
    assert KeepUniversity(u, c, d).image == d.image;
  }

  /** Every document the endpoints write reports a file: a create must upload one and an
      update cannot blank it. */
  lemma CreatedDocumentHasFile(b: Board, u: User, d: DocumentData)
    requires DocumentCreate(b, u, d).Ok?
    ensures HasFile(DocumentCreate(b, u, d).value.1)
  {
  }

  lemma UpdatedDocumentKeepsFile(b: Board, u: User, id: nat, d: DocumentData, partial: bool)
    requires DocumentUpdate(b, u, id, d, partial).Ok? && HasFile(LocateDocument(b, u, id).value)
    ensures HasFile(DocumentUpdate(b, u, id, d, partial).value.1)
  {
  }

  // ---------------------------------------------------------------------------
  // The document update is not re-scoped

  const Info1: Content := Content(1, Information, "a", "a", "a", "a", None, Some(0), 1)
  const Info2: Content := Content(2, Information, "b", "b", "b", "b", None, Some(0), 2)
  const Doc1: Document := Document(1, 1, "f.pdf", "d", "d")
  const Witness: Board := Board({1, 2}, [], [], [], [Info1, Info2], [Doc1])
  const Staff1: User := User([UniversityStaff], Some(ManagerLink(1)))

  /** A manager of university 1 may PATCH their document onto university 2's Information:
      the update succeeds, and afterwards the document is no longer theirs to read. */
  lemma DocumentUpdateEscapesScope()
    ensures WellFormed(Witness)
    ensures DocumentDetail(Witness, Staff1, 1).Ok?
    ensures DocumentUpdate(Witness, Staff1, 1, DocumentData(Some(2), Some("d"), None, None), true).Ok?
    ensures DocumentDetail(DocumentUpdate(Witness, Staff1, 1, DocumentData(Some(2), Some("d"), None, None), true).value.0,
                           Staff1, 1) == Forbidden
  {
    var d := DocumentData(Some(2), Some("d"), None, None);
    assert FindContent(Witness.information, 1) == Some(Info1);
    assert FindContent(Witness.information, 2) == Some(Info2);
    assert FindDocument(Witness.documents, 1) == Some(Doc1);
    var b' := DocumentUpdate(Witness, Staff1, 1, d, true).value.0;
    assert b'.documents == [Doc1.(information := 2)];
    assert FindDocument(b'.documents, 1) == Some(Doc1.(information := 2));
  }
}
