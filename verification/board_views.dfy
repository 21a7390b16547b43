/** The board endpoints: list, detail, create, update and delete for News, Notice,
    Translation and Information, and the same five for InformationDocuments.

 Every endpoint first admits only members of "upsight_staff" or "university_staff"
 (Forbidden otherwise). Detail, update and delete then look the row up (NotFound), and a
 member of "university_staff" must own it (Forbidden) — checked even when the caller is
 also in "upsight_staff". Lists go through `filter_by_permissions`, which checks
 "upsight_staff" first, except the document list, which checks "university_staff" first.
 The four content groups of endpoints are textual copies of one another, so one set of
 functions serves all four, selected by the content kind.
 */
module BoardViews {
  import opened Wrappers
  import opened Seqs
  import opened Sorting
  import opened Access
  import opened BoardModels
  import opened BoardSerializers

  // ---------------------------------------------------------------------------
  // Tables by kind

  function Table(b: Board, kind: ContentKind): seq<Content> {
    match kind
    case News => b.news
    case Notice => b.notices
    case Translation => b.translations
    case Information => b.information
  }

  function WithTable(b: Board, kind: ContentKind, rows: seq<Content>): (r: Board)
    ensures Table(r, kind) == rows
    ensures forall k :: k != kind ==> Table(r, k) == Table(b, k)
    ensures r.universities == b.universities && r.documents == b.documents
  {
    match kind
    case News => b.(news := rows)
    case Notice => b.(notices := rows)
    case Translation => b.(translations := rows)
    case Information => b.(information := rows)
  }

  function ContentOwner(c: Content): Option<UniversityId> {
    Some(c.university)
  }

  function Date(c: Content): int {
    c.date.GetOr(0)
  }

  /** News, Notice and Information lists are `order_by('-date')`; Translation has no date
      and its list keeps the table's order. */
  function Ordered(kind: ContentKind, rows: seq<Content>): (r: seq<Content>)
    ensures multiset(r) == multiset(rows)
    ensures kind != Translation ==> SortedDesc(r, Date)
  {
    if kind == Translation then rows else SortDesc(rows, Date)
  }

  /** Ordering a list neither adds nor drops rows. */
  lemma OrderedMembers(kind: ContentKind, rows: seq<Content>)
    ensures forall x :: x in Ordered(kind, rows) <==> x in rows
  {
    forall x ensures x in Ordered(kind, rows) <==> x in rows {
      assert x in Ordered(kind, rows) <==> x in multiset(Ordered(kind, rows));
      assert x in rows <==> x in multiset(rows);
    }
  }

  /** A scoped list keeps every row of the caller's university. */
  lemma ScopedListComplete(rows: seq<Content>, u: User)
    ensures !InGroup(u, UpsightStaff) ==>
              forall x :: x in rows && Some(x.university) == UserUniversity(u) ==> x in FilterByPermissions(rows, ContentOwner, u)
  {
    forall x | !InGroup(u, UpsightStaff) && x in rows && Some(x.university) == UserUniversity(u)
      ensures x in FilterByPermissions(rows, ContentOwner, u)
    {
      var j :| 0 <= j < |rows| && rows[j] == x;
    }
  }

  /** `obj.objects.get(id=...)` followed by the ownership check, shared by detail, update
      and delete. */
  function Locate(b: Board, kind: ContentKind, u: User, id: nat): (r: Outcome<Content>)
    ensures !IsStaff(u) ==> r == Forbidden
    ensures IsStaff(u) && FindContent(Table(b, kind), id).None? ==> r == NotFound
    ensures (IsStaff(u) && FindContent(Table(b, kind), id).Some? &&
             !InScope(u, Some(FindContent(Table(b, kind), id).value.university))) ==> r == Forbidden
    ensures r.Ok? <==> IsStaff(u) && FindContent(Table(b, kind), id).Some?
                       && InScope(u, Some(FindContent(Table(b, kind), id).value.university))
    ensures r.Ok? ==> r.value in Table(b, kind) && r.value.id == id
    ensures r.Forbidden? || r.NotFound? || r.Ok?
  {
    if !IsStaff(u) then Forbidden
    else
      match FindContent(Table(b, kind), id)
      case None => NotFound
      case Some(c) => if InScope(u, Some(c.university)) then Ok(c) else Forbidden
  }

  // ---------------------------------------------------------------------------
  // Content endpoints

  /** `news_list`, `notices_list`, `translations_list`, `information_list`. */
  function ContentList(b: Board, kind: ContentKind, u: User): (r: Outcome<seq<Content>>)
    ensures r.Ok? <==> IsStaff(u)
    ensures !r.Ok? ==> r == Forbidden
    ensures r.Ok? ==> forall i :: 0 <= i < |r.value| ==> r.value[i] in Table(b, kind)
    ensures r.Ok? && InGroup(u, UpsightStaff) ==> multiset(r.value) == multiset(Table(b, kind))
    ensures r.Ok? && !InGroup(u, UpsightStaff) ==>
              forall i :: 0 <= i < |r.value| ==> Some(r.value[i].university) == UserUniversity(u)
    ensures r.Ok? && !InGroup(u, UpsightStaff) ==>
              forall x :: x in Table(b, kind) && Some(x.university) == UserUniversity(u) ==> x in r.value
    ensures r.Ok? && kind != Translation ==> SortedDesc(r.value, Date)
  {
    if !IsStaff(u) then Forbidden
    else
      var rows := Ordered(kind, Table(b, kind));
      OrderedMembers(kind, Table(b, kind));
      ScopedListComplete(rows, u);
      var scoped := FilterByPermissions(rows, ContentOwner, u);
      assert kind != Translation ==> SortedDesc(scoped, Date) by {
        if kind != Translation {
          FilterByPermissionsSorted(rows, ContentOwner, u, Date);
        }
      }
      Ok(scoped)
  }

  /** `news_detail` and its copies. */
  function ContentDetail(b: Board, kind: ContentKind, u: User, id: nat): (r: Outcome<Content>)
    ensures !IsStaff(u) ==> r == Forbidden
    ensures IsStaff(u) && FindContent(Table(b, kind), id).None? ==> r == NotFound
    ensures (IsStaff(u) && FindContent(Table(b, kind), id).Some? &&
             !InScope(u, Some(FindContent(Table(b, kind), id).value.university))) ==> r == Forbidden
    ensures r.Ok? <==> IsStaff(u) && FindContent(Table(b, kind), id).Some?
                       && InScope(u, Some(FindContent(Table(b, kind), id).value.university))
    ensures r.Ok? ==> r.value in Table(b, kind) && r.value.id == id
  {
    Locate(b, kind, u, id)
  }

  /** The stored date of a new row: `auto_now_add` for every kind but Translation. */
  function CreatedDate(kind: ContentKind, now: int): Option<int> {
    if kind == Translation then None else Some(now)
  }

  /** The request data after the view forces the caller's university onto it. */
  function ForceUniversity(u: User, d: ContentData): (r: Outcome<ContentData>)
    ensures r.Ok? <==> !InGroup(u, UniversityStaff) || UserUniversity(u).Some?
    ensures !r.Ok? ==> r == BadRequest
    ensures r.Ok? && InGroup(u, UniversityStaff) ==> r.value == d.(university := UserUniversity(u))
    ensures r.Ok? && !InGroup(u, UniversityStaff) ==> r.value == d
  {
    if InGroup(u, UniversityStaff) then
      match UserUniversity(u)
      case None => BadRequest
      case Some(uni) => Ok(d.(university := Some(uni)))
    else Ok(d)
  }

  /** `news_create` and its copies. A member of "university_staff" always creates for their
      own university, whatever the request names; a validly created row is appended with a
      fresh primary key. `now` is the clock reading used for `auto_now_add`. */
  function ContentCreate(b: Board, kind: ContentKind, u: User, d: ContentData, now: int): (r: Outcome<(Board, Content)>)
    ensures !IsStaff(u) ==> r == Forbidden
    ensures IsStaff(u) && InGroup(u, UniversityStaff) && UserUniversity(u).None? ==> r == BadRequest
    ensures r.Ok? ==> IsStaff(u)
    ensures r.Ok? && InGroup(u, UniversityStaff) ==> Some(r.value.1.university) == UserUniversity(u)
    ensures r.Ok? && !InGroup(u, UniversityStaff) ==> d.university == Some(r.value.1.university)
    ensures r.Ok? ==> r.value.1.university in b.universities && r.value.1.kind == kind
    ensures r.Ok? ==> FindContent(Table(b, kind), r.value.1.id).None?
    ensures r.Ok? ==> Table(r.value.0, kind) == Table(b, kind) + [r.value.1]
    ensures r.Ok? ==> forall k :: k != kind ==> Table(r.value.0, k) == Table(b, k)
    ensures r.Ok? ==> r.value.0.documents == b.documents && r.value.0.universities == b.universities
    ensures r.Ok? ==> Title(r.value.1) != "" && Body(r.value.1) != ""
    ensures IsStaff(u) && ForceUniversity(u, d).Ok? ==>
              (r.Ok? <==> ContentIsValid(ForceUniversity(u, d).value, false, b.universities))
    ensures r.Ok? ==> d.titleUz == Some(r.value.1.titleUz) && d.titleKo == Some(r.value.1.titleKo)
    ensures r.Ok? ==> d.contentUz == Some(r.value.1.contentUz) && d.contentKo == Some(r.value.1.contentKo)
    ensures r.Ok? ==> r.value.1.image == d.image && r.value.1.date == CreatedDate(kind, now)
    ensures !r.Ok? ==> r == Forbidden || r == BadRequest
  {
    if !IsStaff(u) then Forbidden
    else
      match ForceUniversity(u, d)
      case Ok(d') =>
        if !ContentIsValid(d', false, b.universities) then BadRequest
        else
          var rows := Table(b, kind);
          var c := Content(NextContentId(rows), kind,
                           d'.titleUz.value, d'.titleKo.value, d'.contentUz.value, d'.contentKo.value,
                           d'.image, CreatedDate(kind, now), d'.university.value);
          Ok((WithTable(b, kind, rows + [c]), c))
      case _ => BadRequest
  }

  /** The table with the row of `c`'s primary key replaced by `c`. */
  function ReplaceRow(rows: seq<Content>, c: Content): (r: seq<Content>)
    ensures |r| == |rows|
    ensures forall i :: 0 <= i < |rows| ==> r[i] == (if rows[i].id == c.id then c else rows[i])
  {
    seq(|rows|, i requires 0 <= i < |rows| => if rows[i].id == c.id then c else rows[i])
  }

  /** The request data of an update after the view pins a university_staff caller's row to
      its current university. */
  function KeepUniversity(u: User, c: Content, d: ContentData): (r: ContentData)
    ensures InGroup(u, UniversityStaff) ==> r.university == Some(c.university)
    ensures !InGroup(u, UniversityStaff) ==> r.university == d.university
    ensures r.(university := d.university) == d
  {
    if InGroup(u, UniversityStaff) then d.(university := Some(c.university)) else d
  }

  /** `news_update` and its copies: PUT is a full write, PATCH (`partial`) a partial one.
      A member of "university_staff" cannot move the row to another university: the view
      overwrites `university` with the row's current one. */
  function ContentUpdate(b: Board, kind: ContentKind, u: User, id: nat, d: ContentData, partial: bool): (r: Outcome<(Board, Content)>)
    ensures !IsStaff(u) ==> r == Forbidden
    ensures IsStaff(u) && FindContent(Table(b, kind), id).None? ==> r == NotFound
    ensures r.Ok? ==> Locate(b, kind, u, id).Ok?
    ensures r.Ok? ==> r.value.1.id == id && r.value.1.kind == Locate(b, kind, u, id).value.kind
    ensures r.Ok? && InGroup(u, UniversityStaff) ==> r.value.1.university == Locate(b, kind, u, id).value.university
    ensures r.Ok? ==> r.value.1.university in b.universities || (partial && d.university.None?)
    ensures r.Ok? ==> Table(r.value.0, kind) == ReplaceRow(Table(b, kind), r.value.1)
    ensures r.Ok? ==> forall k :: k != kind ==> Table(r.value.0, k) == Table(b, k)
    ensures r.Ok? ==> r.value.0.documents == b.documents && r.value.0.universities == b.universities
    ensures Locate(b, kind, u, id).Forbidden? ==> r == Forbidden
    ensures Locate(b, kind, u, id).NotFound? ==> r == NotFound
    ensures Locate(b, kind, u, id).Ok? ==>
              (r.Ok? <==> ContentIsValid(KeepUniversity(u, Locate(b, kind, u, id).value, d), partial, b.universities))
    ensures r.Ok? ==> r.value.1 == ApplyContent(Locate(b, kind, u, id).value, KeepUniversity(u, Locate(b, kind, u, id).value, d))
  {
    match Locate(b, kind, u, id)
    case Ok(c) =>
      var d' := KeepUniversity(u, c, d);
      if !ContentIsValid(d', partial, b.universities) then BadRequest
      else
        var c' := ApplyContent(c, d');
        Ok((WithTable(b, kind, ReplaceRow(Table(b, kind), c')), c'))
    case Forbidden => Forbidden
    case NotFound => NotFound
    case BadRequest => BadRequest
  }

  /** `news_delete` and its copies; deleting an Information row cascades to its documents. */
  function ContentDelete(b: Board, kind: ContentKind, u: User, id: nat): (r: Outcome<Board>)
    ensures !IsStaff(u) ==> r == Forbidden
    ensures IsStaff(u) && FindContent(Table(b, kind), id).None? ==> r == NotFound
    ensures r.Ok? <==> Locate(b, kind, u, id).Ok?
    ensures Locate(b, kind, u, id).Forbidden? ==> r == Forbidden
    ensures Locate(b, kind, u, id).NotFound? ==> r == NotFound
    ensures r.Ok? ==> FindContent(Table(r.value, kind), id).None?
    ensures r.Ok? ==> forall i :: 0 <= i < |Table(b, kind)| && Table(b, kind)[i].id != id
                        ==> Table(b, kind)[i] in Table(r.value, kind)
    ensures r.Ok? ==> forall k :: k != kind ==> Table(r.value, k) == Table(b, k)
    ensures r.Ok? && kind != Information ==> r.value.documents == b.documents
    ensures r.Ok? && kind == Information ==>
              forall i :: 0 <= i < |r.value.documents| ==> r.value.documents[i].information != id
    ensures r.Ok? && kind == Information ==>
              forall i :: 0 <= i < |b.documents| && b.documents[i].information != id ==> b.documents[i] in r.value.documents
  {
    match Locate(b, kind, u, id)
    case Ok(_) => Ok(DeleteRow(b, kind, id))
    case Forbidden => Forbidden
    case NotFound => NotFound
    case BadRequest => BadRequest
  }

  /** The board after `obj.delete()`: the row is gone, with its documents for Information. */
  function DeleteRow(b: Board, kind: ContentKind, id: nat): (r: Board)
    ensures FindContent(Table(r, kind), id).None?
    ensures forall i :: 0 <= i < |Table(b, kind)| && Table(b, kind)[i].id != id
              ==> Table(b, kind)[i] in Table(r, kind)
    ensures forall k :: k != kind ==> Table(r, k) == Table(b, k)
    ensures r.universities == b.universities
    ensures kind != Information ==> r.documents == b.documents
    ensures kind == Information ==> forall i :: 0 <= i < |r.documents| ==> r.documents[i].information != id
    ensures kind == Information ==>
              forall i :: 0 <= i < |b.documents| && b.documents[i].information != id ==> b.documents[i] in r.documents
  {
    if kind == Information then
      var (infos, docs) := DeleteInformationCascade(b.information, b.documents, id);
      var r := WithTable(b.(documents := docs), Information, infos);
      assert forall k :: Table(b.(documents := docs), k) == Table(b, k);
      r
    else
      WithTable(b, kind, Filter(Table(b, kind), NotId(id)))
  }

  // ---------------------------------------------------------------------------
  // Document endpoints

  function DocumentOwner(infos: seq<Content>): Document -> Option<UniversityId> {
    (d: Document) => DocumentUniversity(infos, d)
  }

  /** `information_documents_list`: unlike `filter_by_permissions`, membership of
      "university_staff" is checked first, so a caller in both groups sees only their own
      university's documents. */
  function DocumentList(b: Board, u: User): (r: Outcome<seq<Document>>)
    ensures r.Ok? <==> IsStaff(u)
    ensures !r.Ok? ==> r == Forbidden
    ensures r.Ok? ==> forall i :: 0 <= i < |r.value| ==> r.value[i] in b.documents
    ensures r.Ok? && !InGroup(u, UniversityStaff) ==> r.value == b.documents
    ensures r.Ok? && InGroup(u, UniversityStaff) ==>
              forall i :: 0 <= i < |r.value| ==>
                UserUniversity(u).Some? && DocumentUniversity(b.information, r.value[i]) == UserUniversity(u)
    ensures r.Ok? && InGroup(u, UniversityStaff) && UserUniversity(u).Some? ==>
              forall i :: 0 <= i < |b.documents| && DocumentUniversity(b.information, b.documents[i]) == UserUniversity(u)
                ==> b.documents[i] in r.value
  {
    if !IsStaff(u) then Forbidden
    else if InGroup(u, UniversityStaff) then
      match UserUniversity(u)
      case Some(uni) => Ok(OwnedBy(b.documents, DocumentOwner(b.information), uni))
      case None => Ok([])
    else Ok(b.documents)
  }

  /** Lookup and ownership check of a document, through its Information row. */
  function LocateDocument(b: Board, u: User, id: nat): (r: Outcome<Document>)
    ensures !IsStaff(u) ==> r == Forbidden
    ensures IsStaff(u) && FindDocument(b.documents, id).None? ==> r == NotFound
    ensures (IsStaff(u) && FindDocument(b.documents, id).Some? &&
             !InScope(u, DocumentUniversity(b.information, FindDocument(b.documents, id).value))) ==> r == Forbidden
    ensures r.Ok? <==> IsStaff(u) && FindDocument(b.documents, id).Some?
                       && InScope(u, DocumentUniversity(b.information, FindDocument(b.documents, id).value))
    ensures r.Ok? ==> r.value in b.documents && r.value.id == id
    ensures r.Forbidden? || r.NotFound? || r.Ok?
  {
    if !IsStaff(u) then Forbidden
    else
      match FindDocument(b.documents, id)
      case None => NotFound
      case Some(doc) => if InScope(u, DocumentUniversity(b.information, doc)) then Ok(doc) else Forbidden
  }

  /** `information_document_detail`. */
  function DocumentDetail(b: Board, u: User, id: nat): (r: Outcome<Document>)
    ensures !IsStaff(u) ==> r == Forbidden
    ensures IsStaff(u) && FindDocument(b.documents, id).None? ==> r == NotFound
    ensures (IsStaff(u) && FindDocument(b.documents, id).Some? &&
             !InScope(u, DocumentUniversity(b.information, FindDocument(b.documents, id).value))) ==> r == Forbidden
    ensures r.Ok? <==> IsStaff(u) && FindDocument(b.documents, id).Some?
                       && InScope(u, DocumentUniversity(b.information, FindDocument(b.documents, id).value))
    ensures r.Ok? ==> r.value in b.documents && r.value.id == id
  {
    LocateDocument(b, u, id)
  }

  /** `information_document_create`. A member of "university_staff" must name an existing
      Information row (BadRequest otherwise) of their own university (Forbidden otherwise);
      only then does the serializer run. */
  function DocumentCreate(b: Board, u: User, d: DocumentData): (r: Outcome<(Board, Document)>)
    ensures !IsStaff(u) ==> r == Forbidden
    ensures IsStaff(u) && InGroup(u, UniversityStaff) && d.information.None? ==> r == BadRequest
    ensures (IsStaff(u) && InGroup(u, UniversityStaff) && d.information.Some? &&
             FindContent(b.information, d.information.value).None?) ==> r == BadRequest
    ensures r.Ok? ==> IsStaff(u) && d.information == Some(r.value.1.information)
    ensures r.Ok? ==> FindContent(b.information, r.value.1.information).Some?
    ensures r.Ok? && InGroup(u, UniversityStaff) ==>
              DocumentUniversity(b.information, r.value.1) == UserUniversity(u) && UserUniversity(u).Some?
    ensures r.Ok? ==> FindDocument(b.documents, r.value.1.id).None?
    ensures r.Ok? ==> r.value.0 == b.(documents := b.documents + [r.value.1])
    ensures r.Ok? ==> DocumentTitle(r.value.1) != ""
    ensures (IsStaff(u) && InGroup(u, UniversityStaff) && d.information.Some? &&
             FindContent(b.information, d.information.value).Some? &&
             UserUniversity(u) != Some(FindContent(b.information, d.information.value).value.university)) ==> r == Forbidden
    ensures r.Ok? <==> IsStaff(u) && DocumentIsValid(d, false, b.information) &&
                       (InGroup(u, UniversityStaff) ==>
                          d.information.Some? && FindContent(b.information, d.information.value).Some? &&
                          UserUniversity(u) == Some(FindContent(b.information, d.information.value).value.university))
    ensures r.Ok? ==> d.file == Some(r.value.1.file)
    ensures r.Ok? ==> d.documentUz == Some(r.value.1.documentUz) && d.documentKo == Some(r.value.1.documentKo)
  {
    if !IsStaff(u) then Forbidden
    else if InGroup(u, UniversityStaff) && d.information.None? then BadRequest
    else if InGroup(u, UniversityStaff) && FindContent(b.information, d.information.value).None? then BadRequest
    else if InGroup(u, UniversityStaff) &&
            UserUniversity(u) != Some(FindContent(b.information, d.information.value).value.university) then Forbidden
    else if !DocumentIsValid(d, false, b.information) then BadRequest
    else
      var doc := Document(NextDocumentId(b.documents), d.information.value, d.file.value,
                          d.documentUz.value, d.documentKo.value);
      Ok((b.(documents := b.documents + [doc]), doc))
  }

  function ReplaceDocument(docs: seq<Document>, doc: Document): (r: seq<Document>)
    ensures |r| == |docs|
    ensures forall i :: 0 <= i < |docs| ==> r[i] == (if docs[i].id == doc.id then doc else docs[i])
  {
    seq(|docs|, i requires 0 <= i < |docs| => if docs[i].id == doc.id then doc else docs[i])
  }

  /** `information_document_update`. The request data goes to the serializer unchanged:
      the new `information` is checked to exist but not to belong to the caller. */
  function DocumentUpdate(b: Board, u: User, id: nat, d: DocumentData, partial: bool): (r: Outcome<(Board, Document)>)
    ensures !IsStaff(u) ==> r == Forbidden
    ensures IsStaff(u) && FindDocument(b.documents, id).None? ==> r == NotFound
    ensures r.Ok? ==> LocateDocument(b, u, id).Ok? && r.value.1.id == id
    ensures r.Ok? ==> r.value.1.information == d.information.GetOr(LocateDocument(b, u, id).value.information)
    ensures r.Ok? && d.information.Some? ==> FindContent(b.information, d.information.value).Some?
    ensures r.Ok? ==> r.value.0 == b.(documents := ReplaceDocument(b.documents, r.value.1))
    ensures LocateDocument(b, u, id).Forbidden? ==> r == Forbidden
    ensures LocateDocument(b, u, id).NotFound? ==> r == NotFound
    ensures LocateDocument(b, u, id).Ok? ==> (r.Ok? <==> DocumentIsValid(d, partial, b.information))
    ensures r.Ok? ==> r.value.1 == ApplyDocument(LocateDocument(b, u, id).value, d)
  {
    match LocateDocument(b, u, id)
    case Ok(doc) =>
      if !DocumentIsValid(d, partial, b.information) then BadRequest
      else
        var doc' := ApplyDocument(doc, d);
        Ok((b.(documents := ReplaceDocument(b.documents, doc')), doc'))
    case Forbidden => Forbidden
    case NotFound => NotFound
    case BadRequest => BadRequest
  }

  /** `information_document_delete`. */
  function DocumentDelete(b: Board, u: User, id: nat): (r: Outcome<Board>)
    ensures !IsStaff(u) ==> r == Forbidden
    ensures IsStaff(u) && FindDocument(b.documents, id).None? ==> r == NotFound
    ensures r.Ok? <==> LocateDocument(b, u, id).Ok?
    ensures LocateDocument(b, u, id).Forbidden? ==> r == Forbidden
    ensures LocateDocument(b, u, id).NotFound? ==> r == NotFound
    ensures r.Ok? ==> FindDocument(r.value.documents, id).None?
    ensures r.Ok? ==> forall i :: 0 <= i < |b.documents| && b.documents[i].id != id ==> b.documents[i] in r.value.documents
    ensures r.Ok? ==> r.value == b.(documents := r.value.documents)
  {
    match LocateDocument(b, u, id)
    case Ok(_) => Ok(b.(documents := Filter(b.documents, NotDocId(id))))
    case Forbidden => Forbidden
    case NotFound => NotFound
    case BadRequest => BadRequest
  }

  function NotDocId(id: nat): Document -> bool {
    (d: Document) => d.id != id
  }
}
