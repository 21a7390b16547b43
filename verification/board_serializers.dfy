/** The board serializers: the derived read fields of content and documents, and the
    `validate` rule of the create/update serializers.

 Read fields resolve each bilingual pair as `ko or uz`. The create/update serializers run
 two layers of checks. The field layer comes from the model columns: in a full write every
 text column and the owning reference must be supplied, a supplied text value may not be
 blank, and a supplied reference must exist. The `validate` layer then requires one title
 and one content of the pair (one document title for documents), title first.
 */
module BoardSerializers {
  import opened Wrappers
  import opened Seqs
  import opened Access
  import opened Bilingual
  import opened BoardModels

  // ---------------------------------------------------------------------------
  // Read fields

  /** `get_title`: `title_ko or title_uz`. */
  function Title(c: Content): (r: string)
    ensures c.titleKo != "" ==> r == c.titleKo
    ensures c.titleKo == "" ==> r == c.titleUz
    ensures r != "" <==> c.titleKo != "" || c.titleUz != ""
  {
    Resolve(c.titleKo, c.titleUz)
  }

  /** `get_content`: `content_ko or content_uz`. */
  function Body(c: Content): (r: string)
    ensures c.contentKo != "" ==> r == c.contentKo
    ensures c.contentKo == "" ==> r == c.contentUz
    ensures r != "" <==> c.contentKo != "" || c.contentUz != ""
  {
    Resolve(c.contentKo, c.contentUz)
  }

  /** `bool(obj.image)`: a file field is truthy when it holds a non-empty file name. */
  function HasImage(c: Content): (r: bool)
    ensures r <==> c.image.Some? && c.image.value != ""
  {
    match c.image
    case Some(name) => name != ""
    case None => false
  }

  /** `bool(obj.file)`. */
  function HasFile(d: Document): (r: bool)
    ensures r <==> d.file != ""
  {
    d.file != ""
  }

  /** `get_document_title`: `document_ko or document_uz`. */
  function DocumentTitle(d: Document): (r: string)
    ensures d.documentKo != "" ==> r == d.documentKo
    ensures d.documentKo == "" ==> r == d.documentUz
    ensures r != "" <==> d.documentKo != "" || d.documentUz != ""
  {
    Resolve(d.documentKo, d.documentUz)
  }

  function AttachedTo(id: nat): Document -> bool {
    (d: Document) => d.information == id
  }

  /** `get_document_count`: the number of documents attached to the Information row. */
  function DocumentCount(info: Content, docs: seq<Document>): (n: nat)
    ensures n <= |docs|
    ensures n == |Filter(docs, AttachedTo(info.id))|
  {
    Count(docs, AttachedTo(info.id))
  }

  /** Documents whose Information is another row are not counted. */
  lemma {:induction false} DocumentCountOnlyOwn(info: Content, docs: seq<Document>)
    requires forall i :: 0 <= i < |docs| ==> docs[i].information != info.id
    ensures DocumentCount(info, docs) == 0
  {
    FilterNone(docs, AttachedTo(info.id));
  }

  /** Attaching one more document to an Information row raises its count by one. */
  lemma {:induction false} DocumentCountGrows(info: Content, docs: seq<Document>, d: Document)
    requires d.information == info.id
    ensures DocumentCount(info, docs + [d]) == DocumentCount(info, docs) + 1
  {
    FilterConcat(docs, [d], AttachedTo(info.id));
    assert Filter([d], AttachedTo(info.id)) == [d] + Filter([d][1..], AttachedTo(info.id));
  }

  // ---------------------------------------------------------------------------
  // Write data and validation

  /** The request data of a content write; `None` is a key the client did not send. */
  datatype ContentData = ContentData(
    titleUz: Option<string>,
    titleKo: Option<string>,
    contentUz: Option<string>,
    contentKo: Option<string>,
    image: Option<string>,
    university: Option<UniversityId>)

  /** The request data of a document write. */
  datatype DocumentData = DocumentData(
    information: Option<nat>,
    documentUz: Option<string>,
    documentKo: Option<string>,
    file: Option<string>)

  datatype ValidationError =
    | FieldInvalid
    | TitleRequired
    | ContentRequired
    | DocumentTitleRequired

  datatype Validated<T> = Valid(data: T) | Invalid(error: ValidationError)

  predicate NotBlank(x: Option<string>) {
    x.None? || x.value != ""
  }

  /** The field layer of a content write: required columns in a full write, no blank text,
      and an owning university that exists. */
  predicate ContentFieldsValid(d: ContentData, partial: bool, universities: set<UniversityId>) {
    && NotBlank(d.titleUz) && NotBlank(d.titleKo) && NotBlank(d.contentUz) && NotBlank(d.contentKo)
    && (partial || (d.titleUz.Some? && d.titleKo.Some? && d.contentUz.Some? && d.contentKo.Some?
                    && d.university.Some?))
    && (d.university.Some? ==> d.university.value in universities)
  }

  /** The field layer of a document write. */
  predicate DocumentFieldsValid(d: DocumentData, partial: bool, infos: seq<Content>) {
    && NotBlank(d.documentUz) && NotBlank(d.documentKo) && NotBlank(d.file)
    && (partial || (d.information.Some? && d.documentUz.Some? && d.documentKo.Some? && d.file.Some?))
    && (d.information.Some? ==> FindContent(infos, d.information.value).Some?)
  }

  /** `validate` of the News, Notice, Translation and Information create/update serializers. */
  function ValidateContent(d: ContentData): (r: Validated<ContentData>)
    ensures r.Valid? <==> PairGiven(d.titleKo, d.titleUz) && PairGiven(d.contentKo, d.contentUz)
    ensures r.Valid? ==> r.data == d
    ensures r.Invalid? ==> (r.error == TitleRequired <==> !PairGiven(d.titleKo, d.titleUz))
    ensures r.Invalid? ==> r.error == TitleRequired || r.error == ContentRequired
  {
    if !Given(d.titleUz) && !Given(d.titleKo) then Invalid(TitleRequired)
    else if !Given(d.contentUz) && !Given(d.contentKo) then Invalid(ContentRequired)
    else Valid(d)
  }

  /** `validate` of the InformationDocuments create/update serializer. */
  function ValidateDocument(d: DocumentData): (r: Validated<DocumentData>)
    ensures r.Valid? <==> PairGiven(d.documentKo, d.documentUz)
    ensures r.Valid? ==> r.data == d
    ensures r.Invalid? ==> r.error == DocumentTitleRequired
  {
    if !Given(d.documentUz) && !Given(d.documentKo) then Invalid(DocumentTitleRequired)
    else Valid(d)
  }

  /** `serializer.is_valid()` for content: the field layer, then `validate`. */
  function ContentIsValid(d: ContentData, partial: bool, universities: set<UniversityId>): (r: bool)
    ensures r ==> PairGiven(d.titleKo, d.titleUz) && PairGiven(d.contentKo, d.contentUz)
  {
    ContentFieldsValid(d, partial, universities) && ValidateContent(d).Valid?
  }

  /** `serializer.is_valid()` for documents. */
  function DocumentIsValid(d: DocumentData, partial: bool, infos: seq<Content>): (r: bool)
    ensures r ==> PairGiven(d.documentKo, d.documentUz)
    ensures r && d.information.Some? ==> FindContent(infos, d.information.value).Some?
    ensures r ==> NotBlank(d.file) && (partial || d.file.Some?)
  {
    DocumentFieldsValid(d, partial, infos) && ValidateDocument(d).Valid?
  }

  /** In a full write the field layer already guarantees both pairs, so `validate` can only
      reject a partial write that leaves out both sides of a pair. */
  lemma FullWriteValidateRedundant(d: ContentData, universities: set<UniversityId>)
    requires ContentFieldsValid(d, false, universities)
    ensures ValidateContent(d).Valid?
  {
  }

  /** A partial update that sends no title is rejected even when the stored row has titles. */
  lemma PatchWithoutTitleRejected(d: ContentData, universities: set<UniversityId>)
    requires d.titleUz.None? && d.titleKo.None?
    ensures !ContentIsValid(d, true, universities)
    ensures ValidateContent(d) == Invalid(TitleRequired)
  {
  }

  /** The row a successful write stores: supplied fields replace the stored ones. */
  function ApplyContent(prev: Content, d: ContentData): (c: Content)
    ensures c.id == prev.id && c.kind == prev.kind && c.date == prev.date
    ensures c.university == d.university.GetOr(prev.university)
    ensures c.titleUz == d.titleUz.GetOr(prev.titleUz) && c.titleKo == d.titleKo.GetOr(prev.titleKo)
    ensures c.contentUz == d.contentUz.GetOr(prev.contentUz) && c.contentKo == d.contentKo.GetOr(prev.contentKo)
    ensures d.image.Some? ==> c.image == d.image
    ensures d.image.None? ==> c.image == prev.image
  {
    Content(prev.id, prev.kind,
            d.titleUz.GetOr(prev.titleUz), d.titleKo.GetOr(prev.titleKo),
            d.contentUz.GetOr(prev.contentUz), d.contentKo.GetOr(prev.contentKo),
            if d.image.Some? then d.image else prev.image,
            prev.date,
            d.university.GetOr(prev.university))
  }

  function ApplyDocument(prev: Document, d: DocumentData): (r: Document)
    ensures r.id == prev.id
    ensures r.information == d.information.GetOr(prev.information)
    ensures r.documentUz == d.documentUz.GetOr(prev.documentUz) && r.documentKo == d.documentKo.GetOr(prev.documentKo)
    ensures r.file == d.file.GetOr(prev.file)
  {
    Document(prev.id, d.information.GetOr(prev.information), d.file.GetOr(prev.file),
             d.documentUz.GetOr(prev.documentUz), d.documentKo.GetOr(prev.documentKo))
  }

  /** A validly written row has a non-empty resolved title and content. */
  lemma WrittenContentResolves(prev: Content, d: ContentData, partial: bool, universities: set<UniversityId>)
    requires ContentIsValid(d, partial, universities)
    ensures Title(ApplyContent(prev, d)) != ""
    ensures Body(ApplyContent(prev, d)) != ""
  {
  }
}
