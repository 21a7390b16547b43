/** The public site's records: language-selected getters and the `__str__` fallbacks.

 Every getter and serializer field here selects the Korean value exactly when the
 language is "ko" (the default when none is given) and the Uzbek value otherwise, with no
 fallback: an empty or null Korean value is returned as it is. Most text columns are
 nullable.

 `__str__` resolves `ko or uz` instead, and for nullable pairs that expression can be
 `None`, which Python refuses as the result of `__str__`. The as-written resolution is
 kept (`NullableStr`) beside a total one (`DisplayStr`).
 */
module MainSite {
  import opened Wrappers
  import opened Text
  import opened Bilingual

  datatype News = News(
    titleKo: Option<string>, titleUz: Option<string>,
    contentKo: Option<string>, contentUz: Option<string>)

  datatype Person = Person(
    fullNameUz: Option<string>, fullNameKo: Option<string>,
    positionUz: string, positionKo: string)

  datatype Experience = Experience(experienceKo: Option<string>, experienceUz: Option<string>)

  datatype Gallery = Gallery(titleKo: string, titleUz: string)

  datatype GalleryItem = GalleryItem(
    gallery: Option<Gallery>, descriptionKo: Option<string>, descriptionUz: Option<string>)

  datatype Feedback = Feedback(
    fullnameUz: Option<string>, fullnameKo: Option<string>,
    descriptionUz: Option<string>, descriptionKo: Option<string>)

  datatype Report = Report(umumiyOquv: int, jamiOquv: int, oqituvchi: int)

  // ---------------------------------------------------------------------------
  // Language-selected getters, shared by the model methods and the serializers

  /** `get_title` of News. */
  function NewsTitle(n: News, language: Option<string>): (r: Option<string>)
    ensures ContextLanguage(language) == "ko" ==> r == n.titleKo
    ensures ContextLanguage(language) != "ko" ==> r == n.titleUz
  {
    Select(ContextLanguage(language), n.titleKo, n.titleUz)
  }

  /** `get_content` of News. */
  function NewsContent(n: News, language: Option<string>): (r: Option<string>)
    ensures ContextLanguage(language) == "ko" ==> r == n.contentKo
    ensures ContextLanguage(language) != "ko" ==> r == n.contentUz
  {
    Select(ContextLanguage(language), n.contentKo, n.contentUz)
  }

  function PersonFullName(p: Person, language: Option<string>): (r: Option<string>)
    ensures ContextLanguage(language) == "ko" ==> r == p.fullNameKo
    ensures ContextLanguage(language) != "ko" ==> r == p.fullNameUz
  {
    Select(ContextLanguage(language), p.fullNameKo, p.fullNameUz)
  }

  function PersonPosition(p: Person, language: Option<string>): (r: string)
    ensures ContextLanguage(language) == "ko" ==> r == p.positionKo
    ensures ContextLanguage(language) != "ko" ==> r == p.positionUz
  {
    Select(ContextLanguage(language), p.positionKo, p.positionUz)
  }

  function ExperienceText(e: Experience, language: Option<string>): (r: Option<string>)
    ensures ContextLanguage(language) == "ko" ==> r == e.experienceKo
    ensures ContextLanguage(language) != "ko" ==> r == e.experienceUz
  {
    Select(ContextLanguage(language), e.experienceKo, e.experienceUz)
  }

  function GalleryTitle(g: Gallery, language: Option<string>): (r: string)
    ensures ContextLanguage(language) == "ko" ==> r == g.titleKo
    ensures ContextLanguage(language) != "ko" ==> r == g.titleUz
  {
    Select(ContextLanguage(language), g.titleKo, g.titleUz)
  }

  function GalleryItemDescription(i: GalleryItem, language: Option<string>): (r: Option<string>)
    ensures ContextLanguage(language) == "ko" ==> r == i.descriptionKo
    ensures ContextLanguage(language) != "ko" ==> r == i.descriptionUz
  {
    Select(ContextLanguage(language), i.descriptionKo, i.descriptionUz)
  }

  function FeedbackFullname(f: Feedback, language: Option<string>): (r: Option<string>)
    ensures ContextLanguage(language) == "ko" ==> r == f.fullnameKo
    ensures ContextLanguage(language) != "ko" ==> r == f.fullnameUz
  {
    Select(ContextLanguage(language), f.fullnameKo, f.fullnameUz)
  }

  function FeedbackDescription(f: Feedback, language: Option<string>): (r: Option<string>)
    ensures ContextLanguage(language) == "ko" ==> r == f.descriptionKo
    ensures ContextLanguage(language) != "ko" ==> r == f.descriptionUz
  {
    Select(ContextLanguage(language), f.descriptionKo, f.descriptionUz)
  }

  /** Without a language the Korean side is selected. */
  lemma DefaultIsKorean(n: News)
    ensures NewsTitle(n, None) == NewsTitle(n, Some("ko")) == n.titleKo
    ensures NewsContent(n, None) == n.contentKo
  {
  }

  /** No fallback: under "ko" a missing Korean title stays missing even when the Uzbek one
      exists, whereas `__str__` falls back to it. */
  lemma SelectionHasNoFallback(n: News)
    requires n.titleKo.None? && n.titleUz.Some? && n.titleUz.value != ""
    ensures NewsTitle(n, Some("ko")).None?
    ensures DisplayStr(n.titleKo, n.titleUz) == n.titleUz.value
  {
  }

  // ---------------------------------------------------------------------------
  // __str__

  /** `self.x_ko or self.x_uz` of News, Person, Experience and Feedback, as written: when
      both are null, or the Korean one is empty and the Uzbek one null, the result is `None`. */
  function NullableStr(ko: Option<string>, uz: Option<string>): (r: Option<string>)
    ensures r.None? <==> (ko.None? || ko.value == "") && uz.None?
    ensures ko.Some? && ko.value != "" ==> r == ko
    ensures (ko.None? || ko.value == "") ==> r == uz
  {
    ResolveNullable(ko, uz)
  }

  /** A row with neither name has no string form as written. */
  lemma NullableStrNotAString()
    ensures NullableStr(None, None).None?
    ensures NullableStr(Some(""), None).None?
  {
  }

  /** `__str__` as evidently intended: always a string, the resolved value when there is
      one and "" otherwise. */
  function DisplayStr(ko: Option<string>, uz: Option<string>): (r: string)
    ensures NullableStr(ko, uz).Some? ==> r == NullableStr(ko, uz).value
    ensures NullableStr(ko, uz).None? ==> r == ""
    ensures r != "" ==> r == ko.GetOr("") || r == uz.GetOr("")
  {
    NullableStr(ko, uz).GetOr("")
  }

  /** Where the as-written form has a value, the total form is that value; the two differ
      only on rows that have no name at all. */
  lemma DisplayStrExtends(ko: Option<string>, uz: Option<string>)
    ensures NullableStr(ko, uz) == Some(DisplayStr(ko, uz)) || NullableStr(ko, uz).None?
    ensures DisplayStr(ko, uz) != "" ==> NullableStr(ko, uz) == Some(DisplayStr(ko, uz))
  {
  }

  /** Gallery titles are required columns, so its `__str__` is always a string. */
  function GalleryStr(g: Gallery): (r: string)
    ensures r == g.titleKo || r == g.titleUz
    ensures g.titleKo != "" ==> r == g.titleKo
  {
    Resolve(g.titleKo, g.titleUz)
  }

  /** `str(self.gallery)`: the gallery's string, or "None" for an item without one. */
  function GalleryItemStr(i: GalleryItem): (r: string)
    ensures i.gallery.Some? ==> r == GalleryStr(i.gallery.value)
    ensures i.gallery.None? ==> r == "None"
  {
    match i.gallery
    case Some(g) => GalleryStr(g)
    case None => "None"
  }

  /** `f"{self.umumiy_oquv}"`: the count in decimal, read back as the same number. */
  function ReportStr(r: Report): (s: string)
    ensures ParseInt(s) == Some(r.umumiyOquv)
  {
    ParseIntOfIntToString(r.umumiyOquv);
    IntToString(r.umumiyOquv)
  }
}
