/** Bilingual (Korean / Uzbek) field pairs and the two conventions the system uses to
    read them:

 - the board and management serializers resolve a pair as `ko or uz`: Korean unless it is
   empty, then Uzbek;
 - the main-site models and serializers select strictly by the requested language: the
   Korean value exactly when the language is "ko", the Uzbek value for any other language,
   with no fallback when the selected value is empty or null.

 Write validation requires at least one side of a pair to be present and non-empty.
 */
module Bilingual {
  import opened Wrappers
  import opened Text

  /** `obj.x_ko or obj.x_uz`, the serializers' resolution of a non-null pair. */
  function Resolve(ko: string, uz: string): (r: string)
    ensures r == ko || r == uz
    ensures r != "" <==> ko != "" || uz != ""
    ensures ko != "" ==> r == ko
  {
    Or(ko, uz)
  }

  /** `obj.x_ko or obj.x_uz` on nullable columns; `None` only when Korean is falsy and Uzbek null. */
  function ResolveNullable(ko: Option<string>, uz: Option<string>): (r: Option<string>)
    ensures r == ko || r == uz
    ensures r.None? <==> (ko.None? || ko.value == "") && uz.None?
    ensures ko.Some? && ko.value != "" ==> r == ko
  {
    OrNullable(ko, uz)
  }

  /** `ko if language == "ko" else uz`: strict selection, no fallback. */
  function Select<T>(language: string, ko: T, uz: T): (r: T)
    ensures language == "ko" ==> r == ko
    ensures language != "ko" ==> r == uz
  {
    if language == "ko" then ko else uz
  }

  /** The language a main-site serializer reads: `context.get('language', 'ko')`. */
  function ContextLanguage(language: Option<string>): (r: string)
    ensures language.None? ==> r == "ko"
    ensures language.Some? ==> r == language.value
  {
    language.GetOr("ko")
  }

  /** Python truthiness of `data.get(field)`: supplied and non-empty. */
  predicate Given(x: Option<string>) {
    x.Some? && x.value != ""
  }

  /** The write rule for one pair: `not data.get(a) and not data.get(b)` is an error. */
  predicate PairGiven(ko: Option<string>, uz: Option<string>) {
    Given(ko) || Given(uz)
  }

  /** A pair that passed write validation resolves to a non-empty value. */
  lemma ValidatedPairResolves(ko: Option<string>, uz: Option<string>)
    requires PairGiven(ko, uz)
    ensures Resolve(ko.GetOr(""), uz.GetOr("")) != ""
  {
  }

  /** The two conventions agree whenever the Korean side is non-empty and Korean is requested. */
  lemma ConventionsAgree(ko: string, uz: string)
    requires ko != ""
    ensures Select("ko", ko, uz) == Resolve(ko, uz)
  {
  }

  /** They disagree on an empty Korean side: strict selection returns "", `ko or uz` falls back. */
  lemma ConventionsDiffer(uz: string)
    requires uz != ""
    ensures Select("ko", "", uz) == ""
    ensures Resolve("", uz) == uz
  {
  }
}
