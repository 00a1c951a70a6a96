/** Locale negotiation and text direction (src/i18n/index.ts). */
module I18n {
  import opened Wrappers

  /** `SUPPORTED_LOCALES`. */
  const SupportedLocales: seq<string> := ["en", "zh-CN", "ja-JP"]

  /** `DEFAULT_LOCALE`. */
  const DefaultLocale: string := "en"

  /** `LOCALE_FALLBACKS`: an exact, case-sensitive table from client tags to supported locales. */
  const LocaleFallbacks: map<string, string> := map[
    "en" := "en", "en-US" := "en", "en-GB" := "en",
    "zh" := "zh-CN", "zh-CN" := "zh-CN", "zh-TW" := "zh-CN",
    "ja" := "ja-JP", "ja-JP" := "ja-JP"
  ]

  /** `RTL_LOCALES`: reserved for right-to-left locales, empty today. */
  const RtlLocales: seq<string> := []

  /**
   * `normalizeLocale(input?)`: always a supported locale; an absent or empty input gives the
   * default; a supported locale is its own normal form.
   */
  function NormalizeLocale(input: Option<string>): (r: string)
    ensures r in SupportedLocales
    ensures input.None? || input.value == "" ==> r == DefaultLocale
    ensures input.Some? && input.value in SupportedLocales ==> r == input.value
  {
    if input.None? || input.value == "" then DefaultLocale
    else if input.value in LocaleFallbacks then LocaleFallbacks[input.value]
    else DefaultLocale
  }

  /** The default locale is one of the supported ones. */
  lemma DefaultIsSupported()
    ensures DefaultLocale in SupportedLocales
  {
  }

  /** Every entry of the table is honoured, as the repository's tests also pin down. */
  lemma FallbackTable()
    ensures NormalizeLocale(Some("en-US")) == "en" && NormalizeLocale(Some("en-GB")) == "en"
    ensures NormalizeLocale(Some("zh")) == "zh-CN" && NormalizeLocale(Some("zh-TW")) == "zh-CN"
    ensures NormalizeLocale(Some("ja")) == "ja-JP"
  {
  }

  /** The lookup is exact: any tag that is not a key of the table gets the default locale. */
  lemma UnknownTagsFallBack(tag: string)
    requires tag !in LocaleFallbacks
    ensures NormalizeLocale(Some(tag)) == DefaultLocale
  {
  }

  /** No prefix matching and no case folding: `fr`, `ja-jp` and `en-AU` all give `en`. */
  lemma ExactLookupExamples()
    ensures NormalizeLocale(Some("fr")) == DefaultLocale
    ensures NormalizeLocale(Some("ja-jp")) == DefaultLocale
    ensures NormalizeLocale(Some("en-AU")) == DefaultLocale
  {
    UnknownTagsFallBack("fr");
    UnknownTagsFallBack("ja-jp");
    UnknownTagsFallBack("en-AU");
  }

  /** Normalising twice is normalising once. */
  lemma NormalizeIdempotent(input: Option<string>)
    ensures NormalizeLocale(Some(NormalizeLocale(input))) == NormalizeLocale(input)
  {
  }

  datatype Direction = Ltr | Rtl

  /** `getDirection(locale)`: right-to-left exactly for the locales listed in `RTL_LOCALES`. */
  function GetDirection(locale: string): (d: Direction)
    ensures d == Rtl <==> locale in RtlLocales
  {
    if locale in RtlLocales then Rtl else Ltr
  }

  /** With `RTL_LOCALES` empty, every locale is left-to-right. */
  lemma AllLeftToRight(locale: string)
    ensures GetDirection(locale) == Ltr
  {
  }

  /** A translation catalogue, named by the locale whose messages it holds. */
  datatype Catalogue = Catalogue(locale: string)

  /**
   * `loadMessages(locale)`: re-normalises, then picks the zh-CN or ja-JP catalogue for those
   * locales and the en catalogue for everything else.
   */
  function LoadMessages(locale: string): (c: Catalogue)
    ensures c.locale == NormalizeLocale(Some(locale))
    ensures locale in SupportedLocales ==> c.locale == locale
  {
    var normalized := NormalizeLocale(Some(locale));
    if normalized == "zh-CN" then Catalogue("zh-CN")
    else if normalized == "ja-JP" then Catalogue("ja-JP")
    else Catalogue("en")
  }
}
