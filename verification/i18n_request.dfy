/** The per-request locale configuration (src/i18n/request.ts). */
module I18nRequest {
  import opened Wrappers
  import opened I18n

  datatype RequestConfig = RequestConfig(locale: string, messages: Catalogue)

  /**
   * Resolves the raw request locale: the locale is the normalised one (so the fallback to the
   * default in the membership test never fires) and the messages are that locale's catalogue.
   */
  function GetRequestConfig(requestLocale: Option<string>): (c: RequestConfig)
    ensures c.locale == NormalizeLocale(requestLocale)
    ensures c.locale in SupportedLocales
    ensures c.messages == Catalogue(c.locale)
  {
    var normalized := NormalizeLocale(requestLocale);
    var locale := if normalized in SupportedLocales then normalized else DefaultLocale;
    RequestConfig(locale, LoadMessages(locale))
  }
}
