# Hackathon showcase site: a Dafny model of its core rules

The site is a Next.js application. Visitors browse and submit projects, ideas and events in three
languages (English, Simplified Chinese, Japanese). This project models the rules that sit under
its React markup, Prisma calls and `fetch` plumbing, in five groups:

- **Locale negotiation and localised paths.** The fallback table behind `normalizeLocale`, text
  direction, catalogue choice and the request configuration. Also `buildLocalizedPath`, which
  swaps or prepends the locale segment of a URL path.
- **Slugs, tag de-duplication and summaries.**
  - The ASCII `slugify` of the project service, which can return the empty string.
  - The repository `slugify`, which falls back to `tag-` and random text.
  - The `Set`-based and `Map`-based tag de-duplication.
  - The summary that the idea repository derives from a Markdown description.
- **Content repositories.** Projects, ideas and events live in one `Database` object, one table
  per model, as the Prisma client holds them. The repository operations are methods that change
  it: create, look up, count a view or a like, update, delete and list with filter and order.
- **Client state.**
  - The event grid: status resolution, status filter and start-time sort.
  - The idea grid and its filter bar.
  - The tag selector and the idea form wizard.
  - The optimistic like counter.
  Each stateful component is a class whose methods update its fields.
- **Envelopes and routes.**
  - The success/error envelope and the closed set of error codes.
  - The table from error code to translation key.
  - The client's mapping of a response to an envelope.
  - The status and body each API route sends for each outcome.

The model is spread over one module per source file, plus these shared modules:

| module | what it holds |
|---|---|
| `Wrappers` | `Option` and `Result` |
| `Json` | JSON values |
| `Text` | JavaScript's `trim`, `\s`, ASCII `toLowerCase`, and run-collapsing `replace` |
| `Seqs` | filter, first-seen de-duplication by key, and sort |
| `Slugs` | the slug pipeline both `slugify` helpers share |
| `Schema` | the stored rows |
| `Store` | the tables and the meaning of the queries |
| `Validation` | the zod building blocks |

Some inputs come from outside the code and are parameters of the model:

- the clock (`now`, integer milliseconds);
- the ids and creation times the database assigns;
- the random text of the fallback slug;
- whether a string is a URL, and how zod coerces dates and numbers;
- the outcome of `fetch`;
- whether the database can be reached;
- the request body, which is absent when it is not JSON.

## Model

| member | source | states |
|---|---|---|
| I18n.NormalizeLocale | src/i18n/index.ts:24-27 | The result is always a supported locale. An absent or empty input gives `en`. A supported locale is its own normal form. |
| I18n.DefaultIsSupported | src/i18n/index.ts:1-4 | `DEFAULT_LOCALE` is one of `SUPPORTED_LOCALES`. |
| I18n.FallbackTable | src/i18n/index.ts:5-14 | `en-US` and `en-GB` give `en`; `zh` and `zh-TW` give `zh-CN`; `ja` gives `ja-JP`. |
| I18n.UnknownTagsFallBack | src/i18n/index.ts:26 | Any tag that is not a key of the table gives the default locale. |
| I18n.ExactLookupExamples | src/i18n/index.ts:26 | The lookup is exact and case-sensitive, so `fr`, `ja-jp` and `en-AU` all give `en`. |
| I18n.NormalizeIdempotent | src/i18n/index.ts:24-27 | Normalising twice is the same as normalising once. |
| I18n.GetDirection | src/i18n/index.ts:42-44 | The direction is right-to-left exactly when the locale is listed in `RTL_LOCALES`. |
| I18n.AllLeftToRight | src/i18n/index.ts:22 | With the list empty, every locale is left-to-right. |
| I18n.LoadMessages | src/i18n/index.ts:29-40 | The catalogue is that of the re-normalised locale, and a supported locale gets its own catalogue. |
| I18nRequest.GetRequestConfig | src/i18n/request.ts:4-15 | The locale equals `normalizeLocale(rawLocale)`, so the default-locale branch never changes it. The locale is supported, and the messages are that locale's catalogue. |
| Navigation.BuildLocalizedPath | src/utils/navigation.ts:9-26 | The method rebuilds the segment list step by step (the source mutates a local array; the model reassigns a sequence) and returns exactly `LocalizedPath`: segments split on `/` with empty ones dropped, a leading supported locale replaced or the target put in front, rejoined, and the query appended. |
| Navigation.SegmentsOfJoin | src/utils/navigation.ts:11 | Splitting a slash-prefixed join of non-empty, slash-free segments gives the same segments back. |
| Navigation.PathSegments | src/utils/navigation.ts:11-24 | The segments of a query-free result are the target, then the input's segments without a leading supported locale, in order. |
| Navigation.StartsWithLocale | src/utils/navigation.ts:13-25 | Every result starts with `/` and the target, followed by the end of the string, `/` or `?`. |
| Navigation.QueryAppended | src/utils/navigation.ts:25 | `?` and the query are appended exactly when the query is non-empty. |
| Navigation.RootPath | src/utils/navigation.ts:10-22 | An absent path, an empty path or `/` gives `/` followed by the locale. |
| Navigation.Idempotent | src/utils/navigation.ts:13-24 | Localising a query-free result again, to the same locale, returns it unchanged. |
| Navigation.LocalizedPathOfJoin | src/utils/navigation.ts:9-26 | A path given as joined segments is localised segment-wise. |
| Navigation.ReplacesLocalePrefix | src/utils/navigation.ts:15-16 | A leading supported locale is replaced by the target, and the remaining segments are kept in order. |
| Navigation.PrependsLocale | src/utils/navigation.ts:17-18 | A first segment that is not a supported locale (such as `zh`) gets the target in front, and every segment is kept. |
| Navigation.EmptySegmentsExample | src/utils/navigation.ts:11 | `//a//b/` localised to `en` is `/en/a/b`: empty segments are dropped. |
| ApiTypes.TaxonomyClosed | src/types/api.ts:1-19 | There are exactly 18 error codes, each listed once, and every code is among them. |
| Envelope.SuccessResponse | src/utils/apiResponse.ts:3-6 | The result is a success envelope that carries the data unchanged. |
| Envelope.ErrorResponse | src/utils/apiResponse.ts:8-19 | The result is an error envelope with the given code, message and details. |
| Envelope.SuccessEnvelopeShape | src/types/api.ts:21-24 | Encoded, a success envelope has exactly the members `success: true` and `data`. |
| Envelope.ErrorEnvelopeShape | src/types/api.ts:26-33 | Encoded, an error envelope has exactly `success: false` and `error`. The error object carries the code. It carries `message` and `details` exactly when they were given. |
| ErrorCodes.MessageKey | src/utils/errorCodes.ts:3-22 | Every table entry is a key under `error.`. |
| ErrorCodes.ResolveErrorMessageKey | src/utils/errorCodes.ts:24-27 | The function is total and never returns an empty key. An absent code gives `error.common.unknown`; a present code gives its table entry. |
| ErrorCodes.ResolveKnownKeys | src/utils/errorCodes.ts:8-26 | `PROJECT.NOT_FOUND`, `EVENT.CREATE_FAILED`, `IDEA.LIST_FAILED` and an absent code resolve as the repository's tests expect. |
| ErrorCodes.SharedKeys | src/utils/errorCodes.ts:4-18 | Both validation codes share `error.common.validation`. `COMMON.NOT_FOUND` reads as unknown. Each `*.LIST_FAILED` code maps to a `*.loadFailed` key. |
| HttpClient.CodeOrUnknown | src/lib/httpClient.ts:11 | An absent or null code becomes `COMMON.UNKNOWN`; any other code is kept. |
| HttpClient.ToErrorResponse | src/lib/httpClient.ts:7-15 | The result is an error envelope whose code is the given one or `COMMON.UNKNOWN`, with a message exactly when one is given. |
| HttpClient.Request | src/lib/httpClient.ts:17-53 | The result is always an envelope. It is a success exactly when a response arrived with an ok status and a body that does not say `success: false`. A thrown error gives `COMMON.UNKNOWN` with the error's message. A non-ok status gives the body's `error.code` (or `COMMON.UNKNOWN`) and `error.message`. An ok body saying `success: false` comes back verbatim. Any other ok body gives exactly `success` and `data`, where `data` is the body's `data` when present, else the body, or `{}` when there is none. |
| HttpClient.NonOkIsError | src/lib/httpClient.ts:29-33 | A non-ok status gives an error carrying the body's `error.code`, and its `error.message` exactly when there is one, whatever else the body says. |
| HttpClient.ThrownIsUnknown | src/lib/httpClient.ts:50-52 | A thrown error gives a failure with `COMMON.UNKNOWN`, and with the error's message exactly when it has one. |
| HttpClient.OkFailureVerbatim | src/lib/httpClient.ts:35-37 | An ok body that says `success: false` is returned unchanged. |
| HttpClient.OkBodyIsData | src/lib/httpClient.ts:46-49 | An ok body without `data` that does not say `success: false` becomes the data of a success, with `null` read as `{}`. |
| HttpClient.OkWithData | src/lib/httpClient.ts:39-44 | An ok body with `data` gives a success that carries exactly that data. |
| HttpClient.OkWithoutBody | src/lib/httpClient.ts:27-49 | An ok response whose body is not JSON gives a success carrying `{}`. |
| HttpClient.OkEnvelopeRoundTrip | src/lib/httpClient.ts:35-44 | An envelope sent with an ok status comes back exactly as the server encoded it. |
| HttpClient.NonOkEnvelope | src/lib/httpClient.ts:29-33 | An error envelope sent with a non-ok status keeps its code and message but loses its details. |
| HttpClient.FetchInit | src/lib/httpClient.ts:19-25 | The default `Content-Type` is added, and the caller's headers override it. |
| HttpClient.SendInit | src/lib/httpClient.ts:57-68 | `post` and `put` set their method and send the payload as the body, replacing any body in the caller's settings. The headers are the defaults overridden by the caller's. |
| HttpClient.DeleteInit | src/lib/httpClient.ts:69-73 | `delete` sets the method to DELETE. |
| Slugs.SlugBaseIsSlug | src/services/projectService.ts:4-9 | For any kept class without `-`, the pipeline gives only kept characters and single inner dashes, never a dash at either end. |
| Slugs.SlugBaseKeepsKept | src/domain/projects/projectRepository.ts:4-5 | Every kept character of the lower-cased input survives, in order, and no other kept character appears. |
| Slugs.SlugBaseEmptyIff | src/domain/projects/projectRepository.ts:4-6 | The pipeline gives the empty string exactly when no character of the lower-cased input is kept. |
| Slugs.SlugBaseFixesSlugs | src/services/projectService.ts:4-9 | A slug over a class of non-space characters that are their own lower case goes through the pipeline unchanged. |
| Slugs.SlugBaseIdempotent | src/services/projectService.ts:4-9 | For a class of non-space characters that are their own lower case, the pipeline is idempotent. |
| ProjectService.Slugify | src/services/projectService.ts:4-9 | The result is a slug over `[a-z0-9]`: no dash at either end and no `--`. |
| ProjectService.SlugifyKeepsLettersAndDigits | src/services/projectService.ts:4-9 | Every ASCII letter and digit of the lower-cased name survives, in order. |
| ProjectService.SlugifyEmptyIff | src/services/projectService.ts:4-9 | There is no fallback. The slug is empty exactly when the name has no ASCII letter or digit. |
| ProjectService.SlugifyIdempotent | src/services/projectService.ts:4-9 | A slug is its own slug. |
| ProjectService.NormalizeTags | src/services/projectService.ts:63-65 | The result is present exactly when tags are given. Every name in it is trimmed and non-empty. |
| ProjectService.TagNames | src/services/projectService.ts:67-68 | The names are absent exactly when no tags are given or all are blank; otherwise there is at least one. |
| ProjectService.TagConnectOrCreate | src/services/projectService.ts:67-75 | There is one connect-or-create entry per name, in order, each with the name's slug. The list is absent exactly when no name is left. |
| ProjectService.NormalizedEmptyIff | src/services/projectService.ts:63-65 | Normalisation drops exactly the blank names. |
| ProjectService.TagNamesDistinct | src/services/projectService.ts:68 | No name occurs twice. |
| ProjectService.TagNamesFromInput | src/services/projectService.ts:63-68 | Every name is a trimmed, non-blank input name. |
| ProjectService.TagNamesComplete | src/services/projectService.ts:63-68 | Every non-blank input name is there, trimmed. |
| ProjectService.SlugIgnoresCase | src/services/projectService.ts:4-9 | Names equal up to ASCII case share one slug. |
| ProjectService.DistinctNamesKept | src/services/projectService.ts:63-75 | Names that are already trimmed, non-blank and distinct all go in, in order. This includes names that differ only in case, which get two entries with one slug. |
| ProjectService.GetProjects | src/services/projectService.ts:12-39 | The result holds exactly the listed projects (`Listed`: published, of the given category slug when one is given, with the given search text appearing case-sensitively in the title or the description). Each appears as often as it is stored, and the result is newest first. |
| ProjectService.NewProject | src/services/projectService.ts:52-87 | The row holds the title, description, content, repository and demo URLs, category and author of the input, with `published: true`, no views and no likes, no images, attachments or event, and the slugs of the de-duplicated tags. |
| ProjectService.CreateProject | src/services/projectService.ts:52-87 | The tags are connected or created, and the row is inserted under a new id. Nothing else changes. |
| ProjectService.UpdateProject | src/services/projectService.ts:90-95 | The data is applied as given. A missing id is an error and leaves the table unchanged. |
| ProjectService.DeleteProject | src/services/projectService.ts:97-101 | The row is removed and returned. A missing id is an error. |
| ProjectRepository.SlugifyOver | src/domain/projects/projectRepository.ts:3-9 | For any kept class, `slugify` never returns the empty string. |
| ProjectRepository.SlugifyOverCases | src/domain/projects/projectRepository.ts:3-9 | The `tag-` fallback is taken exactly when no character of the lower-cased name is kept. Otherwise the result is a slug over the class that keeps every kept character in order. |
| ProjectRepository.SlugifyCases | src/domain/projects/projectRepository.ts:3-9 | The same cases, with the letter-and-digit class the code evidently means. |
| ProjectRepository.AsWrittenDropsLetters | src/domain/projects/projectRepository.ts:5 | With the class as written, `React` gets `tag-` and random text. |
| ProjectRepository.CorrectedKeepsLetters | src/domain/projects/projectRepository.ts:5 | With letters and digits kept, the letters of `React` make the slug. |
| ProjectRepository.SlugEntries | src/domain/projects/projectRepository.ts:95-97 | Each name's entry holds the name and its slug over the given kept class, made with that call's random text. |
| ProjectRepository.ReduceToMap | src/domain/projects/projectRepository.ts:91-101 | The fold into the slug-keyed `Map`, read back in insertion order, is the first entry for each slug, in first-seen order. |
| ProjectRepository.InsertBySlug | src/domain/projects/projectRepository.ts:94-100 | The loop of `Map` insertions keeps the first entry for each slug, in first-seen order, and skips an entry whose slug is already a key. |
| ProjectRepository.TagConnectOrCreate | src/domain/projects/projectRepository.ts:86-102 | The list is built from the trimmed, non-blank names, and is absent when none is left. |
| ProjectRepository.TagEntriesPresent | src/domain/projects/projectRepository.ts:91-102 | The list is present exactly when some given name is not blank. |
| ProjectRepository.SlugMapUnique | src/domain/projects/projectRepository.ts:96-97 | No slug occurs twice. |
| ProjectRepository.SlugMapFirstSeen | src/domain/projects/projectRepository.ts:96-97 | Each entry holds the first name with its slug; later names with that slug are dropped. |
| ProjectRepository.SlugMapComplete | src/domain/projects/projectRepository.ts:94-100 | Every name's slug is in the map. |
| ProjectRepository.CaseVariantsShareSlug | src/domain/projects/projectRepository.ts:4-5 | For any kept class, names that differ only in case and keep some character share a slug, so only the first of them is kept. |
| ProjectRepository.UnkeptEntry | src/domain/projects/projectRepository.ts:3-9 | A name of which no character is kept gets `tag-` and the random text of its call. |
| ProjectRepository.UnkeptNamesKeptApart | src/domain/projects/projectRepository.ts:94-100 | Two names of which no character is kept each get their own random slug. When the two random texts differ, the map keeps both. |
| ProjectRepository.AsWrittenCaseVariantsApart | src/domain/projects/projectRepository.ts:5-8 | With the class as written, `create` with the tags `React` and `react` makes two connect-or-create entries, `tag-` plus each call's random text, instead of one shared slug. |
| ProjectRepository.NewRow | src/domain/projects/projectRepository.ts:85-113 | The first image is the thumbnail and the images are the gallery, both only when there is an image. Attachments are written only when truthy. `published` is forced to true and the counters start at 0. |
| ProjectRepository.Create | src/domain/projects/projectRepository.ts:72-114 | For a given `slugify` class (the literal one as written, or letters and digits), the tags are connected or created, then the new row is inserted. Nothing else changes. |
| ProjectRepository.BuildSearchFilter | src/domain/projects/projectRepository.ts:16-34 | The filter always requires `published` and always matches case-insensitively. It adds the category and the search text exactly when they are non-empty. |
| ProjectRepository.List | src/domain/projects/projectRepository.ts:37-47 | The result holds exactly the published projects of the category whose title or description contains the search text in any case. Each appears as often as it is stored, and the result is newest first. |
| ProjectRepository.ServiceMatchIsListed | src/domain/projects/projectRepository.ts:29-30 | Whatever the case-sensitive filter of the service lets through, the repository's filter lets through too. |
| ProjectRepository.FindById | src/domain/projects/projectRepository.ts:49-58 | The result is the row with that id, present exactly when the id is stored. |
| ProjectRepository.IncrementViews | src/domain/projects/projectRepository.ts:60-70 | Views go up by exactly 1, and no other field or table changes. A missing id is an error. |
| ProjectRepository.IncrementLikes | src/domain/projects/projectRepository.ts:125-132 | Likes go up by exactly 1, and no other field or table changes. |
| ProjectRepository.Update | src/domain/projects/projectRepository.ts:134-158 | The data is applied as given. A non-empty gallery makes its first image the thumbnail, overriding any thumbnail the data names. |
| ProjectRepository.Delete | src/domain/projects/projectRepository.ts:160-164 | The row is removed and returned, and a later lookup finds nothing. |
| Store.FindProjects | src/domain/projects/projectRepository.ts:38-46 | `findMany` with a `where` and `createdAt: desc` gives exactly the matching rows, each as often as it is stored, newest first. |
| Store.ConnectOrCreateSlugs | src/domain/projects/projectRepository.ts:111 | After connect-or-create, the tag slugs are the old ones plus those of the list. |
| Store.ConnectOrCreateKeeps | src/domain/projects/projectRepository.ts:111 | An existing tag is connected as it is and never renamed. |
| Store.ConnectOrCreateFirst | src/domain/projects/projectRepository.ts:111 | A new slug holds the first entry of the list with that slug. |
| Store.PatchKeepsIdentity | src/domain/projects/projectRepository.ts:154-157 | An update never touches the id, the author, the counters, the tags or the creation time. Empty data leaves the row as it was. |
| IdeaRepository.PlainShape | src/domain/ideas/ideaRepository.ts:16 | The plain text has no markup, single spaces as its only whitespace, and no space at either end. |
| IdeaRepository.PlainKeepsText | src/domain/ideas/ideaRepository.ts:16 | Every visible character of the description survives, in order, and none is added. |
| IdeaRepository.PlainEmptyIff | src/domain/ideas/ideaRepository.ts:16 | The plain text is empty exactly when the description has no visible character. |
| IdeaRepository.NormalizeSummary | src/domain/ideas/ideaRepository.ts:13-20 | A non-blank summary is returned trimmed and uncut. Otherwise the result is the first 160 characters of the description's plain text, or all of it when shorter, and empty without a description. |
| IdeaRepository.DerivedSummaryShape | src/domain/ideas/ideaRepository.ts:15-17 | A derived summary is a plain line that starts with a visible character; a trailing space can survive the cut. It is the whole plain text when that fits in 160 characters. |
| IdeaRepository.SummaryEmptyIff | src/domain/ideas/ideaRepository.ts:13-20 | The summary is empty exactly when the given summary is blank and the description has no visible character. |
| IdeaRepository.List | src/domain/ideas/ideaRepository.ts:23-27 | Every idea appears once, newest first. |
| IdeaRepository.FindById | src/domain/ideas/ideaRepository.ts:29-33 | The result is the idea with that id, present exactly when the id is stored. |
| IdeaRepository.IncrementViews | src/domain/ideas/ideaRepository.ts:35-40 | Views go up by exactly 1, the updated idea is returned, and nothing else changes. |
| IdeaRepository.IncrementLikes | src/domain/ideas/ideaRepository.ts:42-47 | Likes go up by exactly 1, and nothing else changes. |
| IdeaRepository.NewIdea | src/domain/ideas/ideaRepository.ts:49-68 | The title is trimmed and the summary derived. The tags are trimmed with blanks dropped and duplicates kept. The thumbnail is the first non-empty image. An empty location or author name is dropped, and the counters start at 0. |
| IdeaRepository.NewIdeaTags | src/domain/ideas/ideaRepository.ts:50 | Every stored tag is trimmed and non-empty, and every non-blank given tag is stored trimmed. |
| IdeaRepository.Create | src/domain/ideas/ideaRepository.ts:49-68 | The new idea is inserted, and nothing else changes. |
| EventRepository.List | src/domain/events/eventRepository.ts:7-11 | Every event appears once, earliest start first. |
| EventRepository.FindById | src/domain/events/eventRepository.ts:12-16 | The result is the event with that id, present exactly when the id is stored. |
| EventRepository.IncrementViews | src/domain/events/eventRepository.ts:18-23 | Views go up by exactly 1, and the updated row is returned. |
| EventRepository.IncrementLikes | src/domain/events/eventRepository.ts:25-30 | Likes go up by exactly 1, and no other field changes. |
| EventRepository.Create | src/domain/events/eventRepository.ts:31-54 | The fields are stored as given, with nothing derived; the counters start at 0, and a lookup finds the new event. |
| EventGridClient.ComputeStatus | src/components/EventGridClient.tsx:56-66 | A stored `upcoming`, `running` or `ended` wins. Otherwise the status is `ended` iff end < now, `running` iff start <= now <= end, and `upcoming` iff now < start and now <= end. |
| EventGridClient.StatusMovesForward | src/components/EventGridClient.tsx:56-66 | As time passes, the status never moves back. |
| EventGridClient.EventGrid.constructor | src/components/EventGridClient.tsx:43-44 | The grid starts with filter `all` and the soonest-first sort. |
| EventGridClient.EventGrid.SetActiveStatus | src/components/EventGridClient.tsx:89 | The filter changes and the sort stays. |
| EventGridClient.EventGrid.SetSort | src/components/EventGridClient.tsx:106 | The sort changes and the filter stays. |
| EventGridClient.EventGrid.Filtered | src/components/EventGridClient.tsx:68-79 | The result is a permutation of the events whose computed status passes the filter; `all` keeps every event. It is sorted by start time in the chosen direction. |
| IdeaGridClient.AllTagsMembership | src/components/IdeaGridClient.tsx:19 | A tag is collected exactly when some idea carries it. |
| IdeaGridClient.TagsExact | src/components/IdeaGridClient.tsx:17-21 | The offered tags are exactly the tags some idea carries, each once. |
| IdeaGridClient.TagsFirstSeenOrder | src/components/IdeaGridClient.tsx:17-21 | The offered tags are in the order each one first appears. |
| IdeaGridClient.CollectTags | src/components/IdeaGridClient.tsx:17-21 | The nested loops that fill the insertion-ordered `Set` produce exactly `Tags`. |
| IdeaGridClient.View | src/components/IdeaGridClient.tsx:23-32 | A tag other than `all` keeps exactly the ideas that carry it, and `all` keeps every idea. `latest` sorts newest first, and any other sort keeps the given order. |
| IdeaGridClient.IdeaGrid.constructor | src/components/IdeaGridClient.tsx:15 | At first, every idea is shown in the given order. |
| IdeaGridClient.IdeaGrid.HandleFilter | src/components/IdeaGridClient.tsx:23-32 | The shown list becomes the view of the full list, so filters never compound. |
| IdeaGridClient.SelectTag | src/components/IdeaFilters.tsx:18-21 | After a tag click reported to the list, the list shows the view for the bar's tag and sort. |
| IdeaGridClient.SelectSort | src/components/IdeaFilters.tsx:23-26 | After a sort choice reported to the list, the list shows the view for the bar's tag and sort. |
| IdeaFilters.IdeaFilters.constructor | src/components/IdeaFilters.tsx:15-16 | The bar starts with tag `all` and sort `latest`. |
| IdeaFilters.IdeaFilters.HandleTag | src/components/IdeaFilters.tsx:18-21 | The tag is set and the sort kept, and the bar reports (new tag, current sort). |
| IdeaFilters.IdeaFilters.HandleSort | src/components/IdeaFilters.tsx:23-26 | The sort is set and the tag kept, and the bar reports (current tag, new sort). |
| TagSelector.Available | src/components/TagSelector.tsx:19-22 | The suggestions not in the value, with their multiplicities and order. |
| TagSelector.AvailableWhenNothingChosen | src/components/TagSelector.tsx:19-22 | With nothing chosen, every suggestion is available. |
| TagSelector.Added | src/components/TagSelector.tsx:24-30 | A blank tag, or a trimmed tag already present (exact match), changes nothing. Otherwise the trimmed tag is appended at the end. |
| TagSelector.Removed | src/components/TagSelector.tsx:32-34 | Every occurrence goes, and every other value keeps its count. |
| TagSelector.AvailableConcat | src/components/TagSelector.tsx:19-22 | The offer keeps the suggestions' order: offering from a concatenation joins the two offers. |
| TagSelector.AvailableSingleton | src/components/TagSelector.tsx:19-22 | One suggestion is offered exactly when it is not chosen. |
| TagSelector.RemovedConcat | src/components/TagSelector.tsx:32-34 | Removing keeps the order of the rest: removing from a concatenation joins the two results. |
| TagSelector.RemovedSingleton | src/components/TagSelector.tsx:32-34 | One tag survives exactly when it is not the one removed. |
| TagSelector.AddKeepsDistinct | src/components/TagSelector.tsx:27-28 | A duplicate-free value stays duplicate-free after an add. |
| TagSelector.RemoveUndoesAdd | src/components/TagSelector.tsx:24-34 | Removing the trimmed tag just added gives the old value back. |
| TagSelector.RemoveKeepsDistinct | src/components/TagSelector.tsx:32-34 | After a remove the value stays duplicate-free and no longer holds the tag. |
| TagSelector.TagSelector.constructor | src/components/TagSelector.tsx:13-17 | The suggestions default to `PRESETS`, and the input starts empty. |
| TagSelector.TagSelector.SetInput | src/components/TagSelector.tsx:46 | Typing changes only the input. |
| TagSelector.TagSelector.AddTag | src/components/TagSelector.tsx:24-30 | A refused tag leaves both the value and the input alone. An accepted tag is appended and the input cleared. A duplicate-free value stays duplicate-free. |
| TagSelector.TagSelector.RemoveTag | src/components/TagSelector.tsx:32-34 | The tag is removed everywhere; the input is untouched. |
| TagSelector.TagSelector.Offered | src/components/TagSelector.tsx:19-22 | Only suggestions not yet chosen are offered. |
| IdeaFormWizard.NextStep | src/components/IdeaFormWizard.tsx:26-30 | The step goes up by one, capped at 3. |
| IdeaFormWizard.PrevStep | src/components/IdeaFormWizard.tsx:31-35 | The step goes down by one, floored at 1. |
| IdeaFormWizard.StepsInverse | src/components/IdeaFormWizard.tsx:26-35 | Away from the bounds, `prev` undoes `next` and `next` undoes `prev`. |
| IdeaFormWizard.PayloadOf | src/components/IdeaFormWizard.tsx:39-49 | There is no payload exactly when the trimmed title is empty. Otherwise the payload carries the trimmed title and description and the images and tags unchanged. |
| IdeaFormWizard.PayloadTitle | src/components/IdeaFormWizard.tsx:39-45 | There is no payload exactly when the title is blank; a payload's title is trimmed and non-empty. |
| IdeaFormWizard.IdeaFormWizard.constructor | src/components/IdeaFormWizard.tsx:18-24 | The wizard starts at step 1 with empty fields, no error and not submitting. |
| IdeaFormWizard.IdeaFormWizard.Next | src/components/IdeaFormWizard.tsx:26-30 | The step becomes `NextStep` of the old step, and nothing else changes. |
| IdeaFormWizard.IdeaFormWizard.Prev | src/components/IdeaFormWizard.tsx:31-35 | The step becomes `PrevStep` of the old step, and nothing else changes. |
| IdeaFormWizard.IdeaFormWizard.Edit | src/components/IdeaFormWizard.tsx:19-22 | The form fields change; the step, the error and the submitting flag do not. |
| IdeaFormWizard.IdeaFormWizard.Submit | src/components/IdeaFormWizard.tsx:37-58 | A blank title sets the missing-title error and sends nothing. A failed answer sets the submit error and re-enables the form. A success leaves the form submitting and navigates to `/{locale}/ideas/{id}`. |
| EngagementBar.ServerLikes | src/components/EngagementBar.tsx:28 | The server count is present exactly when the body's `data.likes` is a whole number, and then it is that number. |
| EngagementBar.Settled | src/components/EngagementBar.tsx:27-32 | A server count wins. A body without one keeps the optimistic value. A thrown error takes 1 off, never going below 0. |
| EngagementBar.RollbackRestores | src/components/EngagementBar.tsx:24-32 | A failed like restores the count it started from. |
| EngagementBar.EngagementBar.constructor | src/components/EngagementBar.tsx:16-19 | The bar starts with the initial counts and not liking. |
| EngagementBar.EngagementBar.HandleLike | src/components/EngagementBar.tsx:21-24 | While a like is in flight, nothing happens. Otherwise likes go up by 1 and a request is sent. |
| EngagementBar.EngagementBar.Settle | src/components/EngagementBar.tsx:25-36 | The count becomes the settled value, and `liking` is false again. |
| EngagementBar.LikeThatThrows | src/components/EngagementBar.tsx:21-36 | A like whose request throws leaves the count where it was and the bar idle. |
| Validation.StringOf | src/app/api/events/route.ts:8-11 | An optional string member is read as that string, and is absent exactly when the member is. |
| Validation.Strings | src/app/api/events/route.ts:18 | A string array is read element by element. |
| Validation.StringsOf | src/app/api/ideas/route.ts:10-11 | An optional string array is present exactly when the member is, and holds its strings element by element. |
| EventsRoute.EmptyAsAbsent | src/app/api/events/route.ts:14-17 | An empty registration link or banner becomes absent. |
| EventsRoute.AttachmentsOf | src/app/api/events/route.ts:19-29 | The attachments are present exactly when the member is, at most 10, each read from its element. |
| EventsRoute.AttachmentOf | src/app/api/events/route.ts:21-26 | An attachment holds the element's name, type, size and content. |
| EventsRoute.OptDateOf | src/app/api/events/route.ts:15 | The registration deadline is present exactly when the member is, and is its coerced date. |
| EventsRoute.CapacityOf | src/app/api/events/route.ts:16 | The capacity is present exactly when the member is, and is the coerced number, positive and whole. |
| EventsRoute.ParseEvent | src/app/api/events/route.ts:6-31 | Each field is the body's member: the non-empty title, the optional strings as given, the coerced dates, the link and banner with an empty string dropped, the coerced capacity, the gallery (at most 10) and the attachments. |
| EventsRoute.Get | src/app/api/events/route.ts:33-41 | The reply is 200 with the list in a success envelope, or 500 `EVENT.LIST_FAILED`. |
| EventsRoute.Post | src/app/api/events/route.ts:43-59 | The outcomes are: 400 `COMMON.VALIDATION_ERROR` with `Invalid payload` and the issues for an invalid body; 500 `EVENT.CREATE_FAILED` when the body is unreadable or the store throws; 201 with the stored event otherwise. Only a 201 changes the store. |
| IdeasRoute.ParseIdea | src/app/api/ideas/route.ts:6-14 | Each field is the body's member: the non-empty title, the optional summary, description, location and author name, and the tags and images element by element. There are at most 9 images, and the tags have no cap. |
| IdeasRoute.Get | src/app/api/ideas/route.ts:16-24 | The reply is 200 with the ideas newest first, or 500 `IDEA.LIST_FAILED`. |
| IdeasRoute.Post | src/app/api/ideas/route.ts:26-43 | The outcomes are: 400 validation error for an invalid body; 400 (not 500) `IDEA.CREATE_FAILED` when the create throws; 201 with the new idea otherwise. Only a 201 changes the store. |
| Text.NonEmptyOr | src/app/api/projects/route.ts:18-19 | A missing or empty string is absent, and any other string is kept. The idea repository applies it to location and author name (ideaRepository.ts:62-63). |
| ProjectsRoute.Get | src/app/api/projects/route.ts:16-27 | The reply is 200 with the bare array of published, filtered projects, each as often as it is stored, newest first, or 500 with an error message. |
| ProjectsRoute.ParseProject | src/app/api/projects/route.ts:5-14 | Each field is the body's member: the non-empty title and description, the author and category ids, the optional content and URLs (each valid or empty), and the tags element by element. |
| ProjectsRoute.Post | src/app/api/projects/route.ts:29-41 | The reply is 201 with the bare project created by the service, exactly when the body is valid and the category exists. Every other case is 400 `Failed to create project`. |

## Left out

- Unicode: `toLowerCase` lowers ASCII letters only. `\p{L}`/`\p{N}` are read as ASCII letters and digits. `\s` and `trim` use JavaScript's whitespace set, and lengths count `char`s, not UTF-16 code units.
- `Math.random` in the fallback slug is the parameter `suffix`. The model does not capture that two names could draw the same random text.
- Prisma: the model covers the sequential effect of each call on in-memory tables. It does not cover concurrency, the atomicity of `{increment: 1}`, `include` relations, or the error of a `findUnique` that does not find a row.
- Schema defaults: views and likes start at 0 and `createdAt` is the database's clock. The Prisma schema file is not part of this model.
- ProjectsRoute.Post: checks the category foreign key but not the author. An `authorId` that names no user is accepted here, while the database would reject it.
- Dates are integer milliseconds. `new Date(...)` parsing and NaN comparisons are not modelled, and zod's URL check and date and number coercion are parameters.
- Sorts are specified as sorted permutations. The model does not say that JavaScript's sort is stable, so ties may come back in any order.
- JavaScript prototype lookups in `normalizeLocale` are not modelled: the table is a finite map, so a key such as `constructor` gives the default here.
- `projectService.getProjectById` and the repository's `findById` are the same lookup; only the repository's is modelled.
- EngagementBar.ServerLikes: takes only a whole-number `data.likes`. Any other value the server sends (a fraction, a string) is read as no count, whereas the component would store it.
- ProjectService.UpdateProject: the data is a `ProjectPatch` holding the fields the repository's `update` writes (title, description, content, URLs, images, attachments, `published`, category, event). The other fields of `Prisma.ProjectUpdateInput` (the counters, the author, `createdAt` and the tag relation) cannot be set through this model.
- TagSelector.TagSelector: the chosen tags are a field of the selector. In the source they belong to the parent, which receives them through `onChange`.
- I/O is not modelled: `fetch`, `response.json`, `NextResponse`, `router.push`/`refresh`, `console.error` and the dynamic catalogue imports. Catalogues are named by their locale.
- The image and attachment uploaders, the markup components, the event and project forms, the middleware and the seed script are not part of this model.

## Findings

| source | as written | input that shows it | evidently intended | confidence | as-written member | corrected member |
|---|---|---|---|---|---|---|
| src/domain/projects/projectRepository.ts:5 | `/[^\\p{L}\\p{N}]+/gu` keeps only the six characters `\`, `p`, `{`, `L`, `}` and `N`. | The tag `React`: after lower-casing, no character is kept, so the slug is `tag-` plus random text. | Letters and numbers are kept (`/[^\p{L}\p{N}]+/gu`), so `React` gets the slug `react`. | not executed | ProjectRepository.AsWrittenDropsLetters | ProjectRepository.CorrectedKeepsLetters |
