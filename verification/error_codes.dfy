/** The table from error code to translation key (src/utils/errorCodes.ts). */
module ErrorCodes {
  import opened Wrappers
  import opened ApiTypes

  const UnknownKey := "error.common.unknown"

  /** `ERROR_MESSAGE_KEYS`: every key lives under `error.`. */
  function MessageKey(c: ErrorCode): (key: string)
    ensures |key| > 6 && key[..6] == "error."
  {
    match c
    case CommonUnknown => "error.common.unknown"
    case CommonBadRequest => "error.common.validation"
    case CommonValidationError => "error.common.validation"
    case CommonNotFound => "error.common.unknown"
    case ProjectNotFound => "error.project.notFound"
    case ProjectListFailed => "error.project.loadFailed"
    case ProjectCreateFailed => "error.project.createFailed"
    case ProjectUpdateFailed => "error.project.updateFailed"
    case ProjectDeleteFailed => "error.project.deleteFailed"
    case ProjectMissingAuthor => "error.project.missingUser"
    case IdeaNotFound => "error.idea.notFound"
    case IdeaListFailed => "error.idea.loadFailed"
    case IdeaCreateFailed => "error.idea.createFailed"
    case EventNotFound => "error.event.notFound"
    case EventListFailed => "error.event.loadFailed"
    case EventCreateFailed => "error.event.createFailed"
    case EventUpdateFailed => "error.event.updateFailed"
    case EventDeleteFailed => "error.event.deleteFailed"
  }

  /**
   * `resolveErrorMessageKey(code?)`: total, never empty, the unknown key for an absent code and
   * the table entry otherwise.
   */
  function ResolveErrorMessageKey(code: Option<ErrorCode>): (key: string)
    ensures |key| > 6 && key[..6] == "error."
    ensures code.None? ==> key == UnknownKey
    ensures code.Some? ==> key == MessageKey(code.value)
  {
    if code.None? then UnknownKey else MessageKey(code.value)
  }

  /** The table entries the repository's tests pin down. */
  lemma ResolveKnownKeys()
    ensures ResolveErrorMessageKey(Some(ProjectNotFound)) == "error.project.notFound"
    ensures ResolveErrorMessageKey(Some(EventCreateFailed)) == "error.event.createFailed"
    ensures ResolveErrorMessageKey(Some(IdeaListFailed)) == "error.idea.loadFailed"
    ensures ResolveErrorMessageKey(None) == "error.common.unknown"
  {
  }

  /**
   * Codes that share a key: both validation codes read as `error.common.validation`,
   * `COMMON.NOT_FOUND` as the unknown key, and every `*.LIST_FAILED` as a `*.loadFailed` key.
   */
  lemma SharedKeys()
    ensures MessageKey(CommonBadRequest) == MessageKey(CommonValidationError) == "error.common.validation"
    ensures MessageKey(CommonNotFound) == MessageKey(CommonUnknown) == UnknownKey
    ensures MessageKey(ProjectListFailed) == "error.project.loadFailed"
    ensures MessageKey(IdeaListFailed) == "error.idea.loadFailed"
    ensures MessageKey(EventListFailed) == "error.event.loadFailed"
  {
  }
}
