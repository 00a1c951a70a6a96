/** The response envelope types shared by the API routes and their clients (src/types/api.ts). */
module ApiTypes {
  import opened Wrappers
  import opened Json

  /** The closed taxonomy of error codes. */
  datatype ErrorCode =
    | CommonUnknown | CommonValidationError | CommonBadRequest | CommonNotFound
    | ProjectNotFound | ProjectListFailed | ProjectCreateFailed | ProjectUpdateFailed
    | ProjectDeleteFailed | ProjectMissingAuthor
    | IdeaNotFound | IdeaListFailed | IdeaCreateFailed
    | EventNotFound | EventListFailed | EventCreateFailed | EventUpdateFailed | EventDeleteFailed

  /** Every code, in declaration order. */
  const AllCodes: seq<ErrorCode> := [
    CommonUnknown, CommonValidationError, CommonBadRequest, CommonNotFound,
    ProjectNotFound, ProjectListFailed, ProjectCreateFailed, ProjectUpdateFailed,
    ProjectDeleteFailed, ProjectMissingAuthor,
    IdeaNotFound, IdeaListFailed, IdeaCreateFailed,
    EventNotFound, EventListFailed, EventCreateFailed, EventUpdateFailed, EventDeleteFailed
  ]

  /** The spelling of a code on the wire. */
  function CodeText(c: ErrorCode): string {
    match c
    case CommonUnknown => "COMMON.UNKNOWN"
    case CommonValidationError => "COMMON.VALIDATION_ERROR"
    case CommonBadRequest => "COMMON.BAD_REQUEST"
    case CommonNotFound => "COMMON.NOT_FOUND"
    case ProjectNotFound => "PROJECT.NOT_FOUND"
    case ProjectListFailed => "PROJECT.LIST_FAILED"
    case ProjectCreateFailed => "PROJECT.CREATE_FAILED"
    case ProjectUpdateFailed => "PROJECT.UPDATE_FAILED"
    case ProjectDeleteFailed => "PROJECT.DELETE_FAILED"
    case ProjectMissingAuthor => "PROJECT.MISSING_AUTHOR"
    case IdeaNotFound => "IDEA.NOT_FOUND"
    case IdeaListFailed => "IDEA.LIST_FAILED"
    case IdeaCreateFailed => "IDEA.CREATE_FAILED"
    case EventNotFound => "EVENT.NOT_FOUND"
    case EventListFailed => "EVENT.LIST_FAILED"
    case EventCreateFailed => "EVENT.CREATE_FAILED"
    case EventUpdateFailed => "EVENT.UPDATE_FAILED"
    case EventDeleteFailed => "EVENT.DELETE_FAILED"
  }

  /** The taxonomy is closed: exactly 18 codes, each listed once. */
  lemma TaxonomyClosed()
    ensures |AllCodes| == 18
    ensures forall c: ErrorCode :: c in AllCodes
    ensures forall i, j :: 0 <= i < j < |AllCodes| ==> AllCodes[i] != AllCodes[j]
  {
    forall c: ErrorCode ensures c in AllCodes {
      match c
      case CommonUnknown => assert AllCodes[0] == c;
      case CommonValidationError => assert AllCodes[1] == c;
      case CommonBadRequest => assert AllCodes[2] == c;
      case CommonNotFound => assert AllCodes[3] == c;
      case ProjectNotFound => assert AllCodes[4] == c;
      case ProjectListFailed => assert AllCodes[5] == c;
      case ProjectCreateFailed => assert AllCodes[6] == c;
      case ProjectUpdateFailed => assert AllCodes[7] == c;
      case ProjectDeleteFailed => assert AllCodes[8] == c;
      case ProjectMissingAuthor => assert AllCodes[9] == c;
      case IdeaNotFound => assert AllCodes[10] == c;
      case IdeaListFailed => assert AllCodes[11] == c;
      case IdeaCreateFailed => assert AllCodes[12] == c;
      case EventNotFound => assert AllCodes[13] == c;
      case EventListFailed => assert AllCodes[14] == c;
      case EventCreateFailed => assert AllCodes[15] == c;
      case EventUpdateFailed => assert AllCodes[16] == c;
      case EventDeleteFailed => assert AllCodes[17] == c;
    }
  }

  /** The `error` member of an error envelope: `message` and `details` are optional. */
  datatype ApiError = ApiError(code: ErrorCode, message: Option<string>, details: Option<Json>)

  /**
   * `ApiSuccessResponse<T> | ApiErrorResponse`: the union of the two variants, told apart by the
   * `success` discriminant.
   */
  datatype ApiResponse<+T> = Success(data: T) | Failure(error: ApiError) {
    /** The `success` member. */
    predicate IsSuccess() {
      Success?
    }
  }
}
