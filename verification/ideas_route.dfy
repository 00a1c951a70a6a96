/**
 * `GET` and `POST /api/ideas` (src/app/api/ideas/route.ts): the idea schema as a predicate, the
 * input it hands to the repository, and the status and envelope of each outcome. The inputs are
 * those of the events route: the body (`None` when it is not JSON), the flattened issues, and
 * whether the store can be reached.
 */
module IdeasRoute {
  import opened Wrappers
  import opened Json
  import opened ApiTypes
  import opened Envelope
  import opened Validation
  import opened Schema
  import opened Store
  import IdeaRepository

  /** `ideaSchema.safeParse(body).success`: a title, optional strings, tags, and at most 9 images. */
  predicate ValidIdea(body: Json) {
    && body.JObj?
    && NonEmptyString(body.Get("title"))
    && OptString(body.Get("summary")) && OptString(body.Get("description"))
    && OptStringArray(body.Get("tags"), None)
    && OptStringArray(body.Get("images"), Some(9))
    && OptString(body.Get("location")) && OptString(body.Get("authorName"))
  }

  /** `validated.data`: the members of a valid body; unknown members are stripped. */
  function ParseIdea(body: Json): (input: IdeaRepository.CreateIdeaInput)
    requires ValidIdea(body)
    ensures body.Get("title") == Some(JStr(input.title)) && input.title != ""
    ensures && Carries(body.Get("summary"), input.summary) && Carries(body.Get("description"), input.description)
            && Carries(body.Get("location"), input.location) && Carries(body.Get("authorName"), input.authorName)
    ensures CarriesAll(body.Get("tags"), input.tags) && CarriesAll(body.Get("images"), input.images)
    ensures input.images.Some? ==> |input.images.value| <= 9
  {
    IdeaRepository.CreateIdeaInput(
      body.Get("title").value.s,
      StringOf(body.Get("summary")),
      StringOf(body.Get("description")),
      StringsOf(body.Get("tags")),
      StringsOf(body.Get("images")),
      StringOf(body.Get("location")),
      StringOf(body.Get("authorName")))
  }

  /** `GET`: every idea, newest first, in a success envelope, or 500 `IDEA.LIST_FAILED`. */
  function Get(db: Database, reachable: bool): (r: Reply<seq<Idea>>)
    reads db
    requires db.Valid()
    ensures Consistent(r)
    ensures reachable ==> r.status == 200 && r.body == Success(IdeaRepository.List(db))
    ensures !reachable ==> r.status == 500 && r.body == Failure(ApiError(IdeaListFailed, None, None))
  {
    if reachable then Reply(200, SuccessResponse(IdeaRepository.List(db)))
    else Reply(500, ErrorResponse(IdeaListFailed, None, None))
  }

  /**
   * `POST`: an invalid body gives 400 `COMMON.VALIDATION_ERROR` with "Invalid payload" and the
   * issues; a body that is not JSON or a store that rejects the row gives 400 (not 500)
   * `IDEA.CREATE_FAILED`; otherwise the idea is created and comes back with 201. Only a 201
   * changes the store.
   */
  method Post(db: Database, body: Option<Json>, issues: Json, id: string, now: int) returns (r: Reply<Idea>)
    requires db.Valid()
    modifies db
    ensures db.Valid() && Consistent(r)
    ensures body.None? ==> r == Reply(400, Failure(ApiError(IdeaCreateFailed, None, None)))
    ensures body.Some? && !ValidIdea(body.value) ==>
      r == Reply(400, Failure(ApiError(CommonValidationError, Some("Invalid payload"), Some(issues))))
    ensures body.Some? && ValidIdea(body.value) && id in old(db.ideas.rows) ==>
      r == Reply(400, Failure(ApiError(IdeaCreateFailed, None, None)))
    ensures r.status == 201 <==> body.Some? && ValidIdea(body.value) && id !in old(db.ideas.rows)
    ensures r.status == 201 ==>
      && r.body.data == IdeaRepository.NewIdea(ParseIdea(body.value), id, now)
      && db.ideas == old(db.ideas).Insert(id, r.body.data)
    ensures r.status != 201 ==> r.status == 400 && db.ideas == old(db.ideas)
    ensures db.projects == old(db.projects) && db.tags == old(db.tags) && db.events == old(db.events)
    ensures db.categories == old(db.categories)
  {
    if body.None? {
      return Reply(400, ErrorResponse(IdeaCreateFailed, None, None));
    }
    if !ValidIdea(body.value) {
      return Reply(400, ErrorResponse(CommonValidationError, Some("Invalid payload"), Some(issues)));
    }
    if id in db.ideas.rows {
      return Reply(400, ErrorResponse(IdeaCreateFailed, None, None));
    }
    var idea := IdeaRepository.Create(db, ParseIdea(body.value), id, now);
    r := Reply(201, SuccessResponse(idea));
  }
}
