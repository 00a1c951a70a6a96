/**
 * `GET` and `POST /api/events` (src/app/api/events/route.ts): the event schema as a predicate,
 * the fields it hands to the repository, and the status and envelope of each outcome. Reading
 * the request body is an input: `None` when it is not JSON, which throws inside the handler.
 * The flattened zod issues are the input `issues`. A store that cannot be reached is the input
 * `reachable`; an id the store already holds makes `create` throw.
 */
module EventsRoute {
  import opened Wrappers
  import opened Json
  import opened ApiTypes
  import opened Envelope
  import opened Validation
  import opened Schema
  import opened Store
  import EventRepository

  /** One element of `attachments`: `{name, type, size, content}` with a numeric size. */
  predicate ValidAttachment(a: Json) {
    && a.JObj?
    && IsString(a.Get("name")) && IsString(a.Get("type"))
    && a.Get("size").Some? && a.Get("size").value.JNum?
    && IsString(a.Get("content"))
  }

  /** `z.array(attachmentSchema).max(10).optional()`. */
  predicate ValidAttachments(v: Option<Json>) {
    v.None? ||
    (v.value.JArr? && |v.value.items| <= 10
     && forall i :: 0 <= i < |v.value.items| ==> ValidAttachment(v.value.items[i]))
  }

  /** `z.coerce.number().int().positive().optional()`. */
  predicate ValidCapacity(v: Option<Json>, toNumber: Json -> Option<real>) {
    v.None? || (toNumber(v.value).Some? && toNumber(v.value).value.Floor as real == toNumber(v.value).value
                && toNumber(v.value).value > 0.0)
  }

  /** `eventSchema.safeParse(body).success`. */
  predicate ValidEvent(body: Json, isUrl: string -> bool, toDate: Json -> Option<int>, toNumber: Json -> Option<real>) {
    && body.JObj?
    && NonEmptyString(body.Get("title"))
    && OptString(body.Get("subtitle")) && OptString(body.Get("summary"))
    && OptString(body.Get("description")) && OptString(body.Get("location"))
    && IsDate(body.Get("startAt"), toDate) && IsDate(body.Get("endAt"), toDate)
    && UrlOrEmpty(body.Get("registerLink"), isUrl)
    && (body.Get("registerDeadline").None? || IsDate(body.Get("registerDeadline"), toDate))
    && ValidCapacity(body.Get("capacity"), toNumber)
    && UrlOrEmpty(body.Get("bannerUrl"), isUrl)
    && OptStringArray(body.Get("galleryUrls"), Some(10))
    && ValidAttachments(body.Get("attachments"))
    && OptString(body.Get("status"))
  }

  /** `.transform((v) => v || undefined)`: the empty string becomes absent. */
  function EmptyAsAbsent(v: Option<Json>): (r: Option<string>)
    requires v.None? || v.value.JStr?
    ensures r.Some? <==> v.Some? && v.value != JStr("")
    ensures r.Some? ==> v.value == JStr(r.value)
  {
    if v.Some? && v.value.s != "" then Some(v.value.s) else None
  }

  function AttachmentOf(a: Json): (r: Attachment)
    requires ValidAttachment(a)
    ensures a.Get("name") == Some(JStr(r.name)) && a.Get("type") == Some(JStr(r.kind))
    ensures a.Get("size") == Some(JNum(r.size)) && a.Get("content") == Some(JStr(r.content))
  {
    Attachment(a.Get("name").value.s, a.Get("type").value.s, a.Get("size").value.n, a.Get("content").value.s)
  }

  /** The attachments of a valid body, element by element. */
  function AttachmentsOf(v: Option<Json>): (r: Option<seq<Attachment>>)
    requires ValidAttachments(v)
    ensures r.Some? <==> v.Some?
    ensures r.Some? ==>
      && |r.value| == |v.value.items| <= 10
      && forall i :: 0 <= i < |r.value| ==> r.value[i] == AttachmentOf(v.value.items[i])
  {
    if v.Some? then
      Some(seq(|v.value.items|, i requires 0 <= i < |v.value.items| => AttachmentOf(v.value.items[i])))
    else None
  }

  /** An optional date member, read by `z.coerce.date()` when present. */
  function OptDateOf(v: Option<Json>, toDate: Json -> Option<int>): (r: Option<int>)
    requires v.None? || IsDate(v, toDate)
    ensures r.Some? <==> v.Some?
    ensures r.Some? ==> r.value == toDate(v.value).value
  {
    if v.Some? then Some(toDate(v.value).value) else None
  }

  /** The capacity of a valid body: the positive whole number `z.coerce.number()` reads. */
  function CapacityOf(v: Option<Json>, toNumber: Json -> Option<real>): (r: Option<int>)
    requires ValidCapacity(v, toNumber)
    ensures r.Some? <==> v.Some?
    ensures r.Some? ==> r.value > 0 && r.value as real == toNumber(v.value).value
  {
    if v.Some? then Some(toNumber(v.value).value.Floor) else None
  }

  /**
   * `parsed.data`: the fields of a valid body, dates and capacity read, an empty registration
   * link or banner dropped; unknown members are stripped.
   */
  function ParseEvent(body: Json, isUrl: string -> bool, toDate: Json -> Option<int>, toNumber: Json -> Option<real>): (f: EventFields)
    requires ValidEvent(body, isUrl, toDate, toNumber)
    ensures body.Get("title") == Some(JStr(f.title)) && f.title != ""
    ensures && Carries(body.Get("subtitle"), f.subtitle) && Carries(body.Get("summary"), f.summary)
            && Carries(body.Get("description"), f.description) && Carries(body.Get("location"), f.location)
            && Carries(body.Get("status"), f.status)
    ensures Some(f.startAt) == toDate(body.Get("startAt").value) && Some(f.endAt) == toDate(body.Get("endAt").value)
    ensures f.registerDeadline == OptDateOf(body.Get("registerDeadline"), toDate)
    ensures f.registerLink == EmptyAsAbsent(body.Get("registerLink"))
    ensures f.bannerUrl == EmptyAsAbsent(body.Get("bannerUrl"))
    ensures f.capacity == CapacityOf(body.Get("capacity"), toNumber)
    ensures CarriesAll(body.Get("galleryUrls"), f.galleryUrls)
    ensures f.galleryUrls.Some? ==> |f.galleryUrls.value| <= 10
    ensures f.attachments == AttachmentsOf(body.Get("attachments"))
  {
    EventFields(
      body.Get("title").value.s,
      StringOf(body.Get("subtitle")),
      StringOf(body.Get("summary")),
      StringOf(body.Get("description")),
      StringOf(body.Get("location")),
      toDate(body.Get("startAt").value).value,
      toDate(body.Get("endAt").value).value,
      EmptyAsAbsent(body.Get("registerLink")),
      OptDateOf(body.Get("registerDeadline"), toDate),
      CapacityOf(body.Get("capacity"), toNumber),
      EmptyAsAbsent(body.Get("bannerUrl")),
      StringsOf(body.Get("galleryUrls")),
      AttachmentsOf(body.Get("attachments")),
      StringOf(body.Get("status")))
  }

  /** `GET`: every event in the store's order in a success envelope, or 500 `EVENT.LIST_FAILED`. */
  function Get(db: Database, reachable: bool): (r: Reply<seq<Event>>)
    reads db
    requires db.Valid()
    ensures Consistent(r)
    ensures reachable ==> r.status == 200 && r.body == Success(EventRepository.List(db))
    ensures !reachable ==> r.status == 500 && r.body == Failure(ApiError(EventListFailed, None, None))
  {
    if reachable then Reply(200, SuccessResponse(EventRepository.List(db)))
    else Reply(500, ErrorResponse(EventListFailed, None, None))
  }

  /**
   * `POST`: a body that is not JSON, or a store that rejects the row, gives 500
   * `EVENT.CREATE_FAILED`; an invalid body gives 400 `COMMON.VALIDATION_ERROR` with the
   * message "Invalid payload" and the issues; otherwise the parsed fields are stored and the
   * new event comes back with 201. Only a 201 changes the store.
   */
  method Post(db: Database, body: Option<Json>, isUrl: string -> bool, toDate: Json -> Option<int>,
              toNumber: Json -> Option<real>, issues: Json, id: string, now: int)
    returns (r: Reply<Event>)
    requires db.Valid()
    modifies db
    ensures db.Valid() && Consistent(r)
    ensures body.None? ==> r == Reply(500, Failure(ApiError(EventCreateFailed, None, None)))
    ensures body.Some? && !ValidEvent(body.value, isUrl, toDate, toNumber) ==>
      r == Reply(400, Failure(ApiError(CommonValidationError, Some("Invalid payload"), Some(issues))))
    ensures body.Some? && ValidEvent(body.value, isUrl, toDate, toNumber) && id in old(db.events.rows) ==>
      r == Reply(500, Failure(ApiError(EventCreateFailed, None, None)))
    ensures r.status == 201 <==>
      body.Some? && ValidEvent(body.value, isUrl, toDate, toNumber) && id !in old(db.events.rows)
    ensures r.status == 201 ==>
      && r.body.data.fields == ParseEvent(body.value, isUrl, toDate, toNumber)
      && r.body.data.id == id && r.body.data.views == 0 && r.body.data.likes == 0
      && db.events == old(db.events).Insert(id, r.body.data)
    ensures r.status != 201 ==> db.events == old(db.events)
    ensures db.projects == old(db.projects) && db.tags == old(db.tags) && db.ideas == old(db.ideas)
    ensures db.categories == old(db.categories)
  {
    if body.None? {
      return Reply(500, ErrorResponse(EventCreateFailed, None, None));
    }
    if !ValidEvent(body.value, isUrl, toDate, toNumber) {
      return Reply(400, ErrorResponse(CommonValidationError, Some("Invalid payload"), Some(issues)));
    }
    if id in db.events.rows {
      return Reply(500, ErrorResponse(EventCreateFailed, None, None));
    }
    var fields := ParseEvent(body.value, isUrl, toDate, toNumber);
    var event := EventRepository.Create(db, fields, id, now);
    r := Reply(201, SuccessResponse(event));
  }
}
