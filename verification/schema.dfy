/**
 * The rows the repositories store, with the fields the code reads and writes. The Prisma schema
 * file is not part of this model; the fields below are the ones the repositories, routes and
 * pages use. Timestamps are integer milliseconds; counters are natural numbers.
 */
module Schema {
  import opened Wrappers
  import opened Json

  /** A tag, identified by its slug (a unique column). */
  datatype Tag = Tag(name: string, slug: string)

  function SlugOf(t: Tag): string {
    t.slug
  }

  datatype Project = Project(
    id: string,
    title: string,
    description: string,
    content: Option<string>,
    repositoryUrl: Option<string>,
    demoUrl: Option<string>,
    thumbnail: Option<string>,
    galleryUrls: Option<seq<string>>,
    attachments: Option<Json>,
    published: bool,
    views: nat,
    likes: nat,
    categoryId: Option<string>,
    authorId: string,
    eventId: Option<string>,
    /** The slugs of the connected tags (a many-to-many relation, so a set). */
    tags: set<string>,
    createdAt: int)

  datatype Idea = Idea(
    id: string,
    title: string,
    summary: string,
    description: Option<string>,
    tags: seq<string>,
    images: seq<string>,
    thumbnail: Option<string>,
    location: Option<string>,
    authorName: Option<string>,
    likes: nat,
    views: nat,
    createdAt: int)

  /** An uploaded file as the event form sends it. */
  datatype Attachment = Attachment(name: string, kind: string, size: real, content: string)

  /** The fields of an event a client supplies; the create input and the stored row share them. */
  datatype EventFields = EventFields(
    title: string,
    subtitle: Option<string>,
    summary: Option<string>,
    description: Option<string>,
    location: Option<string>,
    startAt: int,
    endAt: int,
    registerLink: Option<string>,
    registerDeadline: Option<int>,
    capacity: Option<int>,
    bannerUrl: Option<string>,
    galleryUrls: Option<seq<string>>,
    attachments: Option<seq<Attachment>>,
    status: Option<string>)

  datatype Event = Event(id: string, fields: EventFields, views: nat, likes: nat, createdAt: int)

  /** One field of a partial update: left alone, or set to a value (`null` is `Set(None)`). */
  datatype Patch<+T> = Keep | Set(value: T)

  /** The new value of a field under a patch. */
  function Patched<T>(p: Patch<T>, current: T): T {
    if p.Set? then p.value else current
  }
}
