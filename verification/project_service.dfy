/**
 * The project service behind `POST /api/projects` and `GET /api/projects`
 * (src/services/projectService.ts): the ASCII `slugify`, the tag normalisation and
 * de-duplication of `createProject`, the filter of `getProjects`, and the update and delete
 * passthroughs.
 */
module ProjectService {
  import opened Wrappers
  import opened Text
  import opened Seqs
  import opened Slugs
  import opened Schema
  import opened Store

  /**
   * `slugify`: lower-case, trim, every run of characters outside `[a-z0-9]` becomes one '-',
   * then dashes at either end go. The result is a slug over `[a-z0-9]`; it may be empty.
   */
  function Slugify(value: string): (slug: string)
    ensures IsSlugOver(slug, IsAsciiLowerAlnum)
  {
    SlugBaseIsSlug(value, IsAsciiLowerAlnum);
    SlugBase(value, IsAsciiLowerAlnum)
  }

  /** Every ASCII letter and digit of the lower-cased name survives, in order, and no other does. */
  lemma SlugifyKeepsLettersAndDigits(value: string)
    ensures Filter(Slugify(value), IsAsciiLowerAlnum) == Filter(LowerAll(value), IsAsciiLowerAlnum)
  {
    SlugBaseKeepsKept(value, IsAsciiLowerAlnum);
  }

  /**
   * There is no fallback: the slug is empty exactly when the name has no ASCII letter or digit
   * (symbols only, or a name in another script).
   */
  lemma SlugifyEmptyIff(value: string)
    ensures Slugify(value) == [] <==> forall i :: 0 <= i < |value| ==> !IsAsciiLowerAlnum(Lower(value[i]))
  {
    SlugBaseEmptyIff(value, IsAsciiLowerAlnum);
  }

  /** A slug is its own slug. */
  lemma SlugifyIdempotent(value: string)
    ensures Slugify(Slugify(value)) == Slugify(value)
  {
    SlugBaseIdempotent(value, IsAsciiLowerAlnum);
  }

  /** `tags?.map((tag) => tag.trim()).filter(Boolean)`. */
  function NormalizeTags(tags: Option<seq<string>>): (r: Option<seq<string>>)
    ensures r.Some? <==> tags.Some?
    ensures r.Some? ==> forall i :: 0 <= i < |r.value| ==> r.value[i] != [] && Trim(r.value[i]) == r.value[i]
  {
    if tags.None? then None
    else
      var t := TrimAll(tags.value);
      var r := Filter(t, NonEmpty);
      forall i | 0 <= i < |r| ensures Trim(r[i]) == r[i] {
        FilterMembership(t, NonEmpty, r[i]);
        var j :| 0 <= j < |t| && t[j] == r[i];
        TrimIdempotent(tags.value[j]);
      }
      Some(r)
  }

  function Id(s: string): string {
    s
  }

  /** The connect-or-create entry of one tag name. */
  function Entry(name: string): Tag {
    Tag(name, Slugify(name))
  }

  /** The entries of a list of names, in order. */
  function Entries(names: seq<string>): (r: seq<Tag>)
    ensures |r| == |names| && forall i :: 0 <= i < |names| ==> r[i] == Entry(names[i])
  {
    seq(|names|, i requires 0 <= i < |names| => Entry(names[i]))
  }

  /** The names `new Set(normalizedTags)` holds, in insertion order; absent when none is left. */
  function TagNames(tags: Option<seq<string>>): (r: Option<seq<string>>)
    ensures r.None? <==> tags.None? || forall i :: 0 <= i < |tags.value| ==> IsBlank(tags.value[i])
    ensures r.Some? ==> |r.value| > 0
  {
    if tags.None? then None
    else
      var n := NormalizeTags(tags).value;
      NormalizedEmptyIff(tags);
      if |n| == 0 then None
      else
        assert DistinctBy(n, Id) != [] by {
          DistinctByComplete(n, Id);
          assert IndexOfKey(DistinctBy(n, Id), Id, n[0]) < |DistinctBy(n, Id)|;
        }
        Some(DistinctBy(n, Id))
  }

  /**
   * The `connectOrCreate` list of `createProject`: one entry per distinct trimmed, non-blank
   * name, in first-seen order, each with the name's slug; absent when no name is left.
   */
  function TagConnectOrCreate(tags: Option<seq<string>>): (r: Option<seq<Tag>>)
    ensures r.None? <==> TagNames(tags).None?
    ensures r.Some? ==> |r.value| == |TagNames(tags).value|
    ensures r.Some? ==> forall i :: 0 <= i < |r.value| ==> r.value[i].name == TagNames(tags).value[i] && r.value[i].slug == Slugify(r.value[i].name)
  {
    var names := TagNames(tags);
    if names.None? then None else Some(Entries(names.value))
  }

  /** Blank names are exactly the ones normalisation drops. */
  lemma NormalizedEmptyIff(tags: Option<seq<string>>)
    requires tags.Some?
    ensures |NormalizeTags(tags).value| == 0 <==> forall i :: 0 <= i < |tags.value| ==> IsBlank(tags.value[i])
  {
    var t := TrimAll(tags.value);
    FilterEmptyIff(t, NonEmpty);
    forall i | 0 <= i < |tags.value| ensures IsBlank(tags.value[i]) <==> !NonEmpty(t[i]) {
      TrimEmptyIffBlank(tags.value[i]);
    }
  }

  lemma TagNamesValue(tags: Option<seq<string>>)
    requires TagNames(tags).Some?
    ensures TagNames(tags).value == DistinctBy(NormalizeTags(tags).value, Id)
  {
  }

  /** No name occurs twice. */
  lemma TagNamesDistinct(tags: Option<seq<string>>)
    requires TagNames(tags).Some?
    ensures var r := TagNames(tags).value;
      forall i, j :: 0 <= i < j < |r| ==> r[i] != r[j]
  {
    TagNamesValue(tags);
    DistinctByUnique(NormalizeTags(tags).value, Id);
  }

  /** Every name is a trimmed, non-blank input name, at its first occurrence. */
  lemma TagNamesFromInput(tags: Option<seq<string>>)
    requires TagNames(tags).Some?
    ensures var r := TagNames(tags).value;
      forall k :: 0 <= k < |r| ==> r[k] in NormalizeTags(tags).value
  {
    var n := NormalizeTags(tags).value;
    TagNamesValue(tags);
    var r := DistinctBy(n, Id);
    DistinctByFirstSeen(n, Id);
    forall k | 0 <= k < |r| ensures r[k] in n {
      var j := IndexOfKey(n, Id, Id(r[k]));
      assert r[k] == n[j];
    }
  }

  /** Every non-blank input name is there, trimmed. */
  lemma TagNamesComplete(tags: Option<seq<string>>)
    requires TagNames(tags).Some?
    ensures var r := TagNames(tags).value;
      forall i :: 0 <= i < |tags.value| && !IsBlank(tags.value[i]) ==> Trim(tags.value[i]) in r
  {
    var n := NormalizeTags(tags).value;
    var names := DistinctBy(n, Id);
    DistinctByComplete(n, Id);
    var t := TrimAll(tags.value);
    forall i | 0 <= i < |tags.value| && !IsBlank(tags.value[i]) ensures t[i] in names {
      TrimEmptyIffBlank(tags.value[i]);
      FilterMembership(t, NonEmpty, t[i]);
      var j :| 0 <= j < |n| && n[j] == t[i];
      var k := IndexOfKey(names, Id, Id(n[j]));
      assert names[k] == t[i];
    }
  }

  /** Names equal up to ASCII case have one slug. */
  lemma SlugIgnoresCase(a: string, b: string)
    requires LowerAll(a) == LowerAll(b)
    ensures Slugify(a) == Slugify(b)
  {
  }

  /** Names already trimmed, non-blank and distinct are normalised to themselves. */
  lemma NormalizeTrimmed(xs: seq<string>)
    requires forall i :: 0 <= i < |xs| ==> xs[i] != [] && Trim(xs[i]) == xs[i]
    ensures NormalizeTags(Some(xs)) == Some(xs)
  {
    var t := TrimAll(xs);
    assert t == xs;
    FilterAll(t, NonEmpty);
  }

  /**
   * Names already trimmed, non-blank and distinct all go in, in their order. In particular names
   * that differ only in case are different `Set` members: they give two entries with one slug.
   */
  lemma DistinctNamesKept(xs: seq<string>)
    requires xs != []
    requires forall i :: 0 <= i < |xs| ==> xs[i] != [] && Trim(xs[i]) == xs[i]
    requires forall i, j :: 0 <= i < j < |xs| ==> xs[i] != xs[j]
    ensures TagNames(Some(xs)) == Some(xs)
  {
    NormalizeTrimmed(xs);
    assert !IsBlank(xs[0]) by {
      TrimEmptyIffBlank(xs[0]);
    }
    TagNamesValue(Some(xs));
    DistinctByNoDuplicates(xs, Id);
  }

  /** `getProjects` parameters; an empty string counts as absent. */
  datatype ProjectQuery = ProjectQuery(category: Option<string>, search: Option<string>)

  /** JavaScript truthiness of an optional string. */
  predicate Given(s: Option<string>) {
    s.Some? && s.value != ""
  }

  /**
   * Whether `getProjects` lists a project: it is published, it belongs to the given category
   * slug when one is given, and its title or description contains the given search text,
   * case-sensitively.
   */
  predicate Listed(p: Project, params: ProjectQuery, categories: map<string, string>) {
    && p.published
    && (Given(params.category) ==>
          p.categoryId.Some? && p.categoryId.value in categories
          && categories[p.categoryId.value] == params.category.value)
    && (Given(params.search) ==>
          Contains(p.title, params.search.value) || Contains(p.description, params.search.value))
  }

  /** The `where` that `getProjects` builds selects exactly the listed projects. */
  lemma WhereSelectsListed(w: ProjectWhere, params: ProjectQuery, categories: map<string, string>)
    requires w.published && !w.insensitive
    requires w.categorySlug == (if Given(params.category) then params.category else None)
    requires w.search == (if Given(params.search) then params.search else None)
    ensures forall p :: Matches(w, p, categories) <==> Listed(p, params, categories)
  {
  }

  /**
   * `getProjects`: the listed projects, each as often as it is stored, newest first.
   */
  method GetProjects(db: Database, params: ProjectQuery) returns (r: seq<Project>)
    requires db.Valid()
    ensures SortedBy(r, CreatedAt, true)
    ensures forall p :: p in r <==> p in db.projects.rows.Values && Listed(p, params, db.categories)
    ensures forall p :: p in r ==> multiset(r)[p] == multiset(db.projects.Rows())[p]
  {
    var w := ProjectWhere(true, None, None, false);
    if Given(params.category) {
      w := w.(categorySlug := params.category);
    }
    if Given(params.search) {
      w := w.(search := params.search);
    }
    WhereSelectsListed(w, params, db.categories);
    r := FindProjects(db.projects, w, db.categories);
  }

  /** What `createProject` receives once the route has validated the body. */
  datatype ProjectInput = ProjectInput(
    title: string,
    description: string,
    content: Option<string>,
    repositoryUrl: Option<string>,
    demoUrl: Option<string>,
    categoryId: string,
    authorId: string,
    tags: Option<seq<string>>)

  /** The entries to connect or create, none when the `tags` field is left out. */
  function EntriesOf(tags: Option<seq<string>>): seq<Tag> {
    var c := TagConnectOrCreate(tags);
    if c.Some? then c.value else []
  }

  /** The row `createProject` writes: the input fields, `published: true`, the tags' slugs. */
  function NewProject(input: ProjectInput, id: string, now: int): (p: Project)
    ensures p.id == id && p.published && p.views == 0 && p.likes == 0 && p.createdAt == now
    ensures p.title == input.title && p.description == input.description && p.authorId == input.authorId
    ensures p.content == input.content && p.repositoryUrl == input.repositoryUrl && p.demoUrl == input.demoUrl
    ensures p.categoryId == Some(input.categoryId)
    ensures p.tags == set e | e in EntriesOf(input.tags) :: e.slug
    ensures p.thumbnail.None? && p.galleryUrls.None? && p.attachments.None? && p.eventId.None?
  {
    Project(id, input.title, input.description, input.content, input.repositoryUrl, input.demoUrl,
      None, None, None, true, 0, 0, Some(input.categoryId), input.authorId, None,
      set e | e in EntriesOf(input.tags) :: e.slug, now)
  }

  /**
   * `createProject`: connects or creates the tags, then inserts the row under the id and
   * creation time the database supplies.
   */
  method CreateProject(db: Database, input: ProjectInput, id: string, now: int) returns (p: Project)
    requires db.Valid() && id !in db.projects.rows
    modifies db
    ensures db.Valid()
    ensures p == NewProject(input, id, now)
    ensures db.tags == ConnectOrCreate(old(db.tags), EntriesOf(input.tags))
    ensures db.projects == old(db.projects).Insert(id, p)
    ensures db.ideas == old(db.ideas) && db.events == old(db.events) && db.categories == old(db.categories)
  {
    p := NewProject(input, id, now);
    db.CreateProject(p, EntriesOf(input.tags));
  }

  /** `updateProject`: `prisma.project.update` with the caller's data as it is. */
  method UpdateProject(db: Database, id: string, data: ProjectPatch) returns (r: Result<Project, StoreError>)
    requires db.Valid()
    modifies db
    ensures db.Valid()
    ensures id !in old(db.projects.rows) ==> r == Err(RecordNotFound) && db.projects == old(db.projects)
    ensures id in old(db.projects.rows) ==>
      && r == Ok(ApplyProjectPatch(old(db.projects.rows[id]), data))
      && db.projects == old(db.projects).Put(id, r.value)
    ensures db.tags == old(db.tags) && db.ideas == old(db.ideas) && db.events == old(db.events)
    ensures db.categories == old(db.categories)
  {
    r := db.UpdateProject(id, data);
  }

  /** `deleteProject`: `prisma.project.delete`. */
  method DeleteProject(db: Database, id: string) returns (r: Result<Project, StoreError>)
    requires db.Valid()
    modifies db
    ensures db.Valid()
    ensures id !in old(db.projects.rows) ==> r == Err(RecordNotFound) && db.projects == old(db.projects)
    ensures id in old(db.projects.rows) ==>
      && r == Ok(old(db.projects.rows[id]))
      && db.projects == old(db.projects).Remove(id)
    ensures db.tags == old(db.tags) && db.ideas == old(db.ideas) && db.events == old(db.events)
    ensures db.categories == old(db.categories)
  {
    r := db.DeleteProject(id);
  }
}
