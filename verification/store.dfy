/**
 * The database the repositories and the project service talk to, standing in for the Prisma
 * client: one table per model, and the meaning of the queries the code builds.
 */
module Store {
  import opened Wrappers
  import opened Text
  import opened Seqs
  import opened Schema
  import opened Json

  /** Prisma's error for an `update` or `delete` whose `where: {id}` matches no row. */
  datatype StoreError = RecordNotFound

  /** The ids of `ids` other than `id`, in order. */
  function Without(ids: seq<string>, id: string): (r: seq<string>)
    ensures forall x :: x in r <==> x in ids && x != id
    ensures (forall i, j :: 0 <= i < j < |ids| ==> ids[i] != ids[j]) ==>
      forall i, j :: 0 <= i < j < |r| ==> r[i] != r[j]
    decreases |ids|
  {
    if ids == [] then []
    else if ids[0] == id then Without(ids[1..], id)
    else
      var rest := Without(ids[1..], id);
      assert (forall i, j :: 0 <= i < j < |ids| ==> ids[i] != ids[j]) ==> ids[0] !in ids[1..];
      [ids[0]] + rest
  }

  /** A table: its rows by id, and the ids in the order the rows were created. */
  datatype Table<R> = Table(rows: map<string, R>, ids: seq<string>) {
    predicate Valid() {
      && (forall i, j :: 0 <= i < j < |ids| ==> ids[i] != ids[j])
      && (forall id :: id in rows ==> id in ids)
      && (forall i :: 0 <= i < |ids| ==> ids[i] in rows)
    }

    function Insert(id: string, r: R): (t: Table<R>)
      requires Valid() && id !in rows
      ensures t.Valid() && t.rows == rows[id := r]
    {
      Table(rows[id := r], ids + [id])
    }

    function Put(id: string, r: R): (t: Table<R>)
      requires Valid() && id in rows
      ensures t.Valid() && t.rows == rows[id := r]
    {
      Table(rows[id := r], ids)
    }

    function Remove(id: string): (t: Table<R>)
      requires Valid() && id in rows
      ensures t.Valid() && t.rows == rows - {id}
    {
      var rest := Without(ids, id);
      assert forall i :: 0 <= i < |rest| ==> rest[i] in rest;
      Table(rows - {id}, rest)
    }

    /** Every row once, in creation order. */
    function Rows(): (rs: seq<R>)
      requires Valid()
      ensures |rs| == |ids| && forall i :: 0 <= i < |ids| ==> rs[i] == rows[ids[i]]
    {
      seq(|ids|, i requires 0 <= i < |ids| => rows[ids[i]])
    }
  }

  function EmptyTable<R>(): (t: Table<R>)
    ensures t.Valid() && t.rows == map[]
  {
    Table(map[], [])
  }

  /** The rows of a valid table are exactly the values of its map. */
  lemma RowsAreValues<R>(t: Table<R>)
    requires t.Valid()
    ensures forall r :: r in t.Rows() <==> r in t.rows.Values
  {
    var rs := t.Rows();
    forall r | r in t.rows.Values ensures r in rs {
      var id :| id in t.rows && t.rows[id] == r;
      var i :| 0 <= i < |t.ids| && t.ids[i] == id;
      assert rs[i] == r;
    }
  }

  /** `findMany({orderBy: {key: direction}})`: every row once, ordered by the key. */
  function SortedRows<R(==,!new)>(t: Table<R>, key: R -> int, descending: bool): (r: seq<R>)
    requires t.Valid()
    ensures SortedBy(r, key, descending)
    ensures multiset(r) == multiset(t.Rows())
    ensures forall x :: x in r <==> x in t.rows.Values
  {
    var r := SortBy(t.Rows(), key, descending);
    RowsAreValues(t);
    assert forall x :: x in r <==> x in t.Rows() by {
      forall x ensures x in r <==> x in t.Rows() {
        assert x in r <==> multiset(r)[x] > 0;
        assert x in t.Rows() <==> multiset(t.Rows())[x] > 0;
      }
    }
    r
  }

  /**
   * A nested `connectOrCreate` list, entry by entry: a tag whose slug exists is connected as it
   * is, otherwise the entry is created.
   */
  function ConnectOrCreate(tags: Table<Tag>, entries: seq<Tag>): (t: Table<Tag>)
    requires tags.Valid()
    ensures t.Valid()
    decreases |entries|
  {
    if entries == [] then tags
    else
      var e := entries[0];
      ConnectOrCreate(if e.slug in tags.rows then tags else tags.Insert(e.slug, e), entries[1..])
  }

  /** After connect-or-create, the slugs are the old ones and those of the list. */
  lemma {:induction false} ConnectOrCreateSlugs(tags: Table<Tag>, entries: seq<Tag>)
    requires tags.Valid()
    ensures forall s :: s in ConnectOrCreate(tags, entries).rows <==>
      s in tags.rows || IndexOfKey(entries, SlugOf, s) < |entries|
    decreases |entries|
  {
    if entries != [] {
      var e := entries[0];
      var next := if e.slug in tags.rows then tags else tags.Insert(e.slug, e);
      ConnectOrCreateSlugs(next, entries[1..]);
      forall s ensures IndexOfKey(entries, SlugOf, s) < |entries| <==>
        s == e.slug || IndexOfKey(entries[1..], SlugOf, s) < |entries| - 1
      {
      }
    }
  }

  /** Connect-or-create connects existing tags as they are: it never renames one. */
  lemma {:induction false} ConnectOrCreateKeeps(tags: Table<Tag>, entries: seq<Tag>)
    requires tags.Valid()
    ensures var t := ConnectOrCreate(tags, entries);
      forall s :: s in tags.rows ==> s in t.rows && t.rows[s] == tags.rows[s]
    decreases |entries|
  {
    if entries != [] {
      var e := entries[0];
      var next := if e.slug in tags.rows then tags else tags.Insert(e.slug, e);
      ConnectOrCreateKeeps(next, entries[1..]);
    }
  }

  /** A slug that did not exist holds the FIRST entry of the list with that slug. */
  lemma {:induction false} ConnectOrCreateFirst(tags: Table<Tag>, entries: seq<Tag>)
    requires tags.Valid()
    ensures var t := ConnectOrCreate(tags, entries);
      forall s :: s in t.rows && s !in tags.rows ==>
        IndexOfKey(entries, SlugOf, s) < |entries| && t.rows[s] == entries[IndexOfKey(entries, SlugOf, s)]
    decreases |entries|
  {
    if entries != [] {
      var e := entries[0];
      var next := if e.slug in tags.rows then tags else tags.Insert(e.slug, e);
      ConnectOrCreateFirst(next, entries[1..]);
      var t := ConnectOrCreate(tags, entries);
      assert t == ConnectOrCreate(next, entries[1..]);
      forall s | s in t.rows && s !in tags.rows
        ensures IndexOfKey(entries, SlugOf, s) < |entries| && t.rows[s] == entries[IndexOfKey(entries, SlugOf, s)]
      {
        if s == e.slug {
          ConnectOrCreateKeeps(next, entries[1..]);
          assert IndexOfKey(entries, SlugOf, s) == 0;
        } else {
          assert IndexOfKey(entries, SlugOf, s) == 1 + IndexOfKey(entries[1..], SlugOf, s);
        }
      }
    }
  }

  /** The `where` of a project query: `published`, an optional category slug, an optional search. */
  datatype ProjectWhere = ProjectWhere(
    published: bool,
    categorySlug: Option<string>,
    search: Option<string>,
    /** `mode: 'insensitive'` on both `contains` conditions. */
    insensitive: bool)

  /** `{contains: search}`, optionally with `mode: 'insensitive'`. */
  predicate ContainsText(field: string, search: string, insensitive: bool) {
    if insensitive then Contains(LowerAll(field), LowerAll(search)) else Contains(field, search)
  }

  /** Whether a project satisfies a `where`; `categories` maps category ids to slugs. */
  predicate Matches(w: ProjectWhere, p: Project, categories: map<string, string>) {
    && p.published == w.published
    && (w.categorySlug.Some? ==>
          p.categoryId.Some? && p.categoryId.value in categories && categories[p.categoryId.value] == w.categorySlug.value)
    && (w.search.Some? ==>
          ContainsText(p.title, w.search.value, w.insensitive) || ContainsText(p.description, w.search.value, w.insensitive))
  }

  function CreatedAt(p: Project): int {
    p.createdAt
  }

  /** `findMany({where, orderBy: {createdAt: 'desc'}})` over the projects. */
  function FindProjects(projects: Table<Project>, w: ProjectWhere, categories: map<string, string>): (r: seq<Project>)
    requires projects.Valid()
    ensures SortedBy(r, CreatedAt, true)
    ensures forall p :: p in r <==> p in projects.rows.Values && Matches(w, p, categories)
    ensures forall p :: multiset(r)[p] == if Matches(w, p, categories) then multiset(projects.Rows())[p] else 0
    ensures forall p :: p in r ==> multiset(r)[p] == multiset(projects.Rows())[p]
  {
    var matching := Filter(projects.Rows(), p => Matches(w, p, categories));
    RowsAreValues(projects);
    FilterCount(projects.Rows(), p => Matches(w, p, categories));
    forall p ensures p in matching <==> p in projects.Rows() && Matches(w, p, categories) {
      FilterMembership(projects.Rows(), p => Matches(w, p, categories), p);
    }
    var r := SortBy(matching, CreatedAt, true);
    assert forall p :: p in r <==> p in matching by {
      forall p ensures p in r <==> p in matching {
        assert p in r <==> multiset(r)[p] > 0;
        assert p in matching <==> multiset(matching)[p] > 0;
      }
    }
    r
  }

  /** The fields `update` may set on a project; `Keep` is a field the data leaves out. */
  datatype ProjectPatch = ProjectPatch(
    title: Patch<string>,
    description: Patch<string>,
    content: Patch<Option<string>>,
    repositoryUrl: Patch<Option<string>>,
    demoUrl: Patch<Option<string>>,
    thumbnail: Patch<Option<string>>,
    galleryUrls: Patch<Option<seq<string>>>,
    attachments: Patch<Option<Json>>,
    published: Patch<bool>,
    categoryId: Patch<Option<string>>,
    eventId: Patch<Option<string>>)

  const NoChanges := ProjectPatch(Keep, Keep, Keep, Keep, Keep, Keep, Keep, Keep, Keep, Keep, Keep)

  /** `update({where: {id}, data})` on one row: each field the data names is overwritten. */
  function ApplyProjectPatch(p: Project, d: ProjectPatch): Project {
    p.(title := Patched(d.title, p.title),
       description := Patched(d.description, p.description),
       content := Patched(d.content, p.content),
       repositoryUrl := Patched(d.repositoryUrl, p.repositoryUrl),
       demoUrl := Patched(d.demoUrl, p.demoUrl),
       thumbnail := Patched(d.thumbnail, p.thumbnail),
       galleryUrls := Patched(d.galleryUrls, p.galleryUrls),
       attachments := Patched(d.attachments, p.attachments),
       published := Patched(d.published, p.published),
       categoryId := Patched(d.categoryId, p.categoryId),
       eventId := Patched(d.eventId, p.eventId))
  }

  /**
   * An update never touches the id, the author, the counters, the tags or the creation time,
   * and data that names no field leaves the row as it was.
   */
  lemma PatchKeepsIdentity(p: Project, d: ProjectPatch)
    ensures var q := ApplyProjectPatch(p, d);
      && q.id == p.id && q.authorId == p.authorId && q.views == p.views && q.likes == p.likes
      && q.tags == p.tags && q.createdAt == p.createdAt
    ensures ApplyProjectPatch(p, NoChanges) == p
  {
  }

  /** A valid table whose rows sit under the key `key` gives them. */
  predicate KeyedBy<R>(t: Table<R>, key: R -> string) {
    t.Valid() && forall id :: id in t.rows ==> key(t.rows[id]) == id
  }

  lemma KeyedInsert<R>(t: Table<R>, key: R -> string, id: string, r: R)
    requires KeyedBy(t, key) && id !in t.rows && key(r) == id
    ensures KeyedBy(t.Insert(id, r), key)
  {
  }

  lemma KeyedPut<R>(t: Table<R>, key: R -> string, id: string, r: R)
    requires KeyedBy(t, key) && id in t.rows && key(r) == id
    ensures KeyedBy(t.Put(id, r), key)
  {
  }

  lemma KeyedRemove<R>(t: Table<R>, key: R -> string, id: string)
    requires KeyedBy(t, key) && id in t.rows
    ensures KeyedBy(t.Remove(id), key)
  {
  }

  function ProjectId(p: Project): string {
    p.id
  }

  function IdeaId(i: Idea): string {
    i.id
  }

  function EventId(e: Event): string {
    e.id
  }

  /** Projects sit under their id and link existing tags only. */
  predicate ProjectsValid(projects: Table<Project>, tags: Table<Tag>) {
    && KeyedBy(projects, ProjectId)
    && forall id :: id in projects.rows ==> projects.rows[id].tags <= tags.rows.Keys
  }

  /** More tags never break the projects' links. */
  lemma ProjectsValidMoreTags(projects: Table<Project>, tags: Table<Tag>, tags': Table<Tag>)
    requires ProjectsValid(projects, tags) && tags.rows.Keys <= tags'.rows.Keys
    ensures ProjectsValid(projects, tags')
  {
  }

  /** Connect-or-create keeps the tags keyed by slug, and afterwards every slug of the list exists. */
  lemma {:induction false} ConnectOrCreateValid(tags: Table<Tag>, entries: seq<Tag>)
    requires KeyedBy(tags, SlugOf)
    ensures KeyedBy(ConnectOrCreate(tags, entries), SlugOf)
    ensures forall e :: e in entries ==> e.slug in ConnectOrCreate(tags, entries).rows
    ensures tags.rows.Keys <= ConnectOrCreate(tags, entries).rows.Keys
    decreases |entries|
  {
    if entries != [] {
      var e := entries[0];
      var next := if e.slug in tags.rows then tags else tags.Insert(e.slug, e);
      ConnectOrCreateValid(next, entries[1..]);
      assert forall x :: x in entries ==> x == e || x in entries[1..];
    }
  }

  /**
   * The Prisma client's tables. `categories` maps category ids to slugs; no operation modelled
   * here writes it.
   */
  class Database {
    var projects: Table<Project>
    var tags: Table<Tag>
    var categories: map<string, string>
    var ideas: Table<Idea>
    var events: Table<Event>

    /** Every table is well formed, rows sit under their own key, and projects only link existing tags. */
    predicate Valid()
      reads this
    {
      && ProjectsValid(projects, tags)
      && KeyedBy(tags, SlugOf)
      && KeyedBy(ideas, IdeaId)
      && KeyedBy(events, EventId)
    }

    constructor (categories: map<string, string>)
      ensures Valid()
      ensures projects.rows == map[] && tags.rows == map[] && ideas.rows == map[] && events.rows == map[]
      ensures this.categories == categories
    {
      projects := EmptyTable();
      tags := EmptyTable();
      this.categories := categories;
      ideas := EmptyTable();
      events := EmptyTable();
    }

    /**
     * `project.create` with a nested `connectOrCreate` of the tag entries: the tags are
     * connected or created, then the row goes in linked to their slugs.
     */
    method CreateProject(p: Project, entries: seq<Tag>)
      requires Valid() && p.id !in projects.rows
      requires p.tags == set e | e in entries :: e.slug
      modifies this
      ensures Valid()
      ensures tags == ConnectOrCreate(old(tags), entries)
      ensures projects == old(projects).Insert(p.id, p)
      ensures ideas == old(ideas) && events == old(events) && categories == old(categories)
    {
      var t := ConnectOrCreate(tags, entries);
      ConnectOrCreateValid(tags, entries);
      ProjectsValidMoreTags(projects, tags, t);
      KeyedInsert(projects, ProjectId, p.id, p);
      tags := t;
      projects := projects.Insert(p.id, p);
    }

    /** `idea.create`: the row goes in under its id. */
    method InsertIdea(i: Idea)
      requires Valid() && i.id !in ideas.rows
      modifies this
      ensures Valid()
      ensures ideas == old(ideas).Insert(i.id, i)
      ensures projects == old(projects) && tags == old(tags) && events == old(events) && categories == old(categories)
    {
      KeyedInsert(ideas, IdeaId, i.id, i);
      ideas := ideas.Insert(i.id, i);
    }

    /** `idea.update` of a row that exists: the row under its id is replaced. */
    method PutIdea(i: Idea)
      requires Valid() && i.id in ideas.rows
      modifies this
      ensures Valid()
      ensures ideas == old(ideas).Put(i.id, i)
      ensures projects == old(projects) && tags == old(tags) && events == old(events) && categories == old(categories)
    {
      KeyedPut(ideas, IdeaId, i.id, i);
      ideas := ideas.Put(i.id, i);
    }

    /** `event.create`: the row goes in under its id. */
    method InsertEvent(e: Event)
      requires Valid() && e.id !in events.rows
      modifies this
      ensures Valid()
      ensures events == old(events).Insert(e.id, e)
      ensures projects == old(projects) && tags == old(tags) && ideas == old(ideas) && categories == old(categories)
    {
      KeyedInsert(events, EventId, e.id, e);
      events := events.Insert(e.id, e);
    }

    /** `event.update` of a row that exists: the row under its id is replaced. */
    method PutEvent(e: Event)
      requires Valid() && e.id in events.rows
      modifies this
      ensures Valid()
      ensures events == old(events).Put(e.id, e)
      ensures projects == old(projects) && tags == old(tags) && ideas == old(ideas) && categories == old(categories)
    {
      KeyedPut(events, EventId, e.id, e);
      events := events.Put(e.id, e);
    }

    /** `project.update({where: {id}, data})`: the fields the data names are overwritten. */
    method UpdateProject(id: string, data: ProjectPatch) returns (r: Result<Project, StoreError>)
      requires Valid()
      modifies this
      ensures Valid()
      ensures id !in old(projects.rows) ==> r == Err(RecordNotFound) && projects == old(projects)
      ensures id in old(projects.rows) ==>
        && r == Ok(ApplyProjectPatch(old(projects.rows[id]), data))
        && projects == old(projects).Put(id, r.value)
      ensures tags == old(tags) && ideas == old(ideas) && events == old(events) && categories == old(categories)
    {
      if id !in projects.rows {
        return Err(RecordNotFound);
      }
      var q := ApplyProjectPatch(projects.rows[id], data);
      PatchKeepsIdentity(projects.rows[id], data);
      KeyedPut(projects, ProjectId, id, q);
      projects := projects.Put(id, q);
      r := Ok(q);
    }

    /** `project.delete({where: {id}})`: the row goes and is returned. */
    method DeleteProject(id: string) returns (r: Result<Project, StoreError>)
      requires Valid()
      modifies this
      ensures Valid()
      ensures id !in old(projects.rows) ==> r == Err(RecordNotFound) && projects == old(projects)
      ensures id in old(projects.rows) ==>
        && r == Ok(old(projects.rows[id]))
        && projects == old(projects).Remove(id)
      ensures tags == old(tags) && ideas == old(ideas) && events == old(events) && categories == old(categories)
    {
      if id !in projects.rows {
        return Err(RecordNotFound);
      }
      r := Ok(projects.rows[id]);
      KeyedRemove(projects, ProjectId, id);
      projects := projects.Remove(id);
    }
  }
}
