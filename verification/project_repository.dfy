/**
 * The project repository (src/domain/projects/projectRepository.ts): its own `slugify` with a
 * random fallback, the `Map`-based tag de-duplication of `create`, the case-insensitive search
 * filter of `list`, the single-row reads and counter updates, and `update` with its gallery rule.
 */
module ProjectRepository {
  import opened Wrappers
  import opened Json
  import opened Text
  import opened Seqs
  import opened Slugs
  import opened Schema
  import opened Store
  import ProjectService

  /**
   * The class `[\\p{L}\\p{N}]` as the regular expression literal is written: the doubled
   * backslash is an escaped backslash, so the class holds the six characters `\`, `p`, `{`,
   * `L`, `}` and `N` rather than the Unicode letter and number properties.
   */
  predicate LiteralKeep(c: char) {
    c == '\\' || c == 'p' || c == '{' || c == 'L' || c == '}' || c == 'N'
  }

  /** The class the code evidently means, letters and digits, restricted to ASCII here. */
  predicate IsAsciiLetterOrDigit(c: char) {
    ('a' <= c <= 'z') || ('A' <= c <= 'Z') || ('0' <= c <= '9')
  }

  /** A kept class the shared pipeline handles: no '-' and no whitespace in it. */
  predicate SlugClass(keep: char -> bool) {
    !keep('-') && forall c :: keep(c) ==> !IsSpace(c)
  }

  /** No character of the lower-cased value is in the class. */
  predicate NothingKept(value: string, keep: char -> bool) {
    forall i :: 0 <= i < |value| ==> !keep(Lower(value[i]))
  }

  /**
   * `slugify` over a kept class: the shared pipeline, and `tag-` followed by the random text
   * `suffix` when the pipeline leaves nothing.
   */
  function SlugifyOver(value: string, keep: char -> bool, suffix: string): (slug: string)
    ensures slug != []
  {
    var base := SlugBase(value, keep);
    if base != [] then base else "tag-" + suffix
  }

  /**
   * The fallback is taken exactly when no character of the lower-cased value is kept;
   * otherwise the slug is a slug over the class holding every kept character in order.
   */
  lemma SlugifyOverCases(value: string, keep: char -> bool, suffix: string)
    requires SlugClass(keep)
    ensures NothingKept(value, keep) ==> SlugifyOver(value, keep, suffix) == "tag-" + suffix
    ensures !NothingKept(value, keep) ==>
      && IsSlugOver(SlugifyOver(value, keep, suffix), keep)
      && Filter(SlugifyOver(value, keep, suffix), keep) == Filter(LowerAll(value), keep)
  {
    SlugBaseEmptyIff(value, keep);
    SlugBaseIsSlug(value, keep);
    SlugBaseKeepsKept(value, keep);
  }

  /** `slugify` as written. */
  function SlugifyAsWritten(value: string, suffix: string): (slug: string) {
    SlugifyOver(value, LiteralKeep, suffix)
  }

  /** `slugify` with the letter-and-digit class the code evidently means. */
  function Slugify(value: string, suffix: string): (slug: string) {
    SlugifyOver(value, IsAsciiLetterOrDigit, suffix)
  }

  /**
   * A name with a letter or digit gets a slug over letters, digits and single inner dashes that
   * keeps all its letters and digits, lower-cased, in order; any other name gets `tag-` and the
   * random text.
   */
  lemma SlugifyCases(value: string, suffix: string)
    ensures NothingKept(value, IsAsciiLetterOrDigit) ==> Slugify(value, suffix) == "tag-" + suffix
    ensures !NothingKept(value, IsAsciiLetterOrDigit) ==>
      && IsSlugOver(Slugify(value, suffix), IsAsciiLetterOrDigit)
      && Filter(Slugify(value, suffix), IsAsciiLetterOrDigit) == Filter(LowerAll(value), IsAsciiLetterOrDigit)
  {
    SlugifyOverCases(value, IsAsciiLetterOrDigit, suffix);
  }

  /**
   * As written, a name made of ordinary letters keeps none of them (only `\`, `p`, `{` and `}`
   * survive lower-casing and the class), so "React" gets a random slug.
   */
  lemma AsWrittenDropsLetters(suffix: string)
    ensures SlugifyAsWritten("React", suffix) == "tag-" + suffix
  {
    assert NothingKept("React", LiteralKeep);
    SlugifyOverCases("React", LiteralKeep, suffix);
  }

  /** With the intended class the letters of "React" make the slug, and no random text is used. */
  lemma CorrectedKeepsLetters(suffix: string)
    ensures Filter(Slugify("React", suffix), IsAsciiLetterOrDigit) == "react"
  {
    assert !IsSpace('R');
    assert IsAsciiLetterOrDigit(Lower("React"[0]));
    assert LowerAll("React") == "react";
    FilterAll("react", IsAsciiLetterOrDigit);
    SlugifyCases("React", suffix);
  }

  /** The map entry of one name, its slug made with the random text `suffix`. */
  function Entry(name: string, keep: char -> bool, suffix: string): Tag {
    Tag(name, SlugifyOver(name, keep, suffix))
  }

  /** The entry of each normalised name, the `i`-th with the random text of the `i`-th call. */
  function SlugEntries(names: seq<string>, keep: char -> bool, suffix: nat -> string): (r: seq<Tag>)
    ensures |r| == |names|
    ensures forall i :: 0 <= i < |names| ==> r[i] == Entry(names[i], keep, suffix(i))
  {
    seq(|names|, i requires 0 <= i < |names| => Entry(names[i], keep, suffix(i)))
  }

  /**
   * The `connectOrCreate` list of `create`: the map of the trimmed, non-blank names read back in
   * insertion order, that is the first entry per slug in first-seen order; absent when no name
   * is left.
   */
  function TagEntries(tags: Option<seq<string>>, keep: char -> bool, suffix: nat -> string): Option<seq<Tag>> {
    var n := ProjectService.NormalizeTags(tags);
    if n.None? || |n.value| == 0 then None else Some(DistinctBy(SlugEntries(n.value, keep, suffix), SlugOf))
  }

  /** Adding an entry to the map: its keys stay the slugs of its values. */
  lemma MapKeysStep(keys: set<string>, values: seq<Tag>, entry: Tag)
    requires forall s :: s in keys <==> IndexOfKey(values, SlugOf, s) < |values|
    ensures forall s :: s in keys + {entry.slug} <==> IndexOfKey(values + [entry], SlugOf, s) < |values| + 1
  {
    forall s ensures s in keys + {entry.slug} <==> IndexOfKey(values + [entry], SlugOf, s) < |values| + 1 {
      IndexOfKeyAppend(values, entry, SlugOf, s);
    }
  }

  /**
   * The `reduce` of `create` over the normalised names into a `Map` keyed by slug, read back in
   * insertion order. `suffix(i)` is the random text of the `i`-th `slugify` call.
   */
  method ReduceToMap(names: seq<string>, keep: char -> bool, suffix: nat -> string) returns (values: seq<Tag>)
    ensures values == DistinctBy(SlugEntries(names, keep, suffix), SlugOf)
  {
    // `slugify` runs once per name, and its result depends on nothing but the name and the
    // call's random text, so the slugs are made up front.
    values := InsertBySlug(SlugEntries(names, keep, suffix));
  }

  /** One insertion keeps the map's keys and values in step with `DistinctBy` of a longer prefix. */
  lemma InsertStep(entries: seq<Tag>, i: nat, keys: set<string>, values: seq<Tag>)
    requires i < |entries|
    requires values == DistinctBy(entries[..i], SlugOf)
    requires forall s :: s in keys <==> IndexOfKey(values, SlugOf, s) < |values|
    ensures var values' := if entries[i].slug in keys then values else values + [entries[i]];
      && values' == DistinctBy(entries[..i + 1], SlugOf)
      && forall s :: s in keys + {entries[i].slug} <==> IndexOfKey(values', SlugOf, s) < |values'|
  {
    var entry := entries[i];
    DistinctByStep(entries, SlugOf, i);
    assert entry.slug in keys <==> IndexOfKey(values, SlugOf, SlugOf(entry)) < |values|;
    if entry.slug !in keys {
      MapKeysStep(keys, values, entry);
    } else {
      assert keys + {entry.slug} == keys;
    }
  }

  /** The `Map` insertions of the reduce: an entry whose slug is already a key is skipped. */
  method InsertBySlug(entries: seq<Tag>) returns (values: seq<Tag>)
    ensures values == DistinctBy(entries, SlugOf)
  {
    // The map's keys, and its values in insertion order.
    var keys: set<string> := {};
    values := [];
    var i := 0;
    while i < |entries|
      invariant 0 <= i <= |entries|
      invariant values == DistinctBy(entries[..i], SlugOf)
      invariant forall s :: s in keys <==> IndexOfKey(values, SlugOf, s) < |values|
    {
      var entry := entries[i];
      InsertStep(entries, i, keys, values);
      if entry.slug !in keys {
        keys := keys + {entry.slug};
        values := values + [entry];
      }
      i := i + 1;
    }
    assert entries[..|entries|] == entries;
  }

  /** The tag list of `create`: absent unless some name is left after normalisation. */
  method TagConnectOrCreate(tags: Option<seq<string>>, keep: char -> bool, suffix: nat -> string) returns (r: Option<seq<Tag>>)
    ensures r == TagEntries(tags, keep, suffix)
  {
    var normalized := ProjectService.NormalizeTags(tags);
    if normalized.None? || |normalized.value| == 0 {
      return None;
    }
    var values := ReduceToMap(normalized.value, keep, suffix);
    r := Some(values);
  }

  /** There is a list exactly when some given name is not blank. */
  lemma TagEntriesPresent(tags: Option<seq<string>>, keep: char -> bool, suffix: nat -> string)
    ensures TagEntries(tags, keep, suffix).None? <==>
      tags.None? || forall i :: 0 <= i < |tags.value| ==> IsBlank(tags.value[i])
  {
    if tags.Some? {
      ProjectService.NormalizedEmptyIff(tags);
    }
  }

  /** No slug occurs twice in the map. */
  lemma SlugMapUnique(names: seq<string>, keep: char -> bool, suffix: nat -> string)
    ensures var r := DistinctBy(SlugEntries(names, keep, suffix), SlugOf);
      forall i, j :: 0 <= i < j < |r| ==> r[i].slug != r[j].slug
  {
    var r := DistinctBy(SlugEntries(names, keep, suffix), SlugOf);
    DistinctByUnique(SlugEntries(names, keep, suffix), SlugOf);
    forall i, j | 0 <= i < j < |r| ensures r[i].slug != r[j].slug {
      assert SlugOf(r[i]) != SlugOf(r[j]);
    }
  }

  /** Each entry holds the first name with its slug: a later name with the same slug is dropped. */
  lemma SlugMapFirstSeen(names: seq<string>, keep: char -> bool, suffix: nat -> string)
    ensures var e := SlugEntries(names, keep, suffix);
      var r := DistinctBy(SlugEntries(names, keep, suffix), SlugOf);
      forall j :: 0 <= j < |r| ==>
        && IndexOfKey(e, SlugOf, r[j].slug) < |names|
        && r[j].name == names[IndexOfKey(e, SlugOf, r[j].slug)]
  {
    DistinctByFirstSeen(SlugEntries(names, keep, suffix), SlugOf);
  }

  /** Every name's slug is in the map. */
  lemma SlugMapComplete(names: seq<string>, keep: char -> bool, suffix: nat -> string)
    ensures var r := DistinctBy(SlugEntries(names, keep, suffix), SlugOf);
      forall i :: 0 <= i < |names| ==> IndexOfKey(r, SlugOf, Entry(names[i], keep, suffix(i)).slug) < |r|
  {
    var e := SlugEntries(names, keep, suffix);
    DistinctByComplete(e, SlugOf);
    assert forall i :: 0 <= i < |names| ==> SlugOf(e[i]) == Entry(names[i], keep, suffix(i)).slug;
  }

  /**
   * Names that differ only in case have one slug when some character of them is kept, so the
   * map keeps the first of them only.
   */
  lemma CaseVariantsShareSlug(a: string, b: string, keep: char -> bool, sa: string, sb: string)
    requires SlugClass(keep) && LowerAll(a) == LowerAll(b) && !NothingKept(a, keep)
    ensures SlugifyOver(a, keep, sa) == SlugifyOver(b, keep, sb)
  {
    SlugBaseEmptyIff(a, keep);
    assert SlugBase(a, keep) == SlugBase(b, keep);
  }

  /** A name of which no character is kept gets the fallback slug. */
  lemma UnkeptEntry(name: string, keep: char -> bool, suffix: string)
    requires NothingKept(name, keep) && SlugClass(keep)
    ensures Entry(name, keep, suffix) == Tag(name, "tag-" + suffix)
  {
    SlugBaseEmptyIff(name, keep);
  }

  /** The entries of two names: each name with the slug of its own call. */
  lemma PairEntries(a: string, b: string, keep: char -> bool, suffix: nat -> string)
    ensures SlugEntries([a, b], keep, suffix) == [Entry(a, keep, suffix(0)), Entry(b, keep, suffix(1))]
  {
  }

  /**
   * Two names of which no character is kept get one random slug each, so the map keeps both
   * whenever the two calls draw different random text.
   */
  lemma UnkeptNamesKeptApart(a: string, b: string, keep: char -> bool, suffix: nat -> string)
    requires NothingKept(a, keep) && NothingKept(b, keep) && SlugClass(keep) && suffix(0) != suffix(1)
    ensures DistinctBy(SlugEntries([a, b], keep, suffix), SlugOf)
      == [Tag(a, "tag-" + suffix(0)), Tag(b, "tag-" + suffix(1))]
  {
    var x, y := Tag(a, "tag-" + suffix(0)), Tag(b, "tag-" + suffix(1));
    PairEntries(a, b, keep, suffix);
    UnkeptEntry(a, keep, suffix(0));
    UnkeptEntry(b, keep, suffix(1));
    assert SlugOf(x) != SlugOf(y) by {
      assert x.slug[4..] == suffix(0) && y.slug[4..] == suffix(1);
    }
    DistinctByPair(x, y, SlugOf);
  }

  /**
   * As written, the case variants `React` and `react` keep no character, so each gets its own
   * random slug and the map keeps both: the opposite of `CaseVariantsShareSlug` for a class
   * that keeps letters.
   */
  lemma AsWrittenCaseVariantsApart(suffix: nat -> string)
    requires suffix(0) != suffix(1)
    ensures DistinctBy(SlugEntries(["React", "react"], LiteralKeep, suffix), SlugOf)
      == [Tag("React", "tag-" + suffix(0)), Tag("react", "tag-" + suffix(1))]
  {
    assert NothingKept("React", LiteralKeep);
    assert NothingKept("react", LiteralKeep);
    UnkeptNamesKeptApart("React", "react", LiteralKeep, suffix);
  }

  /** What `create` receives. */
  datatype CreateInput = CreateInput(
    title: string,
    description: string,
    content: Option<string>,
    repositoryUrl: Option<string>,
    demoUrl: Option<string>,
    categoryId: Option<string>,
    authorId: string,
    tags: Option<seq<string>>,
    images: Option<seq<string>>,
    attachments: Option<Json>,
    eventId: Option<string>)

  /**
   * The row `create` writes. The first image is the thumbnail and the images are the gallery,
   * both only when there is an image; attachments only when truthy; the other fields as given.
   */
  function NewRow(input: CreateInput, id: string, now: int, entries: seq<Tag>): (p: Project)
    ensures p.id == id && p.published && p.views == 0 && p.likes == 0 && p.createdAt == now
    ensures && p.title == input.title && p.description == input.description && p.content == input.content
            && p.repositoryUrl == input.repositoryUrl && p.demoUrl == input.demoUrl
            && p.categoryId == input.categoryId && p.authorId == input.authorId && p.eventId == input.eventId
    ensures p.galleryUrls.Some? <==> input.images.Some? && input.images.value != []
    ensures p.galleryUrls.Some? ==> p.galleryUrls == input.images
    ensures p.thumbnail.Some? <==> p.galleryUrls.Some?
    ensures p.thumbnail.Some? ==> p.thumbnail.value == p.galleryUrls.value[0]
    ensures p.attachments.Some? <==> input.attachments.Some? && Truthy(input.attachments.value)
    ensures p.attachments.Some? ==> p.attachments == input.attachments
    ensures p.tags == set e | e in entries :: e.slug
  {
    var gallery := input.images.GetOr([]);
    var attachments := if input.attachments.Some? && Truthy(input.attachments.value) then input.attachments else None;
    var slugs := set e | e in entries :: e.slug;
    Project(id, input.title, input.description, input.content, input.repositoryUrl, input.demoUrl,
      if gallery != [] then Some(gallery[0]) else None,
      if gallery != [] then Some(gallery) else None,
      attachments, true, 0, 0, input.categoryId, input.authorId, input.eventId, slugs, now)
  }

  /** The entries `create` passes, none when there is no list. */
  function EntriesOf(tags: Option<seq<string>>, keep: char -> bool, suffix: nat -> string): seq<Tag> {
    var c := TagEntries(tags, keep, suffix);
    if c.Some? then c.value else []
  }

  /**
   * `create`: connects or creates the de-duplicated tags, then inserts the row under the id and
   * creation time the database supplies. `keep` is the class of `slugify`: `LiteralKeep` for the
   * code as written, `IsAsciiLetterOrDigit` for the class it evidently means.
   */
  method Create(db: Database, input: CreateInput, id: string, now: int, keep: char -> bool, suffix: nat -> string) returns (p: Project)
    requires db.Valid() && id !in db.projects.rows
    modifies db
    ensures db.Valid()
    ensures p == NewRow(input, id, now, EntriesOf(input.tags, keep, suffix))
    ensures db.tags == ConnectOrCreate(old(db.tags), EntriesOf(input.tags, keep, suffix))
    ensures db.projects == old(db.projects).Insert(id, p)
    ensures db.ideas == old(db.ideas) && db.events == old(db.events) && db.categories == old(db.categories)
  {
    var c := TagConnectOrCreate(input.tags, keep, suffix);
    var entries := if c.Some? then c.value else [];
    p := NewRow(input, id, now, entries);
    db.CreateProject(p, entries);
  }

  /**
   * `buildSearchFilter`: published projects, the category slug when one is given, and a
   * case-insensitive search over title and description when a search text is given.
   */
  method BuildSearchFilter(params: ProjectService.ProjectQuery) returns (w: ProjectWhere)
    ensures w.published && w.insensitive
    ensures w.categorySlug.Some? <==> ProjectService.Given(params.category)
    ensures w.categorySlug.Some? ==> w.categorySlug == params.category
    ensures w.search.Some? <==> ProjectService.Given(params.search)
    ensures w.search.Some? ==> w.search == params.search
  {
    w := ProjectWhere(true, None, None, true);
    if ProjectService.Given(params.category) {
      w := w.(categorySlug := params.category);
    }
    if ProjectService.Given(params.search) {
      w := w.(search := params.search);
    }
  }

  /**
   * `list`: the published projects of the category, whose title or description contains the
   * search text in any case, newest first.
   */
  method List(db: Database, params: ProjectService.ProjectQuery) returns (r: seq<Project>)
    requires db.Valid()
    ensures SortedBy(r, CreatedAt, true)
    ensures forall p :: p in r <==>
      && p in db.projects.rows.Values
      && p.published
      && (ProjectService.Given(params.category) ==>
            p.categoryId.Some? && p.categoryId.value in db.categories
            && db.categories[p.categoryId.value] == params.category.value)
      && (ProjectService.Given(params.search) ==>
            var q := LowerAll(params.search.value);
            Contains(LowerAll(p.title), q) || Contains(LowerAll(p.description), q))
    ensures forall p :: p in r ==> multiset(r)[p] == multiset(db.projects.Rows())[p]
  {
    var w := BuildSearchFilter(params);
    r := FindProjects(db.projects, w, db.categories);
  }

  /**
   * Every project the service's case-sensitive filter lets through, the repository's
   * case-insensitive one lets through too.
   */
  lemma ServiceMatchIsListed(w: ProjectWhere, p: Project, categories: map<string, string>)
    requires !w.insensitive && Matches(w, p, categories)
    ensures Matches(w.(insensitive := true), p, categories)
  {
    if w.search.Some? {
      if Contains(p.title, w.search.value) {
        ContainsLower(p.title, w.search.value);
      } else {
        ContainsLower(p.description, w.search.value);
      }
    }
  }

  /** `findById`: the row with that id, if any. */
  function FindById(db: Database, id: string): (r: Option<Project>)
    reads db
    requires db.Valid()
    ensures r.Some? <==> id in db.projects.rows
    ensures r.Some? ==> r.value.id == id && r.value in db.projects.rows.Values
  {
    if id in db.projects.rows then Some(db.projects.rows[id]) else None
  }

  /** `incrementViews` (and `findByIdAndIncrementView`, the same update): one more view. */
  method IncrementViews(db: Database, id: string) returns (r: Result<Project, StoreError>)
    requires db.Valid()
    modifies db
    ensures db.Valid()
    ensures id !in old(db.projects.rows) ==> r == Err(RecordNotFound) && db.projects == old(db.projects)
    ensures id in old(db.projects.rows) ==>
      && r == Ok(old(db.projects.rows[id]).(views := old(db.projects.rows[id].views) + 1))
      && db.projects == old(db.projects).Put(id, r.value)
    ensures db.tags == old(db.tags) && db.ideas == old(db.ideas) && db.events == old(db.events)
    ensures db.categories == old(db.categories)
  {
    if id !in db.projects.rows {
      return Err(RecordNotFound);
    }
    var p := db.projects.rows[id];
    var q := p.(views := p.views + 1);
    KeyedPut(db.projects, ProjectId, id, q);
    db.projects := db.projects.Put(id, q);
    r := Ok(q);
  }

  /** `incrementLikes`: one more like. */
  method IncrementLikes(db: Database, id: string) returns (r: Result<Project, StoreError>)
    requires db.Valid()
    modifies db
    ensures db.Valid()
    ensures id !in old(db.projects.rows) ==> r == Err(RecordNotFound) && db.projects == old(db.projects)
    ensures id in old(db.projects.rows) ==>
      && r == Ok(old(db.projects.rows[id]).(likes := old(db.projects.rows[id].likes) + 1))
      && db.projects == old(db.projects).Put(id, r.value)
    ensures db.tags == old(db.tags) && db.ideas == old(db.ideas) && db.events == old(db.events)
    ensures db.categories == old(db.categories)
  {
    if id !in db.projects.rows {
      return Err(RecordNotFound);
    }
    var p := db.projects.rows[id];
    var q := p.(likes := p.likes + 1);
    KeyedPut(db.projects, ProjectId, id, q);
    db.projects := db.projects.Put(id, q);
    r := Ok(q);
  }

  /** The data sets a non-empty gallery (`galleryUrls` is an array with an element). */
  predicate GivesGallery(data: ProjectPatch) {
    data.galleryUrls.Set? && data.galleryUrls.value.Some? && |data.galleryUrls.value.value| > 0
  }

  /**
   * `update`: the data as given, except that a non-empty gallery makes its first image the
   * thumbnail, whatever thumbnail the data names.
   */
  method Update(db: Database, id: string, data: ProjectPatch) returns (r: Result<Project, StoreError>)
    requires db.Valid()
    modifies db
    ensures db.Valid()
    ensures id !in old(db.projects.rows) ==> r == Err(RecordNotFound) && db.projects == old(db.projects)
    ensures id in old(db.projects.rows) ==> r.Ok? && db.projects == old(db.projects).Put(id, r.value)
    ensures id in old(db.projects.rows) && !GivesGallery(data) ==>
      r.value == ApplyProjectPatch(old(db.projects.rows[id]), data)
    ensures id in old(db.projects.rows) && GivesGallery(data) ==>
      && r.value == ApplyProjectPatch(old(db.projects.rows[id]), data).(thumbnail := r.value.thumbnail)
      && r.value.galleryUrls == data.galleryUrls.value
      && r.value.thumbnail == Some(r.value.galleryUrls.value[0])
    ensures db.tags == old(db.tags) && db.ideas == old(db.ideas) && db.events == old(db.events)
    ensures db.categories == old(db.categories)
  {
    var updateData := data;
    if GivesGallery(data) {
      updateData := updateData.(thumbnail := Set(Some(data.galleryUrls.value.value[0])));
    }
    r := db.UpdateProject(id, updateData);
  }

  /** `delete`: the row goes and is returned. */
  method Delete(db: Database, id: string) returns (r: Result<Project, StoreError>)
    requires db.Valid()
    modifies db
    ensures db.Valid()
    ensures id !in old(db.projects.rows) ==> r == Err(RecordNotFound) && db.projects == old(db.projects)
    ensures id in old(db.projects.rows) ==>
      && r == Ok(old(db.projects.rows[id]))
      && db.projects == old(db.projects).Remove(id)
      && FindById(db, id).None?
    ensures db.tags == old(db.tags) && db.ideas == old(db.ideas) && db.events == old(db.events)
    ensures db.categories == old(db.categories)
  {
    r := db.DeleteProject(id);
  }
}
