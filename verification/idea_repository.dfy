/**
 * The idea repository (src/domain/ideas/ideaRepository.ts): newest-first listing, the single-row
 * reads and counter updates, and `create` with its summary derivation.
 */
module IdeaRepository {
  import opened Wrappers
  import opened Text
  import opened Seqs
  import opened Schema
  import opened Store
  import ProjectService

  /** The class `[#*_>\-\n\r]`: Markdown markers and line breaks. */
  predicate IsMarkup(c: char) {
    c == '#' || c == '*' || c == '_' || c == '>' || c == '-' || c == '\n' || c == '\r'
  }

  function NotMarkup(c: char): bool {
    !IsMarkup(c)
  }

  /** A character that is neither markup nor whitespace: the text a summary carries. */
  predicate IsVisible(c: char) {
    !IsMarkup(c) && !IsSpace(c)
  }

  /**
   * `description.replace(/[#*_>\-\n\r]+/g, ' ').replace(/\s+/g, ' ').trim()`: the description
   * as one line of plain words.
   */
  function Plain(description: string): string {
    Trim(ReplaceRuns(ReplaceRuns(description, IsMarkup, ' '), IsSpace, ' '))
  }

  /** One line of plain words: no markup, single spaces as the only whitespace, none at either end. */
  predicate IsPlainLine(s: string) {
    && (forall i :: 0 <= i < |s| ==> !IsMarkup(s[i]) && (IsSpace(s[i]) ==> s[i] == ' '))
    && (forall i :: 0 <= i < |s| - 1 ==> !(s[i] == ' ' && s[i + 1] == ' '))
  }

  /** A piece of a plain line is a plain line. */
  lemma PlainLineSlice(s: string, a: nat, b: nat)
    requires IsPlainLine(s) && a <= b <= |s|
    ensures IsPlainLine(s[a..b])
  {
    var t := s[a..b];
    assert forall i :: 0 <= i < |t| ==> t[i] == s[a + i];
  }

  /** Both replacements together leave a plain line. */
  lemma CollapsedIsPlainLine(description: string)
    ensures IsPlainLine(ReplaceRuns(ReplaceRuns(description, IsMarkup, ' '), IsSpace, ' '))
  {
    var a := ReplaceRuns(description, IsMarkup, ' ');
    assert forall i :: 0 <= i < |a| ==> NotMarkup(a[i]);
    CollapseKeeps(a, IsSpace, ' ', false, NotMarkup);
  }

  /** Trimming a plain line leaves a plain line. */
  lemma TrimPlainLine(b: string)
    requires IsPlainLine(b)
    ensures IsPlainLine(Trim(b))
  {
    var s := TrimStart(b);
    TrimStartSuffix(b);
    assert s == b[|b| - |s|..|b|];
    PlainLineSlice(b, |b| - |s|, |b|);
    var p := TrimEnd(s);
    PlainLineSlice(s, 0, |p|);
  }

  /** The plain text is a plain line with no whitespace at either end. */
  lemma PlainShape(description: string)
    ensures IsPlainLine(Plain(description))
    ensures var p := Plain(description); p == [] || (!IsSpace(p[0]) && !IsSpace(p[|p| - 1]))
  {
    CollapsedIsPlainLine(description);
    TrimPlainLine(ReplaceRuns(ReplaceRuns(description, IsMarkup, ' '), IsSpace, ' '));
  }

  /** The plain text keeps every visible character of the description, in order, and adds none. */
  lemma PlainKeepsText(description: string)
    ensures Filter(Plain(description), IsVisible) == Filter(description, IsVisible)
  {
    var a := ReplaceRuns(description, IsMarkup, ' ');
    FilterCollapse(description, IsMarkup, ' ', false, IsVisible);
    FilterCollapse(a, IsSpace, ' ', false, IsVisible);
    FilterTrim(ReplaceRuns(a, IsSpace, ' '), IsVisible);
  }

  /** The plain text is empty exactly when the description has no visible character. */
  lemma PlainEmptyIff(description: string)
    ensures Plain(description) == [] <==> forall i :: 0 <= i < |description| ==> !IsVisible(description[i])
  {
    var p := Plain(description);
    PlainShape(description);
    PlainKeepsText(description);
    FilterEmptyIff(p, IsVisible);
    FilterEmptyIff(description, IsVisible);
    assert p != [] ==> IsVisible(p[0]);
  }

  /** A present, non-blank string (`s && s.trim()`). */
  predicate HasText(s: Option<string>) {
    s.Some? && !IsBlank(s.value)
  }

  /**
   * `normalizeSummary`: an explicit summary with text, trimmed; otherwise the first 160
   * characters of the description's plain text; otherwise empty.
   */
  function NormalizeSummary(summary: Option<string>, description: Option<string>): (r: string)
    ensures HasText(summary) ==> r == Trim(summary.value)
    ensures !HasText(summary) ==> |r| <= 160
    ensures !HasText(summary) && HasText(description) ==> r <= Plain(description.value)
    ensures !HasText(summary) && HasText(description) ==>
      |r| == if |Plain(description.value)| <= 160 then |Plain(description.value)| else 160
  {
    if HasText(summary) then Trim(summary.value)
    else if HasText(description) then
      var plain := Plain(description.value);
      if |plain| <= 160 then plain else plain[..160]
    else ""
  }

  /**
   * A derived summary is one line of plain words that starts with a visible character, and it
   * is the whole plain text when that fits in 160 characters.
   */
  lemma DerivedSummaryShape(summary: Option<string>, description: string)
    requires !HasText(summary)
    ensures var r := NormalizeSummary(summary, Some(description));
      && IsPlainLine(r)
      && (r == [] || IsVisible(r[0]))
      && (|Plain(description)| <= 160 ==> r == Plain(description))
  {
    PlainShape(description);
    var p := Plain(description);
    var r := NormalizeSummary(summary, Some(description));
    if !IsBlank(description) {
      assert forall i :: 0 <= i < |r| ==> r[i] == p[i];
    } else {
      PlainEmptyIff(description);
    }
  }

  /**
   * The summary is empty exactly when the explicit summary is blank and the description has no
   * visible character.
   */
  lemma SummaryEmptyIff(summary: Option<string>, description: Option<string>)
    ensures NormalizeSummary(summary, description) == [] <==>
      && !HasText(summary)
      && (description.None? || forall i :: 0 <= i < |description.value| ==> !IsVisible(description.value[i]))
  {
    if HasText(summary) {
      TrimEmptyIffBlank(summary.value);
    } else if HasText(description) {
      var plain := Plain(description.value);
      PlainEmptyIff(description.value);
      assert NormalizeSummary(summary, description) == if |plain| <= 160 then plain else plain[..160];
    } else if description.Some? {
      BlankHasNoVisible(description.value);
    }
  }

  lemma BlankHasNoVisible(s: string)
    requires IsBlank(s)
    ensures forall i :: 0 <= i < |s| ==> !IsVisible(s[i])
  {
  }

  function CreatedAt(i: Idea): int {
    i.createdAt
  }

  /** `list`: every idea once, newest first. */
  function List(db: Database): (r: seq<Idea>)
    reads db
    requires db.Valid()
    ensures SortedBy(r, CreatedAt, true)
    ensures multiset(r) == multiset(db.ideas.Rows())
    ensures forall i :: i in r <==> i in db.ideas.rows.Values
  {
    SortedRows(db.ideas, CreatedAt, true)
  }

  /** `findById`: the idea with that id, if any. */
  function FindById(db: Database, id: string): (r: Option<Idea>)
    reads db
    requires db.Valid()
    ensures r.Some? <==> id in db.ideas.rows
    ensures r.Some? ==> r.value.id == id && r.value in db.ideas.rows.Values
  {
    if id in db.ideas.rows then Some(db.ideas.rows[id]) else None
  }

  /** `findByIdAndIncrementView`: one more view, the updated idea returned. */
  method IncrementViews(db: Database, id: string) returns (r: Result<Idea, StoreError>)
    requires db.Valid()
    modifies db
    ensures db.Valid()
    ensures id !in old(db.ideas.rows) ==> r == Err(RecordNotFound) && db.ideas == old(db.ideas)
    ensures id in old(db.ideas.rows) ==>
      && r == Ok(old(db.ideas.rows[id]).(views := old(db.ideas.rows[id].views) + 1))
      && db.ideas == old(db.ideas).Put(id, r.value)
    ensures db.projects == old(db.projects) && db.tags == old(db.tags) && db.events == old(db.events)
    ensures db.categories == old(db.categories)
  {
    if id !in db.ideas.rows {
      return Err(RecordNotFound);
    }
    var idea := db.ideas.rows[id];
    var updated := idea.(views := idea.views + 1);
    assert updated.id == id by { assert KeyedBy(db.ideas, IdeaId); }
    db.PutIdea(updated);
    r := Ok(updated);
  }

  /** `incrementLikes`: one more like. */
  method IncrementLikes(db: Database, id: string) returns (r: Result<Idea, StoreError>)
    requires db.Valid()
    modifies db
    ensures db.Valid()
    ensures id !in old(db.ideas.rows) ==> r == Err(RecordNotFound) && db.ideas == old(db.ideas)
    ensures id in old(db.ideas.rows) ==>
      && r == Ok(old(db.ideas.rows[id]).(likes := old(db.ideas.rows[id].likes) + 1))
      && db.ideas == old(db.ideas).Put(id, r.value)
    ensures db.projects == old(db.projects) && db.tags == old(db.tags) && db.events == old(db.events)
    ensures db.categories == old(db.categories)
  {
    if id !in db.ideas.rows {
      return Err(RecordNotFound);
    }
    var idea := db.ideas.rows[id];
    var updated := idea.(likes := idea.likes + 1);
    assert updated.id == id by { assert KeyedBy(db.ideas, IdeaId); }
    db.PutIdea(updated);
    r := Ok(updated);
  }

  /** What `create` receives. */
  datatype CreateIdeaInput = CreateIdeaInput(
    title: string,
    summary: Option<string>,
    description: Option<string>,
    tags: Option<seq<string>>,
    images: Option<seq<string>>,
    location: Option<string>,
    authorName: Option<string>)

  /**
   * The row `create` writes: the title trimmed, the derived summary, the description as given,
   * the tags trimmed with blanks dropped (duplicates stay), the non-empty images with the first
   * as thumbnail, empty location and author name dropped, no likes and no views.
   */
  function NewIdea(input: CreateIdeaInput, id: string, now: int): (i: Idea)
    ensures i.id == id && i.createdAt == now && i.likes == 0 && i.views == 0
    ensures i.title == Trim(input.title) && i.description == input.description
    ensures i.summary == NormalizeSummary(input.summary, input.description)
    ensures i.tags == Filter(TrimAll(input.tags.GetOr([])), NonEmpty)
    ensures i.images == Filter(input.images.GetOr([]), NonEmpty)
    ensures i.thumbnail.Some? <==> i.images != []
    ensures i.thumbnail.Some? ==> i.thumbnail.value == i.images[0]
    ensures i.location == NonEmptyOr(input.location) && i.authorName == NonEmptyOr(input.authorName)
  {
    var images := Filter(input.images.GetOr([]), NonEmpty);
    Idea(id, Trim(input.title), NormalizeSummary(input.summary, input.description), input.description,
      Filter(TrimAll(input.tags.GetOr([])), NonEmpty), images,
      if images != [] then Some(images[0]) else None,
      NonEmptyOr(input.location), NonEmptyOr(input.authorName), 0, 0, now)
  }

  /** Every stored tag is a trimmed, non-empty given tag, and every non-blank given tag is stored trimmed. */
  lemma NewIdeaTags(input: CreateIdeaInput, id: string, now: int)
    ensures var t := NewIdea(input, id, now).tags;
      && (forall k :: 0 <= k < |t| ==> t[k] != [] && Trim(t[k]) == t[k])
      && (forall j :: 0 <= j < |input.tags.GetOr([])| && !IsBlank(input.tags.GetOr([])[j]) ==>
            Trim(input.tags.GetOr([])[j]) in t)
  {
    var given := input.tags.GetOr([]);
    var t := NewIdea(input, id, now).tags;
    assert ProjectService.NormalizeTags(Some(given)) == Some(t);
    forall j | 0 <= j < |given| && !IsBlank(given[j]) ensures Trim(given[j]) in t {
      TrimEmptyIffBlank(given[j]);
      FilterMembership(TrimAll(given), NonEmpty, Trim(given[j]));
      assert TrimAll(given)[j] == Trim(given[j]);
    }
  }

  /** `create`: the new idea goes in under the id and creation time the database supplies. */
  method Create(db: Database, input: CreateIdeaInput, id: string, now: int) returns (i: Idea)
    requires db.Valid() && id !in db.ideas.rows
    modifies db
    ensures db.Valid()
    ensures i == NewIdea(input, id, now)
    ensures db.ideas == old(db.ideas).Insert(id, i)
    ensures db.projects == old(db.projects) && db.tags == old(db.tags) && db.events == old(db.events)
    ensures db.categories == old(db.categories)
  {
    i := NewIdea(input, id, now);
    db.InsertIdea(i);
  }
}
