/**
 * The idea list on the client (src/components/IdeaGridClient.tsx): the tags offered by the filter
 * bar, collected from every idea, and the list shown for the tag and sort the bar reports.
 */
module IdeaGridClient {
  import opened Seqs
  import IdeaFilters

  /** The fields of an idea the list reads; `createdAt` in milliseconds. */
  datatype IdeaItem = IdeaItem(id: string, tags: seq<string>, createdAt: int)

  /** The tags of the ideas one after another, in list order. */
  function AllTags(ideas: seq<IdeaItem>): seq<string>
  {
    if ideas == [] then [] else AllTags(ideas[..|ideas| - 1]) + ideas[|ideas| - 1].tags
  }

  lemma {:induction false} AllTagsMembership(ideas: seq<IdeaItem>, t: string)
    ensures t in AllTags(ideas) <==> exists i :: 0 <= i < |ideas| && t in ideas[i].tags
  {
    if ideas != [] {
      var n := |ideas| - 1;
      AllTagsMembership(ideas[..n], t);
      if t in AllTags(ideas[..n]) {
        var i :| 0 <= i < n && t in ideas[..n][i].tags;
        assert ideas[i] == ideas[..n][i];
      }
      if exists i :: 0 <= i < |ideas| && t in ideas[i].tags {
        var i :| 0 <= i < |ideas| && t in ideas[i].tags;
        if i < n {
          assert ideas[..n][i] == ideas[i];
        }
      }
    }
  }

  function Ident(s: string): string {
    s
  }

  /** A string is found by its own key exactly when it occurs. */
  lemma {:induction false} IndexOfIdent(xs: seq<string>, k: string)
    ensures IndexOfKey(xs, Ident, k) < |xs| <==> k in xs
    decreases |xs|
  {
    if xs != [] && xs[0] != k {
      IndexOfIdent(xs[1..], k);
      assert k in xs <==> k in xs[1..] by {
        assert xs == [xs[0]] + xs[1..];
      }
    }
  }

  /** `Array.from(set)` after adding every tag of every idea: each tag once, in first-seen order. */
  function Tags(ideas: seq<IdeaItem>): seq<string> {
    DistinctBy(AllTags(ideas), Ident)
  }

  /** The offered tags are exactly the tags some idea carries, each listed once. */
  lemma TagsExact(ideas: seq<IdeaItem>)
    ensures forall t :: t in Tags(ideas) <==> exists i :: 0 <= i < |ideas| && t in ideas[i].tags
    ensures forall j, k :: 0 <= j < k < |Tags(ideas)| ==> Tags(ideas)[j] != Tags(ideas)[k]
  {
    var xs := AllTags(ideas);
    var r := Tags(ideas);
    DistinctByComplete(xs, Ident);
    DistinctByFirstSeen(xs, Ident);
    DistinctByUnique(xs, Ident);
    forall t ensures t in r <==> exists i :: 0 <= i < |ideas| && t in ideas[i].tags {
      AllTagsMembership(ideas, t);
      IndexOfIdent(r, t);
      if t in xs {
        var i :| 0 <= i < |xs| && xs[i] == t;
        assert Ident(xs[i]) == t;
      }
      if t in r {
        var j :| 0 <= j < |r| && r[j] == t;
        assert r[j] == xs[IndexOfKey(xs, Ident, Ident(r[j]))];
      }
    }
  }

  /** The offered tags follow the order in which each first appears. */
  lemma TagsFirstSeenOrder(ideas: seq<IdeaItem>)
    ensures forall j, k :: 0 <= j < k < |Tags(ideas)| ==>
      IndexOfKey(AllTags(ideas), Ident, Tags(ideas)[j]) < IndexOfKey(AllTags(ideas), Ident, Tags(ideas)[k])
  {
    DistinctByOrder(AllTags(ideas), Ident);
  }

  /** One more tag seen: it is kept exactly when it is not already kept. */
  lemma AddTagStep(prefix: seq<string>, ts: seq<string>, j: nat)
    requires j < |ts|
    ensures var init := DistinctBy(prefix + ts[..j], Ident);
      DistinctBy(prefix + ts[..j + 1], Ident) == if ts[j] in init then init else init + [ts[j]]
  {
    var xs := prefix + ts;
    DistinctByStep(xs, Ident, |prefix| + j);
    assert xs[..|prefix| + j] == prefix + ts[..j];
    assert xs[..|prefix| + j + 1] == prefix + ts[..j + 1];
    assert xs[|prefix| + j] == ts[j];
    IndexOfIdent(DistinctBy(prefix + ts[..j], Ident), ts[j]);
  }

  /** One more idea seen: its tags follow those of the ideas before it. */
  lemma AddIdeaStep(ideas: seq<IdeaItem>, i: nat)
    requires i < |ideas|
    ensures AllTags(ideas[..i + 1]) == AllTags(ideas[..i]) + ideas[i].tags
  {
    assert ideas[..i + 1][..i] == ideas[..i];
  }

  /** The `forEach` over the ideas and their tags, adding each to a `Set` that keeps insertion order. */
  method CollectTags(ideas: seq<IdeaItem>) returns (tags: seq<string>)
    ensures tags == Tags(ideas)
  {
    var seen: set<string> := {};
    tags := [];
    var i := 0;
    while i < |ideas|
      invariant 0 <= i <= |ideas|
      invariant tags == DistinctBy(AllTags(ideas[..i]), Ident)
      invariant forall t :: t in seen <==> t in tags
    {
      var ts := ideas[i].tags;
      ghost var prefix := AllTags(ideas[..i]);
      var j := 0;
      assert prefix + ts[..0] == prefix;
      while j < |ts|
        invariant 0 <= j <= |ts|
        invariant tags == DistinctBy(prefix + ts[..j], Ident)
        invariant forall t :: t in seen <==> t in tags
      {
        var t := ts[j];
        AddTagStep(prefix, ts, j);
        if t !in seen {
          seen := seen + {t};
          tags := tags + [t];
        }
        j := j + 1;
      }
      AddIdeaStep(ideas, i);
      assert ts[..|ts|] == ts;
      i := i + 1;
    }
    assert ideas[..|ideas|] == ideas;
  }

  function CreatedAt(i: IdeaItem): int {
    i.createdAt
  }

  /** Whether an idea passes the tag filter: "all" passes everything. */
  function Keeps(tag: string): IdeaItem -> bool {
    (idea: IdeaItem) => tag == "all" || tag in idea.tags
  }

  /**
   * The list `handleFilter` shows: always worked out from the full list, so filters never
   * compound; a tag other than "all" keeps exactly the ideas that carry it; "latest" puts the
   * newest first and any other sort keeps the given order.
   */
  function View(ideas: seq<IdeaItem>, tag: string, sort: string): (r: seq<IdeaItem>)
    ensures multiset(r) == multiset(Filter(ideas, Keeps(tag)))
    ensures forall x :: x in r <==> x in ideas && (tag == "all" || tag in x.tags)
    ensures tag == "all" ==> multiset(r) == multiset(ideas)
    ensures sort == "latest" ==> SortedBy(r, CreatedAt, true)
    ensures sort != "latest" ==> r == Filter(ideas, Keeps(tag))
  {
    var next := if tag == "all" then ideas else Filter(ideas, Keeps(tag));
    FilterAll(ideas, Keeps("all"));
    var r := if sort == "latest" then SortBy(next, CreatedAt, true) else next;
    forall x ensures x in r <==> x in ideas && Keeps(tag)(x) {
      FilterMembership(ideas, Keeps(tag), x);
      assert x in r <==> multiset(r)[x] > 0;
      assert x in next <==> multiset(next)[x] > 0;
    }
    r
  }

  /** The list's state: the ideas it was given and the ones it shows. */
  class IdeaGrid {
    const ideas: seq<IdeaItem>
    var filtered: seq<IdeaItem>

    /** At first every idea is shown in the given order. */
    constructor (ideas: seq<IdeaItem>)
      ensures this.ideas == ideas && filtered == ideas
    {
      this.ideas := ideas;
      filtered := ideas;
    }

    /** `handleFilter(tag, sort)`: the shown list becomes the view of the full list. */
    method HandleFilter(tag: string, sort: string)
      modifies this
      ensures filtered == View(ideas, tag, sort)
    {
      var next := ideas;
      if tag != "all" {
        next := Filter(ideas, Keeps(tag));
      }
      if sort == "latest" {
        next := SortBy(next, CreatedAt, true);
      }
      filtered := next;
    }
  }

  /** The bar's state and the list agree: the list shows the view of the bar's tag and sort. */
  predicate InSync(bar: IdeaFilters.IdeaFilters, grid: IdeaGrid)
    reads bar, grid
  {
    grid.filtered == View(grid.ideas, bar.activeTag, bar.sort)
  }

  /** A tag click on the bar, reported to the list: afterwards the two agree, whatever came before. */
  method SelectTag(bar: IdeaFilters.IdeaFilters, grid: IdeaGrid, tag: string)
    modifies bar, grid
    ensures InSync(bar, grid)
    ensures bar.activeTag == tag && bar.sort == old(bar.sort)
  {
    var report := bar.HandleTag(tag);
    grid.HandleFilter(report.tag, report.sort);
  }

  /** A sort choice on the bar, reported to the list: afterwards the two agree. */
  method SelectSort(bar: IdeaFilters.IdeaFilters, grid: IdeaGrid, sort: string)
    modifies bar, grid
    ensures InSync(bar, grid)
    ensures bar.sort == sort && bar.activeTag == old(bar.activeTag)
  {
    var report := bar.HandleSort(sort);
    grid.HandleFilter(report.tag, report.sort);
  }
}
