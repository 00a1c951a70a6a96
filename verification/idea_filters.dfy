/**
 * The filter bar above the idea list (src/components/IdeaFilters.tsx): the active tag and the
 * sort, each changed by its handler, which reports the pair to the list through `onFilter`.
 * The report is the handler's result here.
 */
module IdeaFilters {
  /** The sort values the bar offers. */
  const SortOptions: seq<string> := ["latest", "hot", "contribution"]

  /** The pair `onFilter` receives: a tag (or "all") and a sort. */
  datatype Report = Report(tag: string, sort: string)

  class IdeaFilters {
    var activeTag: string
    var sort: string

    /** The bar starts on every tag, newest first. */
    constructor ()
      ensures activeTag == "all" && sort == "latest"
    {
      activeTag := "all";
      sort := "latest";
    }

    /** `handleTag`: the tag changes, the sort stays, and the new tag goes out with the current sort. */
    method HandleTag(tag: string) returns (report: Report)
      modifies this
      ensures activeTag == tag && sort == old(sort)
      ensures report == Report(tag, old(sort))
    {
      activeTag := tag;
      report := Report(tag, sort);
    }

    /** `handleSort`: the sort changes, the tag stays, and the current tag goes out with the new sort. */
    method HandleSort(value: string) returns (report: Report)
      modifies this
      ensures sort == value && activeTag == old(activeTag)
      ensures report == Report(old(activeTag), value)
    {
      sort := value;
      report := Report(activeTag, value);
    }
  }
}
