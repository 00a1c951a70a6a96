/**
 * The pipeline both `slugify` helpers share: `toLowerCase`, `trim`, every run of characters
 * outside a kept class replaced by one '-', then leading and trailing '-' removed. The two
 * helpers differ in the kept class and in what they do with an empty result, so the class is
 * a parameter here and the properties are proved for every class that does not keep '-'.
 */
module Slugs {
  import opened Text
  import opened Seqs

  /** `s.replace(/^c+/, '')`. */
  function StripLeading(s: string, c: char): (r: string)
    ensures |r| <= |s| && r == s[|s| - |r|..]
    ensures forall i :: 0 <= i < |s| - |r| ==> s[i] == c
    ensures r == [] || r[0] != c
    decreases |s|
  {
    if s != [] && s[0] == c then StripLeading(s[1..], c) else s
  }

  /** `s.replace(/c+$/, '')`. */
  function StripTrailing(s: string, c: char): (r: string)
    ensures |r| <= |s| && r == s[..|r|]
    ensures forall i :: |r| <= i < |s| ==> s[i] == c
    ensures r == [] || r[|r| - 1] != c
    decreases |s|
  {
    if s != [] && s[|s| - 1] == c then StripTrailing(s[..|s| - 1], c) else s
  }

  /** `s.replace(/^-+|-+$/g, '')` with `c` for '-'. */
  function Strip(s: string, c: char): (r: string)
    ensures r == [] || (r[0] != c && r[|r| - 1] != c)
  {
    StripTrailing(StripLeading(s, c), c)
  }

  /** The class `[^kept]`. */
  function NotKept(keep: char -> bool): char -> bool {
    c => !keep(c)
  }

  /** `value.toLowerCase().trim().replace(/[^kept]+/g, '-').replace(/^-+|-+$/g, '')`. */
  function SlugBase(value: string, keep: char -> bool): string {
    Strip(ReplaceRuns(Trim(LowerAll(value)), NotKept(keep), '-'), '-')
  }

  /** Kept characters and '-' only, never two '-' in a row. */
  predicate DashSeparated(s: string, keep: char -> bool) {
    && (forall i :: 0 <= i < |s| ==> keep(s[i]) || s[i] == '-')
    && (forall i :: 0 <= i < |s| - 1 ==> !(s[i] == '-' && s[i + 1] == '-'))
  }

  /** What makes a string a slug over `keep`: kept characters and single inner dashes only. */
  predicate IsSlugOver(s: string, keep: char -> bool) {
    DashSeparated(s, keep) && (s == [] || (s[0] != '-' && s[|s| - 1] != '-'))
  }

  lemma StripLeadingSeparated(s: string, keep: char -> bool)
    requires DashSeparated(s, keep)
    ensures DashSeparated(StripLeading(s, '-'), keep)
  {
    var r := StripLeading(s, '-');
    var k := |s| - |r|;
    assert forall i :: 0 <= i < |r| ==> r[i] == s[k + i];
  }

  lemma StripTrailingSeparated(s: string, keep: char -> bool)
    requires DashSeparated(s, keep)
    ensures DashSeparated(StripTrailing(s, '-'), keep)
  {
    var r := StripTrailing(s, '-');
    assert forall i :: 0 <= i < |r| ==> r[i] == s[i];
  }

  lemma FilterStripLeading(s: string, c: char, p: char -> bool)
    requires !p(c)
    ensures Filter(StripLeading(s, c), p) == Filter(s, p)
  {
    var l := StripLeading(s, c);
    var t := s[..|s| - |l|];
    assert forall i :: 0 <= i < |t| ==> t[i] == c;
    FilterEmptyIff(t, p);
    assert s == t + l;
    FilterConcat(t, l, p);
  }

  lemma FilterStripTrailing(s: string, c: char, p: char -> bool)
    requires !p(c)
    ensures Filter(StripTrailing(s, c), p) == Filter(s, p)
  {
    var r := StripTrailing(s, c);
    var t := s[|r|..];
    assert forall i :: 0 <= i < |t| ==> t[i] == c;
    FilterEmptyIff(t, p);
    assert s == r + t;
    FilterConcat(r, t, p);
  }

  /** For any class that does not keep '-', the pipeline produces a slug over that class. */
  lemma SlugBaseIsSlug(value: string, keep: char -> bool)
    requires !keep('-')
    ensures IsSlugOver(SlugBase(value, keep), keep)
  {
    var cls := NotKept(keep);
    var c := ReplaceRuns(Trim(LowerAll(value)), cls, '-');
    assert cls('-');
    assert DashSeparated(c, keep);
    StripLeadingSeparated(c, keep);
    StripTrailingSeparated(StripLeading(c, '-'), keep);
  }

  /** The kept characters of the lower-cased input all survive, in order, and nothing else kept appears. */
  lemma SlugBaseKeepsKept(value: string, keep: char -> bool)
    requires !keep('-')
    requires forall c :: keep(c) ==> !IsSpace(c)
    ensures Filter(SlugBase(value, keep), keep) == Filter(LowerAll(value), keep)
  {
    var t := Trim(LowerAll(value));
    FilterTrim(LowerAll(value), keep);
    var cls := NotKept(keep);
    assert forall c :: keep(c) ==> !cls(c);
    FilterCollapse(t, cls, '-', false, keep);
    var c := ReplaceRuns(t, cls, '-');
    FilterStripLeading(c, '-', keep);
    FilterStripTrailing(StripLeading(c, '-'), '-', keep);
  }

  /** The pipeline gives the empty string exactly when no character of the lower-cased input is kept. */
  lemma SlugBaseEmptyIff(value: string, keep: char -> bool)
    requires !keep('-')
    requires forall c :: keep(c) ==> !IsSpace(c)
    ensures SlugBase(value, keep) == [] <==> forall i :: 0 <= i < |value| ==> !keep(Lower(value[i]))
  {
    var r := SlugBase(value, keep);
    SlugBaseIsSlug(value, keep);
    SlugBaseKeepsKept(value, keep);
    FilterEmptyIff(r, keep);
    FilterEmptyIff(LowerAll(value), keep);
    assert r != [] ==> keep(r[0]);
  }

  /**
   * A slug over a class of characters that are their own lower case and not whitespace goes
   * through the pipeline unchanged.
   */
  lemma SlugBaseFixesSlugs(s: string, keep: char -> bool)
    requires !keep('-')
    requires forall c :: keep(c) ==> !IsSpace(c) && Lower(c) == c
    requires IsSlugOver(s, keep)
    ensures SlugBase(s, keep) == s
  {
    LowerAllFixed(s);
    assert s == [] || (!IsSpace(s[0]) && !IsSpace(s[|s| - 1]));
    TrimNoEdgeSpace(s);
    var cls := NotKept(keep);
    assert forall i :: 0 <= i < |s| && cls(s[i]) ==> s[i] == '-';
    CollapseFixpoint(s, cls, '-', false);
  }

  /** Under the same conditions the pipeline is idempotent. */
  lemma SlugBaseIdempotent(value: string, keep: char -> bool)
    requires !keep('-')
    requires forall c :: keep(c) ==> !IsSpace(c) && Lower(c) == c
    ensures SlugBase(SlugBase(value, keep), keep) == SlugBase(value, keep)
  {
    SlugBaseIsSlug(value, keep);
    SlugBaseFixesSlugs(SlugBase(value, keep), keep);
  }
}
