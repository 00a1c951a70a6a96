/**
 * The tag picker of the idea and project forms (src/components/TagSelector.tsx). The chosen tags
 * are the parent's state, handed down as `value` and replaced through `onChange`; here they are a
 * field that `onChange` overwrites, next to the text of the input box.
 */
module TagSelector {
  import opened Wrappers
  import opened Text
  import opened Seqs

  /** The suggestions offered when the parent passes none. */
  const Presets: seq<string> :=
    ["AI", "Web3", "Frontend", "Backend", "Mobile", "OpenSource", "DevOps", "Game", "Education", "Social"]

  predicate Distinct(xs: seq<string>) {
    forall i, j :: 0 <= i < j < |xs| ==> xs[i] != xs[j]
  }

  function NotIn(value: seq<string>): string -> bool {
    x => x !in value
  }

  /** `available`: the suggestions not yet chosen, in the order of the suggestions. */
  function Available(suggestions: seq<string>, value: seq<string>): (r: seq<string>)
    ensures forall x :: x in r <==> x in suggestions && x !in value
    ensures forall x :: multiset(r)[x] == if x in value then 0 else multiset(suggestions)[x]
  {
    var r := Filter(suggestions, NotIn(value));
    FilterCount(suggestions, NotIn(value));
    forall x ensures x in r <==> x in suggestions && x !in value {
      FilterMembership(suggestions, NotIn(value), x);
    }
    r
  }

  /** With nothing chosen, every suggestion is offered, in order. */
  lemma AvailableWhenNothingChosen(suggestions: seq<string>)
    ensures Available(suggestions, []) == suggestions
  {
    FilterAll(suggestions, NotIn([]));
  }

  /**
   * The tags after `addTag(tag)`, or `None` when nothing changes: the trimmed tag is appended
   * unless it is empty or already chosen (compared exactly, case included).
   */
  function Added(value: seq<string>, tag: string): (r: Option<seq<string>>)
    ensures r.None? <==> IsBlank(tag) || Trim(tag) in value
    ensures r.Some? ==> |r.value| == |value| + 1 && r.value[..|value|] == value
    ensures r.Some? ==> r.value[|value|] == Trim(tag) && Trim(tag) != []
  {
    TrimEmptyIffBlank(tag);
    var next := Trim(tag);
    if next == [] || next in value then None else Some(value + [next])
  }

  /** `removeTag(tag)`: every copy of the tag goes, the rest keep their order. */
  function Removed(value: seq<string>, tag: string): (r: seq<string>)
    ensures forall x :: x in r <==> x in value && x != tag
    ensures forall x :: x != tag ==> multiset(r)[x] == multiset(value)[x]
  {
    var keep := (x: string) => x != tag;
    var r := Filter(value, keep);
    FilterCount(value, keep);
    forall x ensures x in r <==> x in value && x != tag {
      FilterMembership(value, keep, x);
    }
    r
  }

  /** Offering keeps the suggestions' order: the offer of a concatenation is the offers joined. */
  lemma AvailableConcat(a: seq<string>, b: seq<string>, value: seq<string>)
    ensures Available(a + b, value) == Available(a, value) + Available(b, value)
  {
    FilterConcat(a, b, NotIn(value));
  }

  /** A single suggestion is offered exactly when it is not chosen. */
  lemma AvailableSingleton(x: string, value: seq<string>)
    ensures Available([x], value) == if x in value then [] else [x]
  {
    assert [x][1..] == [];
  }

  /** Removing keeps the tags' order: removing from a concatenation removes from each part. */
  lemma RemovedConcat(a: seq<string>, b: seq<string>, tag: string)
    ensures Removed(a + b, tag) == Removed(a, tag) + Removed(b, tag)
  {
    FilterConcat(a, b, (x: string) => x != tag);
  }

  /** A single tag survives exactly when it is not the one removed. */
  lemma RemovedSingleton(x: string, tag: string)
    ensures Removed([x], tag) == if x == tag then [] else [x]
  {
    assert [x][1..] == [];
  }

  /** Adding never creates a duplicate. */
  lemma AddKeepsDistinct(value: seq<string>, tag: string)
    requires Distinct(value)
    ensures Distinct(Added(value, tag).GetOr(value))
  {
  }

  /** Removing a tag that was just added gives the tags back. */
  lemma RemoveUndoesAdd(value: seq<string>, tag: string)
    requires Added(value, tag).Some?
    ensures Removed(Added(value, tag).value, Trim(tag)) == value
  {
    var t := Trim(tag);
    var keep := (x: string) => x != t;
    assert Added(value, tag).value == value + [t];
    FilterConcat(value, [t], keep);
    FilterAll(value, keep);
    assert Filter([t], keep) == [];
  }

  /** Removing keeps a list free of duplicates and removes the tag from it entirely. */
  lemma RemoveKeepsDistinct(value: seq<string>, tag: string)
    requires Distinct(value)
    ensures Distinct(Removed(value, tag)) && tag !in Removed(value, tag)
  {
    var r := Removed(value, tag);
    forall i, j | 0 <= i < j < |r| ensures r[i] != r[j] {
      if r[i] == r[j] {
        RepeatCount(r, i, j);
        DistinctCount(value, r[i]);
        assert false;
      }
    }
  }

  /** An element found at two positions occurs at least twice. */
  lemma RepeatCount(r: seq<string>, i: nat, j: nat)
    requires i < j < |r| && r[i] == r[j]
    ensures multiset(r)[r[i]] >= 2
  {
    assert r == r[..i] + [r[i]] + r[i + 1..j] + [r[j]] + r[j + 1..];
  }

  /** In a list without duplicates every element occurs once. */
  lemma {:induction false} DistinctCount(xs: seq<string>, x: string)
    requires Distinct(xs)
    ensures multiset(xs)[x] <= 1
    decreases |xs|
  {
    if xs != [] {
      DistinctCount(xs[1..], x);
      assert xs == [xs[0]] + xs[1..];
      if xs[0] == x {
        assert x !in xs[1..];
      }
    }
  }

  /** The picker's state: the chosen tags, the suggestions and the text box. */
  class TagSelector {
    var value: seq<string>
    const suggestions: seq<string>
    var input: string

    /** The suggestions default to the presets; the text box starts empty. */
    constructor (value: seq<string>, suggestions: Option<seq<string>>)
      ensures this.value == value && this.suggestions == suggestions.GetOr(Presets) && input == ""
    {
      this.value := value;
      this.suggestions := suggestions.GetOr(Presets);
      input := "";
    }

    /** Typing in the text box. */
    method SetInput(text: string)
      modifies this
      ensures input == text && value == old(value)
    {
      input := text;
    }

    /**
     * `addTag(tag)`: a blank or already chosen tag changes nothing, the text box included;
     * otherwise the trimmed tag is appended and the text box is cleared.
     */
    method AddTag(tag: string)
      modifies this
      ensures Added(old(value), tag).None? ==> value == old(value) && input == old(input)
      ensures Added(old(value), tag).Some? ==> value == Added(old(value), tag).value && input == ""
      ensures Distinct(old(value)) ==> Distinct(value)
    {
      var next := Trim(tag);
      TrimEmptyIffBlank(tag);
      if next == [] {
        return;
      }
      if next in value {
        return;
      }
      if Distinct(value) {
        AddKeepsDistinct(value, tag);
      }
      value := value + [next];
      input := "";
    }

    /** `removeTag(tag)`: the tag goes from the chosen ones; the text box is left alone. */
    method RemoveTag(tag: string)
      modifies this
      ensures value == Removed(old(value), tag) && input == old(input)
      ensures Distinct(old(value)) ==> Distinct(value)
    {
      if Distinct(value) {
        RemoveKeepsDistinct(value, tag);
      }
      value := Removed(value, tag);
    }

    function Offered(): (r: seq<string>)
      reads this
      ensures forall x :: x in r <==> x in suggestions && x !in value
    {
      Available(suggestions, value)
    }
  }
}
