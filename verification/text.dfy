/**
 * Character classes and the string operations the core builds on: JavaScript's `trim`, the
 * `\s` class, ASCII lower-casing and the `replace(/[class]+/g, rep)` idiom, which turns every
 * maximal run of characters of one class into a single replacement character.
 */
module Text {
  import opened Seqs
  import opened Wrappers

  /** JavaScript's WhiteSpace and LineTerminator characters: what `trim` removes and `\s` matches. */
  predicate IsSpace(c: char) {
    || c == '\t' || c == '\n' || c == '\U{000B}' || c == '\U{000C}' || c == '\r' || c == ' '
    || c == '\U{00A0}' || c == '\U{1680}' || ('\U{2000}' <= c <= '\U{200A}')
    || c == '\U{2028}' || c == '\U{2029}' || c == '\U{202F}' || c == '\U{205F}'
    || c == '\U{3000}' || c == '\U{FEFF}'
  }

  /** The class `[a-z0-9]`. */
  predicate IsAsciiLowerAlnum(c: char) {
    ('a' <= c <= 'z') || ('0' <= c <= '9')
  }

  /** `toLowerCase` restricted to ASCII: A-Z become a-z, every other character is kept. */
  function Lower(c: char): (r: char)
    ensures 'A' <= c <= 'Z' ==> 'a' <= r <= 'z'
    ensures !('A' <= c <= 'Z') ==> r == c
  {
    if 'A' <= c <= 'Z' then (c as int + 32) as char else c
  }

  function LowerAll(s: string): (r: string)
    ensures |r| == |s|
    ensures forall i :: 0 <= i < |s| ==> r[i] == Lower(s[i])
  {
    seq(|s|, i requires 0 <= i < |s| => Lower(s[i]))
  }

  /** `trimStart`: drops the leading whitespace and nothing else. */
  function TrimStart(s: string): (r: string)
    ensures |r| <= |s|
    ensures forall i :: 0 <= i < |s| - |r| ==> IsSpace(s[i])
    ensures r == [] || !IsSpace(r[0])
    decreases |s|
  {
    if s != [] && IsSpace(s[0]) then TrimStart(s[1..]) else s
  }

  /**
   * `trimStart` keeps a suffix. Stated as a lemma rather than a postcondition: as a
   * postcondition it makes every proof that mentions `trim` much more expensive.
   */
  lemma {:induction false} TrimStartSuffix(s: string)
    ensures TrimStart(s) == s[|s| - |TrimStart(s)|..]
    decreases |s|
  {
    if s != [] && IsSpace(s[0]) {
      TrimStartSuffix(s[1..]);
      assert s[1..][|s| - 1 - |TrimStart(s)|..] == s[|s| - |TrimStart(s)|..];
    }
  }

  /** `trimEnd`: drops the trailing whitespace and nothing else. */
  function TrimEnd(s: string): (r: string)
    ensures |r| <= |s| && r == s[..|r|]
    ensures forall i :: |r| <= i < |s| ==> IsSpace(s[i])
    ensures r == [] || !IsSpace(r[|r| - 1])
    decreases |s|
  {
    if s != [] && IsSpace(s[|s| - 1]) then TrimEnd(s[..|s| - 1]) else s
  }

  /** JavaScript's `trim`. */
  function Trim(s: string): (r: string)
    ensures |r| <= |s|
    ensures r == [] || (!IsSpace(r[0]) && !IsSpace(r[|r| - 1]))
  {
    TrimEnd(TrimStart(s))
  }

  /** `s.trim()` is empty exactly when `s` is made of whitespace only (JavaScript's `!s.trim()`). */
  predicate IsBlank(s: string) {
    forall i :: 0 <= i < |s| ==> IsSpace(s[i])
  }

  lemma TrimEmptyIffBlank(s: string)
    ensures Trim(s) == [] <==> IsBlank(s)
  {
    var t := TrimStart(s);
    TrimStartSuffix(s);
    if !IsBlank(s) {
      var i :| 0 <= i < |s| && !IsSpace(s[i]);
      assert t[i - (|s| - |t|)] == s[i];
    }
  }

  /** A string with no whitespace at either end is its own trim. */
  lemma TrimNoEdgeSpace(s: string)
    requires s == [] || (!IsSpace(s[0]) && !IsSpace(s[|s| - 1]))
    ensures Trim(s) == s
  {
  }

  /** Trimming twice is trimming once. */
  lemma TrimIdempotent(s: string)
    ensures Trim(Trim(s)) == Trim(s)
  {
    TrimNoEdgeSpace(Trim(s));
  }

  /**
   * `s.replace(/[cls]+/g, rep)` read left to right: `inRun` says whether the previous input
   * character belonged to the class, in which case its run already produced its `rep`.
   */
  function CollapseFrom(s: string, cls: char -> bool, rep: char, inRun: bool): (r: string)
    ensures |r| <= |s| + 1
    ensures forall i :: 0 <= i < |r| ==> r[i] == rep || !cls(r[i])
    ensures cls(rep) ==> forall i :: 0 <= i < |r| - 1 ==> !(r[i] == rep && r[i + 1] == rep)
    ensures cls(rep) && inRun && r != [] ==> r[0] != rep
    decreases |s|
  {
    if s == [] then []
    else if !cls(s[0]) then [s[0]] + CollapseFrom(s[1..], cls, rep, false)
    else if inRun then CollapseFrom(s[1..], cls, rep, true)
    else [rep] + CollapseFrom(s[1..], cls, rep, true)
  }

  /** A property every input character and the replacement share holds of every output character. */
  lemma {:induction false} CollapseKeeps(s: string, cls: char -> bool, rep: char, inRun: bool, p: char -> bool)
    requires forall i :: 0 <= i < |s| ==> p(s[i])
    requires p(rep)
    ensures forall i :: 0 <= i < |CollapseFrom(s, cls, rep, inRun)| ==> p(CollapseFrom(s, cls, rep, inRun)[i])
    decreases |s|
  {
    if s != [] {
      var rest := CollapseFrom(s[1..], cls, rep, cls(s[0]));
      assert forall i :: 0 <= i < |s| - 1 ==> p(s[1..][i]);
      CollapseKeeps(s[1..], cls, rep, cls(s[0]), p);
      assert forall j :: 0 <= j < |rest| ==> p(rest[j]);
      var r := CollapseFrom(s, cls, rep, inRun);
      var h := if !cls(s[0]) then [s[0]] else if inRun then [] else [rep];
      assert r == h + rest;
      forall i | 0 <= i < |r| ensures p(r[i]) {
        if i < |h| {
          assert p(s[0]) && r[i] == h[i];
        } else {
          assert r[i] == rest[i - |h|] && p(rest[i - |h|]);
        }
      }
    }
  }

  /** JavaScript's `s.replace(/[cls]+/g, rep)`: every maximal run of class characters becomes one `rep`. */
  function ReplaceRuns(s: string, cls: char -> bool, rep: char): string {
    CollapseFrom(s, cls, rep, false)
  }

  /**
   * A string that already has at most one class character in a row, and only `rep` as class
   * character, is left alone by the replacement.
   */
  lemma {:induction false} CollapseFixpoint(s: string, cls: char -> bool, rep: char, inRun: bool)
    requires forall i :: 0 <= i < |s| && cls(s[i]) ==> s[i] == rep
    requires forall i :: 0 <= i < |s| - 1 ==> !(cls(s[i]) && cls(s[i + 1]))
    requires inRun ==> s == [] || !cls(s[0])
    ensures CollapseFrom(s, cls, rep, inRun) == s
    decreases |s|
  {
    if s != [] {
      CollapseFixpoint(s[1..], cls, rep, cls(s[0]));
    }
  }

  /** Whatever the filter keeps, trimming cannot remove, as long as it keeps no whitespace. */
  lemma FilterTrim(s: string, p: char -> bool)
    requires forall c :: p(c) ==> !IsSpace(c)
    ensures Filter(Trim(s), p) == Filter(s, p)
  {
    FilterTrimStart(s, p);
    FilterTrimEnd(TrimStart(s), p);
  }

  lemma {:induction false} FilterTrimStart(s: string, p: char -> bool)
    requires forall c :: p(c) ==> !IsSpace(c)
    ensures Filter(TrimStart(s), p) == Filter(s, p)
    decreases |s|
  {
    if s != [] && IsSpace(s[0]) {
      FilterTrimStart(s[1..], p);
    }
  }

  lemma FilterTrimEnd(s: string, p: char -> bool)
    requires forall c :: p(c) ==> !IsSpace(c)
    ensures Filter(TrimEnd(s), p) == Filter(s, p)
  {
    var u := TrimEnd(s);
    var w := s[|u|..];
    assert forall i :: 0 <= i < |w| ==> IsSpace(w[i]);
    FilterEmptyIff(w, p);
    assert s == u + w;
    FilterConcat(u, w, p);
  }

  /**
   * The replacement only touches class characters: characters a filter keeps, outside the class,
   * come out unchanged and in order, as long as the filter drops the replacement.
   */
  lemma {:induction false} FilterCollapse(s: string, cls: char -> bool, rep: char, inRun: bool, p: char -> bool)
    requires forall c :: p(c) ==> !cls(c)
    requires !p(rep)
    ensures Filter(CollapseFrom(s, cls, rep, inRun), p) == Filter(s, p)
    decreases |s|
  {
    if s != [] {
      var rest := CollapseFrom(s[1..], cls, rep, cls(s[0]));
      FilterCollapse(s[1..], cls, rep, cls(s[0]), p);
      if !cls(s[0]) {
        FilterConcat([s[0]], rest, p);
      } else if !inRun {
        FilterConcat([rep], rest, p);
      }
    }
  }

  /** Lower-casing leaves a string alone when it holds no upper-case ASCII letter. */
  lemma LowerAllFixed(s: string)
    requires forall i :: 0 <= i < |s| ==> Lower(s[i]) == s[i]
    ensures LowerAll(s) == s
  {
  }

  /** `s.includes(t)`: `t` occurs in `s` as a contiguous piece. */
  predicate Contains(s: string, t: string)
    decreases |s|
  {
    t <= s || (s != [] && Contains(s[1..], t))
  }

  /** A case-sensitive match is also a case-insensitive one. */
  lemma {:induction false} ContainsLower(s: string, t: string)
    requires Contains(s, t)
    ensures Contains(LowerAll(s), LowerAll(t))
    decreases |s|
  {
    if t <= s {
      assert LowerAll(t) <= LowerAll(s);
    } else {
      ContainsLower(s[1..], t);
      assert LowerAll(s)[1..] == LowerAll(s[1..]);
    }
  }

  /** `xs.map((s) => s.trim())`. */
  function TrimAll(xs: seq<string>): (r: seq<string>)
    ensures |r| == |xs| && forall i :: 0 <= i < |xs| ==> r[i] == Trim(xs[i])
  {
    seq(|xs|, i requires 0 <= i < |xs| => Trim(xs[i]))
  }

  /**
   * `s || undefined` for a string that may be missing (an optional field, or a query parameter
   * `get` returns `null` for): the empty string counts as absent.
   */
  function NonEmptyOr(s: Option<string>): (r: Option<string>)
    ensures r.Some? <==> s.Some? && s.value != ""
    ensures r.Some? ==> r == s
  {
    if s.Some? && s.value != "" then s else None
  }

  /** `Boolean(s)` for a string: it is not empty. */
  predicate NonEmpty(s: string) {
    s != []
  }
}
