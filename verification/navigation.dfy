/** Locale-prefixed URL paths (src/utils/navigation.ts). */
module Navigation {
  import opened Wrappers
  import opened I18n

  /** A path segment as `split('/').filter(Boolean)` leaves them: non-empty, without '/'. */
  predicate IsSegment(seg: string) {
    seg != [] && '/' !in seg
  }

  /** The length of the leading part of `s` that holds no '/'. */
  function SlashFreePrefix(s: string): (n: nat)
    ensures n <= |s|
    ensures forall i :: 0 <= i < n ==> s[i] != '/'
    ensures n < |s| ==> s[n] == '/'
    decreases |s|
  {
    if s == [] || s[0] == '/' then 0 else 1 + SlashFreePrefix(s[1..])
  }

  /** `path.split('/').filter(Boolean)`: the non-empty pieces between slashes, in order. */
  function Segments(path: string): (segs: seq<string>)
    ensures forall i :: 0 <= i < |segs| ==> IsSegment(segs[i])
    decreases |path|
  {
    if path == [] then []
    else if path[0] == '/' then Segments(path[1..])
    else
      var n := SlashFreePrefix(path);
      assert path[..n][0] == path[0];
      [path[..n]] + Segments(path[n..])
  }

  /** `segments.join('/')`. */
  function Join(segs: seq<string>): string {
    if segs == [] then ""
    else if |segs| == 1 then segs[0]
    else segs[0] + "/" + Join(segs[1..])
  }

  /** Splitting a joined, slash-prefixed list of segments gives the list back. */
  lemma {:induction false} SegmentsOfJoin(segs: seq<string>)
    requires forall i :: 0 <= i < |segs| ==> IsSegment(segs[i])
    ensures Segments("/" + Join(segs)) == segs
    decreases |segs|
  {
    if segs != [] {
      var s := "/" + Join(segs);
      var first := segs[0];
      var rest := if |segs| == 1 then "" else "/" + Join(segs[1..]);
      assert s == "/" + first + rest;
      assert s[1..] == first + rest;
      assert SlashFreePrefix(first + rest) == |first| by {
        SlashFreePrefixOfConcat(first, rest);
      }
      assert (first + rest)[..|first|] == first;
      assert (first + rest)[|first|..] == rest;
      if |segs| == 1 {
        assert Segments(rest) == [];
      } else {
        SegmentsOfJoin(segs[1..]);
      }
    }
  }

  lemma SlashFreePrefixOfConcat(first: string, rest: string)
    requires IsSegment(first)
    requires rest == [] || rest[0] == '/'
    ensures SlashFreePrefix(first + rest) == |first|
  {
    var s := first + rest;
    assert forall i :: 0 <= i < |first| ==> s[i] == first[i];
    assert |first| < |s| ==> s[|first|] == rest[0];
  }

  /**
   * The segments of the localised path: a supported locale in front is replaced by the target,
   * anything else is kept behind the target.
   */
  function LocalizedSegments(segs: seq<string>, targetLocale: string): seq<string> {
    if segs != [] && segs[0] in SupportedLocales then [targetLocale] + segs[1..]
    else [targetLocale] + segs
  }

  /** `pathname || '/'`. */
  function PathOrRoot(pathname: Option<string>): string {
    if pathname.None? || pathname.value == "" then "/" else pathname.value
  }

  /** The URL `buildLocalizedPath` returns: the localised segments, then `?` and the query if there is one. */
  function LocalizedPath(pathname: Option<string>, targetLocale: string, searchParams: Option<string>): string {
    var path := "/" + Join(LocalizedSegments(Segments(PathOrRoot(pathname)), targetLocale));
    if searchParams.Some? && searchParams.value != "" then path + "?" + searchParams.value else path
  }

  /** `buildLocalizedPath({pathname, targetLocale, searchParams})`, rebuilding the segment list step by step. */
  method BuildLocalizedPath(pathname: Option<string>, targetLocale: string, searchParams: Option<string>)
    returns (url: string)
    requires targetLocale in SupportedLocales
    ensures url == LocalizedPath(pathname, targetLocale, searchParams)
  {
    var normalizedPath := if pathname.None? || pathname.value == "" then "/" else pathname.value;
    var segments := Segments(normalizedPath);
    if |segments| > 0 {
      var first := segments[0];
      if first in SupportedLocales {
        segments := segments[0 := targetLocale];
      } else {
        segments := [targetLocale] + segments;
      }
    } else {
      segments := segments + [targetLocale];
    }
    var path := "/" + Join(segments);
    if searchParams.Some? && searchParams.value != "" {
      url := path + "?" + searchParams.value;
    } else {
      url := path;
    }
  }

  /** Supported locales are well-formed path segments. */
  lemma LocaleIsSegment(locale: string)
    requires locale in SupportedLocales
    ensures IsSegment(locale)
  {
  }

  /**
   * Without a query, the segments of the result are the localised segments of the input: the
   * target first, then the input's segments without a leading supported locale, in order.
   */
  lemma PathSegments(pathname: Option<string>, targetLocale: string)
    requires targetLocale in SupportedLocales
    ensures var segs := Segments(PathOrRoot(pathname));
      Segments(LocalizedPath(pathname, targetLocale, None)) ==
        if segs != [] && segs[0] in SupportedLocales then [targetLocale] + segs[1..] else [targetLocale] + segs
  {
    var l := LocalizedSegments(Segments(PathOrRoot(pathname)), targetLocale);
    LocaleIsSegment(targetLocale);
    SegmentsOfJoin(l);
  }

  /** A joined, slash-prefixed list starts with its first segment, followed by '/' or nothing. */
  lemma JoinStartsWithFirst(l: seq<string>)
    requires l != []
    ensures var path := "/" + Join(l);
      var n := |l[0]| + 1;
      && |path| >= n && path[..n] == "/" + l[0]
      && (|path| == n || path[n] == '/')
  {
    var path := "/" + Join(l);
    if |l| > 1 {
      assert path == "/" + l[0] + "/" + Join(l[1..]);
    }
  }

  /** The result always starts with `/` and the target locale as a whole first segment. */
  lemma StartsWithLocale(pathname: Option<string>, targetLocale: string, searchParams: Option<string>)
    requires targetLocale in SupportedLocales
    ensures var url := LocalizedPath(pathname, targetLocale, searchParams);
      var n := |targetLocale| + 1;
      && |url| >= n && url[..n] == "/" + targetLocale
      && (|url| == n || url[n] == '/' || url[n] == '?')
  {
    var l := LocalizedSegments(Segments(PathOrRoot(pathname)), targetLocale);
    var n := |targetLocale| + 1;
    var path := "/" + Join(l);
    JoinStartsWithFirst(l);
    var url := LocalizedPath(pathname, targetLocale, searchParams);
    if url != path {
      assert url == path + "?" + searchParams.value;
      assert url[..n] == path[..n];
      assert |path| == n ==> url[n] == '?';
    }
  }

  /** The query is appended, after `?`, exactly when it is non-empty. */
  lemma QueryAppended(pathname: Option<string>, targetLocale: string, searchParams: Option<string>)
    ensures searchParams.Some? && searchParams.value != "" ==>
      LocalizedPath(pathname, targetLocale, searchParams) == LocalizedPath(pathname, targetLocale, None) + "?" + searchParams.value
    ensures searchParams.None? || searchParams.value == "" ==>
      LocalizedPath(pathname, targetLocale, searchParams) == LocalizedPath(pathname, targetLocale, None)
  {
  }

  /** An absent, empty or root path gives just the locale. */
  lemma RootPath(targetLocale: string)
    ensures LocalizedPath(None, targetLocale, None) == "/" + targetLocale
    ensures LocalizedPath(Some(""), targetLocale, None) == "/" + targetLocale
    ensures LocalizedPath(Some("/"), targetLocale, None) == "/" + targetLocale
  {
    assert Segments("/") == Segments("") == [];
  }

  /** Localising a query-free result again, to the same locale, changes nothing. */
  lemma Idempotent(pathname: Option<string>, targetLocale: string)
    requires targetLocale in SupportedLocales
    ensures var url := LocalizedPath(pathname, targetLocale, None);
      LocalizedPath(Some(url), targetLocale, None) == url
  {
    var l := LocalizedSegments(Segments(PathOrRoot(pathname)), targetLocale);
    LocaleIsSegment(targetLocale);
    SegmentsOfJoin(l);
    assert LocalizedSegments(l, targetLocale) == l;
  }

  /** Localising a path given as its segments. */
  lemma LocalizedPathOfJoin(segs: seq<string>, targetLocale: string, searchParams: Option<string>)
    requires forall i :: 0 <= i < |segs| ==> IsSegment(segs[i])
    ensures var path := "/" + Join(LocalizedSegments(segs, targetLocale));
      LocalizedPath(Some("/" + Join(segs)), targetLocale, searchParams)
        == if searchParams.Some? && searchParams.value != "" then path + "?" + searchParams.value else path
  {
    SegmentsOfJoin(segs);
  }

  /** A leading supported locale is replaced by the target; the rest of the path is kept. */
  lemma ReplacesLocalePrefix(locale: string, rest: seq<string>, targetLocale: string)
    requires locale in SupportedLocales
    requires forall i :: 0 <= i < |rest| ==> IsSegment(rest[i])
    ensures LocalizedPath(Some("/" + Join([locale] + rest)), targetLocale, None) == "/" + Join([targetLocale] + rest)
  {
    var segs := [locale] + rest;
    LocalePrefixSegments(locale, rest, targetLocale);
    LocalizedPathOfJoin(segs, targetLocale, None);
  }

  lemma LocalePrefixSegments(locale: string, rest: seq<string>, targetLocale: string)
    requires locale in SupportedLocales
    requires forall i :: 0 <= i < |rest| ==> IsSegment(rest[i])
    ensures var segs := [locale] + rest;
      && (forall i :: 0 <= i < |segs| ==> IsSegment(segs[i]))
      && LocalizedSegments(segs, targetLocale) == [targetLocale] + rest
  {
    var segs := [locale] + rest;
    LocaleIsSegment(locale);
    assert segs[1..] == rest;
  }

  /** A path whose first segment is not a supported locale (`zh`, `submit`) gets the target in front. */
  lemma PrependsLocale(segs: seq<string>, targetLocale: string)
    requires forall i :: 0 <= i < |segs| ==> IsSegment(segs[i])
    requires segs == [] || segs[0] !in SupportedLocales
    ensures LocalizedPath(Some("/" + Join(segs)), targetLocale, None) == "/" + Join([targetLocale] + segs)
  {
    LocalizedPathOfJoin(segs, targetLocale, None);
  }

  /** Empty segments from repeated and trailing slashes are dropped. */
  lemma EmptySegmentsExample()
    ensures LocalizedPath(Some("//a//b/"), "en", None) == "/en/a/b"
  {
    assert Segments("/") == [];
    assert SlashFreePrefix("b/") == 1;
    assert "b/"[..1] == "b" && "b/"[1..] == "/";
    assert Segments("b/") == ["b"];
    assert Segments("//b/") == ["b"];
    assert SlashFreePrefix("a//b/") == 1;
    assert "a//b/"[..1] == "a" && "a//b/"[1..] == "//b/";
    assert Segments("a//b/") == ["a", "b"];
    assert Segments("//a//b/") == ["a", "b"];
  }
}
