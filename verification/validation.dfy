/**
 * The zod schema pieces the API routes use, as predicates over a parsed JSON body. Whether a
 * string is a URL (`z.string().url()`) and how `z.coerce.date()` and `z.coerce.number()` read a
 * value are not modelled: they are parameters. A member that is absent is `undefined`; JSON
 * `null` is not accepted where `.optional()` is.
 */
module Validation {
  import opened Wrappers
  import opened Json

  /** `z.string()` for a member that must be there. */
  predicate IsString(v: Option<Json>) {
    v.Some? && v.value.JStr?
  }

  /** `z.string().min(1)`. */
  predicate NonEmptyString(v: Option<Json>) {
    IsString(v) && v.value.s != ""
  }

  /** `z.string().optional()`. */
  predicate OptString(v: Option<Json>) {
    v.None? || v.value.JStr?
  }

  /** An optional member holds exactly the optional string `r`: absent when `r` is. */
  predicate Carries(v: Option<Json>, r: Option<string>) {
    && (r.Some? <==> v.Some?)
    && (r.Some? ==> v.value == JStr(r.value))
  }

  /** An optional member holds exactly the optional string list `r`, element by element. */
  predicate CarriesAll(v: Option<Json>, r: Option<seq<string>>) {
    && (r.Some? <==> v.Some?)
    && (r.Some? ==>
          && v.value.JArr? && |v.value.items| == |r.value|
          && forall i :: 0 <= i < |r.value| ==> v.value.items[i] == JStr(r.value[i]))
  }

  /** The value of a member that passed `z.string().optional()`. */
  function StringOf(v: Option<Json>): (r: Option<string>)
    requires OptString(v)
    ensures Carries(v, r)
  {
    if v.Some? then Some(v.value.s) else None
  }

  /** `z.array(z.string())`, with `.max(n)` when a bound is given. */
  predicate StringArray(v: Json, max: Option<nat>) {
    && v.JArr?
    && (forall i :: 0 <= i < |v.items| ==> v.items[i].JStr?)
    && (max.Some? ==> |v.items| <= max.value)
  }

  /** `z.array(z.string()).optional()`, with `.max(n)` when a bound is given. */
  predicate OptStringArray(v: Option<Json>, max: Option<nat>) {
    v.None? || StringArray(v.value, max)
  }

  /** The strings of an array that passed `z.array(z.string())`. */
  function Strings(v: Json): (r: seq<string>)
    requires StringArray(v, None)
    ensures |r| == |v.items| && forall i :: 0 <= i < |r| ==> v.items[i] == JStr(r[i])
  {
    seq(|v.items|, i requires 0 <= i < |v.items| && v.items[i].JStr? => v.items[i].s)
  }

  /** The value of a member that passed `z.array(z.string()).optional()`. */
  function StringsOf(v: Option<Json>): (r: Option<seq<string>>)
    requires OptStringArray(v, None)
    ensures CarriesAll(v, r)
  {
    if v.Some? then Some(Strings(v.value)) else None
  }

  /** `z.string().url().optional().or(z.literal(''))`: absent, the empty string, or a URL. */
  predicate UrlOrEmpty(v: Option<Json>, isUrl: string -> bool) {
    v.None? || (v.value.JStr? && (v.value.s == "" || isUrl(v.value.s)))
  }

  /** `z.coerce.date()`: the member is there and reads as a date. */
  predicate IsDate(v: Option<Json>, toDate: Json -> Option<int>) {
    v.Some? && toDate(v.value).Some?
  }
}
