/** Optional values (JavaScript's `undefined`/`null` alternatives) and a small sequence helper. */
module Wrappers {

  datatype Option<+T> = None | Some(value: T)

  /** A string-valued field that JavaScript treats as true: present and not the empty string. */
  predicate Truthy(v: Option<string>)
  {
    v.Some? && v.value != ""
  }

  /** `v || fallback` for an optional string. */
  function OrElse(v: Option<string>, fallback: string): string
  {
    if Truthy(v) then v.value else fallback
  }

  /** A position at which a member of `s` occurs. */
  lemma MemberIndex<T>(s: seq<T>, x: T) returns (i: nat)
    requires x in s
    ensures i < |s| && s[i] == x
  {
    i :| i < |s| && s[i] == x;
  }
}
