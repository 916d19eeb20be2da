/** Searching a text, and hexadecimal digits. */
module Texts {
  import opened Common

  /** The first occurrence of `pattern` at or after `from` (`str.find`). */
  function FindFrom(s: string, pattern: string, from: nat): (i: Option<nat>)
    requires from <= |s|
    ensures i.Some? ==> from <= i.value <= |s| - |pattern| && s[i.value..i.value + |pattern|] == pattern
    ensures i.Some? ==> forall k :: from <= k < i.value ==> !(pattern <= s[k..])
    ensures i.None? ==> forall k :: from <= k <= |s| ==> !(pattern <= s[k..])
    decreases |s| - from
  {
    if pattern <= s[from..] then Some(from)
    else if from == |s| then None
    else FindFrom(s, pattern, from + 1)
  }

  function HexValue(c: char): (n: Option<nat>)
    ensures n.Some? ==> n.value < 16
  {
    if '0' <= c <= '9' then Some(c as int - '0' as int)
    else if 'A' <= c <= 'F' then Some(c as int - 'A' as int + 10)
    else if 'a' <= c <= 'f' then Some(c as int - 'a' as int + 10)
    else None
  }
}
