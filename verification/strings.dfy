/**
 * The JavaScript string built-ins the plugin relies on, on `string = seq<char>`:
 * the `\s` character class, `toLowerCase`, `indexOf`, `lastIndexOf`, `includes`
 * and `replace` with a string pattern.
 */
module Strings {

  /** JavaScript's `\s`: the ASCII blanks, NBSP, the Unicode space separators,
      the line and paragraph separators and the byte-order mark. */
  predicate IsSpace(c: char) {
    var n := c as int;
    n == 0x20 || (0x09 <= n <= 0x0D) || n == 0xA0 || n == 0x1680 ||
    (0x2000 <= n <= 0x200A) || n == 0x2028 || n == 0x2029 || n == 0x202F ||
    n == 0x205F || n == 0x3000 || n == 0xFEFF
  }

  /** `toLowerCase` on one character, for the ASCII letters. */
  function LowerChar(c: char): (r: char)
    ensures 'A' <= c <= 'Z' ==> 'a' <= r <= 'z' && r as int - c as int == 32
    ensures !('A' <= c <= 'Z') ==> r == c
  {
    if 'A' <= c <= 'Z' then (c as int + 32) as char else c
  }

  /** `toLowerCase` on a string: position by position. */
  function Lower(s: string): (r: string)
    ensures |r| == |s|
    ensures forall i :: 0 <= i < |s| ==> r[i] == LowerChar(s[i])
  {
    seq(|s|, i requires 0 <= i < |s| => LowerChar(s[i]))
  }

  /** `sub` occurs in `s` starting at index `i`. */
  predicate OccursAt(s: string, sub: string, i: nat) {
    i + |sub| <= |s| && s[i..i + |sub|] == sub
  }

  /** `sub` occurs somewhere in `s`. */
  ghost predicate Occurs(s: string, sub: string) {
    exists i: nat :: OccursAt(s, sub, i)
  }

  /** The first occurrence of `sub` in `s` at or after `from`, or -1. */
  function IndexOfFrom(s: string, sub: string, from: nat): (r: int)
    decreases |s| - from
    ensures r == -1 || (from <= r && OccursAt(s, sub, r))
    ensures r == -1 ==> forall i: nat :: from <= i ==> !OccursAt(s, sub, i)
    ensures r != -1 ==> forall i: nat :: from <= i < r ==> !OccursAt(s, sub, i)
  {
    if from + |sub| > |s| then -1
    else if s[from..from + |sub|] == sub then from
    else IndexOfFrom(s, sub, from + 1)
  }

  /** `s.indexOf(sub)`: the first occurrence, or -1 when there is none. */
  function IndexOf(s: string, sub: string): (r: int)
    ensures r == -1 <==> !Occurs(s, sub)
    ensures r != -1 ==> 0 <= r && OccursAt(s, sub, r)
    ensures r != -1 ==> forall i: nat :: i < r ==> !OccursAt(s, sub, i)
  {
    IndexOfFrom(s, sub, 0)
  }

  /** `s.includes(sub)`. */
  function Includes(s: string, sub: string): (b: bool)
    ensures b <==> Occurs(s, sub)
  {
    IndexOf(s, sub) != -1
  }

  /** The last occurrence of `sub` in `s` at or before `upTo`, or -1. */
  function LastIndexOfUpTo(s: string, sub: string, upTo: int): (r: int)
    decreases upTo + 1
    ensures r == -1 || (0 <= r <= upTo && OccursAt(s, sub, r))
    ensures forall i: nat :: r < i <= upTo ==> !OccursAt(s, sub, i)
  {
    if upTo < 0 then -1
    else if OccursAt(s, sub, upTo) then upTo
    else LastIndexOfUpTo(s, sub, upTo - 1)
  }

  /** `s.lastIndexOf(sub)`: the last occurrence, or -1.  When `sub` is a suffix
      of `s`, the last occurrence is the suffix itself. */
  function LastIndexOf(s: string, sub: string): (r: int)
    ensures r == -1 <==> !Occurs(s, sub)
    ensures r != -1 ==> 0 <= r && OccursAt(s, sub, r)
    ensures forall i: nat :: r < i ==> !OccursAt(s, sub, i)
    ensures |sub| <= |s| && s[|s| - |sub|..] == sub ==> r == |s| - |sub|
  {
    LastIndexOfUpTo(s, sub, |s| - |sub|)
  }

  /** `s.replace(pat, rep)` with a string pattern: only the first occurrence of
      `pat` is replaced; without an occurrence `s` comes back unchanged. */
  function ReplaceFirst(s: string, pat: string, rep: string): (r: string)
    ensures !Occurs(s, pat) ==> r == s
    ensures Occurs(s, pat) ==>
      exists i: nat :: OccursAt(s, pat, i) && (forall j: nat :: j < i ==> !OccursAt(s, pat, j)) &&
        r == s[..i] + rep + s[i + |pat|..]
  {
    var i := IndexOf(s, pat);
    if i == -1 then s else s[..i] + rep + s[i + |pat|..]
  }
}
