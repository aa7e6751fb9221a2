/**
 * Character classes and the small string operations that the JavaScript
 * built-ins used by the translator perform: `\s`, `trim`, `toLowerCase`,
 * `startsWith`.
 */
module Text {
  import opened Wrappers

  /** JavaScript's `\s` (and what `trim` removes): the WhiteSpace and
      LineTerminator code points of ECMAScript. */
  predicate IsSpace(c: char) {
    var n := c as int;
    (9 <= n <= 13) || n == 0x20 || n == 0xA0 || n == 0x1680 || (0x2000 <= n <= 0x200A)
    || n == 0x2028 || n == 0x2029 || n == 0x202F || n == 0x205F || n == 0x3000 || n == 0xFEFF
  }

  /** Lower-case mapping of `toLowerCase`, for ASCII, Latin-1 and basic Cyrillic letters. */
  function LowerChar(c: char): char {
    var n := c as int;
    if 0x41 <= n <= 0x5A then (n + 0x20) as char
    else if 0xC0 <= n <= 0xDE && n != 0xD7 then (n + 0x20) as char
    else if 0x410 <= n <= 0x42F then (n + 0x20) as char
    else if 0x400 <= n <= 0x40F then (n + 0x50) as char
    else c
  }

  function Lower(s: string): string {
    seq(|s|, i requires 0 <= i < |s| => LowerChar(s[i]))
  }

  /** Every character of `s` is its own lower-case form. */
  predicate IsLowerCase(s: string) {
    forall i :: 0 <= i < |s| ==> LowerChar(s[i]) == s[i]
  }

  /** Lower-casing changes nothing in text that is already lower-case. */
  lemma LowerOfLowerCase(s: string)
    requires IsLowerCase(s)
    ensures Lower(s) == s
  {
  }

  /** Lower-casing changes letters only: never whitespace, never the space itself. */
  lemma LowerCharKeepsClass(c: char)
    ensures IsSpace(LowerChar(c)) <==> IsSpace(c)
    ensures LowerChar(c) == ' ' <==> c == ' '
    ensures LowerChar(LowerChar(c)) == LowerChar(c)
  {
  }

  function Truthy(o: Option<string>): bool {
    o.Some? && o.value != ""
  }

  /** `(v ?? "").toString()` for a value that is a string or absent. */
  function TextOf(o: Option<string>): string {
    if o.Some? then o.value else ""
  }

  function StartsWith(s: string, prefix: string): bool {
    |prefix| <= |s| && s[..|prefix|] == prefix
  }

  /** The first index at or after `j` that does not hold whitespace (or `|s|`). */
  function SkipSpaces(s: string, j: nat): (k: nat)
    requires j <= |s|
    ensures j <= k <= |s|
    decreases |s| - j
  {
    if j == |s| || !IsSpace(s[j]) then j else SkipSpaces(s, j + 1)
  }

  /** Only whitespace is skipped, and the skip stops at the first other character. */
  lemma {:induction false} SkipSpacesShape(s: string, j: nat)
    requires j <= |s|
    ensures var k := SkipSpaces(s, j);
      && (forall i :: j <= i < k ==> IsSpace(s[i]))
      && (k < |s| ==> !IsSpace(s[k]))
    decreases |s| - j
  {
    if j < |s| && IsSpace(s[j]) {
      SkipSpacesShape(s, j + 1);
    }
  }

  /** The end of `s[..k]` once its trailing whitespace is dropped. */
  function TrimEnd(s: string, k: nat): (e: nat)
    requires k <= |s|
    ensures e <= k
  {
    if k == 0 || !IsSpace(s[k - 1]) then k else TrimEnd(s, k - 1)
  }

  /** Only whitespace is dropped, and the drop stops at the last other character. */
  lemma {:induction false} TrimEndShape(s: string, k: nat)
    requires k <= |s|
    ensures var e := TrimEnd(s, k);
      && (forall i :: e <= i < k ==> IsSpace(s[i]))
      && (e > 0 ==> !IsSpace(s[e - 1]))
  {
    if k > 0 && IsSpace(s[k - 1]) {
      TrimEndShape(s, k - 1);
    }
  }

  /** `String.prototype.trim`: the slice of `s` that starts at its first
      non-whitespace character and ends after its last one. */
  function Trim(s: string): string {
    var b := SkipSpaces(s, 0);
    var e := TrimEnd(s, |s|);
    if e <= b then [] else s[b..e]
  }

  /** The trimmed text is the slice after the leading whitespace, only
      whitespace follows it, and it neither starts nor ends with whitespace. */
  lemma TrimShape(s: string)
    ensures var r := Trim(s);
      var b := SkipSpaces(s, 0);
      && b + |r| <= |s| && r == s[b..b + |r|]
      && (forall i :: b + |r| <= i < |s| ==> IsSpace(s[i]))
      && (r != [] ==> !IsSpace(r[0]) && !IsSpace(r[|r| - 1]))
  {
    SkipSpacesShape(s, 0);
    TrimEndShape(s, |s|);
  }
}
