/**
 * `norm`: the canonical form of an action name used to match a translated
 * action with an action of the card. The stages, in order: straighten
 * quotes, collapse whitespace runs, cut an "(Attack ...)"-style tail, trim,
 * lower-case.
 */
module Normalize {
  import opened Wrappers
  import opened Text

  /** The characters that become an apostrophe: U+2019, U+2018 and the backtick. */
  predicate IsCurlyQuote(c: char) {
    c == '\U{2019}' || c == '\U{2018}' || c == '`'
  }

  function StraightenQuotes(s: string): string {
    seq(|s|, i requires 0 <= i < |s| => if IsCurlyQuote(s[i]) then '\'' else s[i])
  }

  /** The only whitespace is the plain space, and no two whitespace characters are adjacent. */
  ghost predicate SingleSpaced(s: string) {
    && (forall i :: 0 <= i < |s| && IsSpace(s[i]) ==> s[i] == ' ')
    && (forall i, j :: 0 <= i < j < |s| && j == i + 1 ==> !IsSpace(s[i]) || !IsSpace(s[j]))
  }

  /** The characters of `s` that are not whitespace, in order. */
  function NonSpaces(s: string): string {
    if s == [] then [] else if IsSpace(s[0]) then NonSpaces(s[1..]) else [s[0]] + NonSpaces(s[1..])
  }

  /** `replace(/\s+/g, " ")`: every maximal whitespace run becomes one space. */
  function CollapseSpaces(s: string): string
    decreases |s|
  {
    if s == [] then []
    else if IsSpace(s[0]) then [' '] + CollapseSpaces(s[SkipSpaces(s, 0)..])
    else [s[0]] + CollapseSpaces(s[1..])
  }

  /** After collapsing, the text is single-spaced, empty exactly when the
      input was, and starts with whitespace exactly when the input did. */
  lemma {:induction false} CollapseShape(s: string)
    ensures var r := CollapseSpaces(s);
      && SingleSpaced(r)
      && (r == [] <==> s == [])
      && (r != [] ==> (IsSpace(r[0]) <==> IsSpace(s[0])))
    decreases |s|
  {
    if s != [] {
      var r := CollapseSpaces(s);
      if IsSpace(s[0]) {
        SkipSpacesShape(s, 0);
        var t := s[SkipSpaces(s, 0)..];
        CollapseShape(t);
        var r' := CollapseSpaces(t);
        assert r == [' '] + r';
        assert forall i :: 0 < i < |r| ==> r[i] == r'[i - 1];
      } else {
        var t := s[1..];
        CollapseShape(t);
        var r' := CollapseSpaces(t);
        assert r == [s[0]] + r';
        assert forall i :: 0 < i < |r| ==> r[i] == r'[i - 1];
      }
    }
  }

  lemma {:induction false} NonSpacesSkip(s: string, k: nat)
    requires k <= |s|
    requires forall i :: 0 <= i < k ==> IsSpace(s[i])
    ensures NonSpaces(s) == NonSpaces(s[k..])
    decreases k
  {
    if k > 0 {
      assert s[1..][k - 1..] == s[k..];
      NonSpacesSkip(s[1..], k - 1);
    }
  }

  /** Collapsing whitespace keeps every other character, in order. */
  lemma {:induction false} CollapseKeepsNonSpaces(s: string)
    ensures NonSpaces(CollapseSpaces(s)) == NonSpaces(s)
    decreases |s|
  {
    if s != [] {
      var r := CollapseSpaces(s);
      if IsSpace(s[0]) {
        var k := SkipSpaces(s, 0);
        SkipSpacesShape(s, 0);
        assert r[1..] == CollapseSpaces(s[k..]);
        CollapseKeepsNonSpaces(s[k..]);
        NonSpacesSkip(s, k);
      } else {
        assert r[1..] == CollapseSpaces(s[1..]);
        CollapseKeepsNonSpaces(s[1..]);
      }
    }
  }

  /** A leading whitespace run becomes one space. */
  lemma CollapseSpaceHead(s: string)
    requires s != [] && IsSpace(s[0])
    ensures CollapseSpaces(s) == [' '] + CollapseSpaces(s[SkipSpaces(s, 0)..])
  {
  }

  /** A leading character other than whitespace is kept. */
  lemma CollapseCharHead(s: string)
    requires s != [] && !IsSpace(s[0])
    ensures CollapseSpaces(s) == [s[0]] + CollapseSpaces(s[1..])
  {
  }

  /** No whitespace run crosses the end of text that ends in something
      other than whitespace, so such text collapses on its own. */
  lemma {:induction false} CollapseConcat(x: string, z: string)
    requires x == [] || !IsSpace(x[|x| - 1])
    ensures CollapseSpaces(x + z) == CollapseSpaces(x) + CollapseSpaces(z)
    decreases |x|
  {
    if x == [] {
      assert x + z == z;
    } else {
      var k, h := CollapseHeadOfConcat(x, z);
      var t := x[k..];
      assert t == [] || t[|t| - 1] == x[|x| - 1];
      CollapseConcat(t, z);
      ConcatAssoc(h, CollapseSpaces(t), CollapseSpaces(z));
    }
  }

  /** The first step of collapsing `x + z` is the first step of collapsing `x`. */
  lemma CollapseHeadOfConcat(x: string, z: string) returns (k: nat, h: string)
    requires x != [] && !IsSpace(x[|x| - 1])
    ensures 0 < k <= |x|
    ensures CollapseSpaces(x) == h + CollapseSpaces(x[k..])
    ensures CollapseSpaces(x + z) == h + CollapseSpaces(x[k..] + z)
  {
    var s := x + z;
    if IsSpace(x[0]) {
      k, h := SkipSpaces(x, 0), " ";
      assert 0 < k < |x| && SkipSpaces(s, 0) == k by {
        SkipSpacesShape(x, 0);
        SkipSpacesStopsAt(s, 0, k);
      }
      CollapseSpaceHead(s);
      CollapseSpaceHead(x);
    } else {
      k, h := 1, [x[0]];
      CollapseCharHead(s);
      CollapseCharHead(x);
    }
    SliceOfConcat(x, z, k);
  }

  /** Each whitespace run becomes exactly one space, in its place. */
  lemma CollapseRun(x: string, w: string, y: string)
    requires x == [] || !IsSpace(x[|x| - 1])
    requires w != [] && forall i :: 0 <= i < |w| ==> IsSpace(w[i])
    requires y == [] || !IsSpace(y[0])
    ensures CollapseSpaces(x + w + y) == CollapseSpaces(x) + " " + CollapseSpaces(y)
  {
    CollapseConcat(x, w + y);
    CollapseLeadingRun(w, y);
    ConcatAssoc(x, w, y);
    ConcatAssoc(CollapseSpaces(x), " ", CollapseSpaces(y));
  }

  lemma ConcatAssoc<T>(a: seq<T>, b: seq<T>, c: seq<T>)
    ensures a + b + c == a + (b + c)
  {
  }

  lemma SliceOfConcat<T>(a: seq<T>, b: seq<T>, k: nat)
    requires k <= |a|
    ensures (a + b)[k..] == a[k..] + b
  {
  }

  /** A leading whitespace run becomes one space before the rest. */
  lemma CollapseLeadingRun(w: string, y: string)
    requires w != [] && forall i :: 0 <= i < |w| ==> IsSpace(w[i])
    requires y == [] || !IsSpace(y[0])
    ensures CollapseSpaces(w + y) == " " + CollapseSpaces(y)
  {
    var s := w + y;
    assert SkipSpaces(s, 0) == |w| by {
      assert forall i :: 0 <= i < |w| ==> s[i] == w[i];
      if y == [] {
        assert s == w;
        SkipSpacesShape(s, 0);
      } else {
        assert s[|w|] == y[0];
        SkipSpacesStopsAt(s, 0, |w|);
      }
    }
    assert s[|w|..] == y;
    CollapseSpaceHead(s);
  }

  /** The collapsed text ends in a space exactly when the input ends in whitespace. */
  lemma {:induction false} CollapseEnds(s: string)
    ensures var r := CollapseSpaces(s);
      r != [] ==> (IsSpace(r[|r| - 1]) <==> IsSpace(s[|s| - 1]))
    decreases |s|
  {
    if s != [] {
      var r := CollapseSpaces(s);
      var k := if IsSpace(s[0]) then SkipSpaces(s, 0) else 1;
      var t := s[k..];
      SkipSpacesShape(s, 0);
      CollapseShape(t);
      if t != [] {
        CollapseEnds(t);
        assert r[|r| - 1] == CollapseSpaces(t)[|CollapseSpaces(t)| - 1];
        assert s[|s| - 1] == t[|t| - 1];
      }
    }
  }

  // ---------------------------------------------------------------------
  // The tail pattern  /\s*\((?:attack|action|passive|reaction)[^)]+\)\s*$/i

  const Keywords: seq<string> := ["attack", "action", "passive", "reaction"]

  /** The `i` flag on the ASCII keyword letters (no non-ASCII character folds to one). */
  function AsciiLower(c: char): char {
    if 'A' <= c <= 'Z' then (c as int + 32) as char else c
  }

  /** Keyword number `n` is spelt, in any case, at position `p` of `s`. */
  predicate KeywordAt(s: string, p: nat, n: nat)
    requires n < |Keywords|
  {
    p + |Keywords[n]| <= |s| && forall i :: 0 <= i < |Keywords[n]| ==> AsciiLower(s[p + i]) == Keywords[n][i]
  }

  /** One way for the pattern to match `s[j..]`: whitespace up to `p`, `(` at `p`,
      keyword `n`, at least one character other than `)`, `)` at `q`, whitespace to the end. */
  predicate TailShape(s: string, j: nat, p: nat, n: nat, q: nat) {
    && j <= p < q < |s| && n < |Keywords|
    && (forall i :: j <= i < p ==> IsSpace(s[i]))
    && s[p] == '(' && KeywordAt(s, p + 1, n)
    && p + 1 + |Keywords[n]| < q
    && (forall i :: p + 1 + |Keywords[n]| <= i < q ==> s[i] != ')')
    && s[q] == ')'
    && (forall i :: q < i < |s| ==> IsSpace(s[i]))
  }

  /** The regular expression, anchored at the end, matches `s` from index `j`. */
  ghost predicate MatchesAt(s: string, j: nat) {
    exists p, n, q :: TailShape(s, j, p, n, q)
  }

  /** The number of the keyword spelt at `p`, or `|Keywords|` when there is none. */
  function KeywordIndex(s: string, p: nat): (n: nat)
    ensures n <= |Keywords|
  {
    if KeywordAt(s, p, 0) then 0
    else if KeywordAt(s, p, 1) then 1
    else if KeywordAt(s, p, 2) then 2
    else if KeywordAt(s, p, 3) then 3
    else 4
  }

  /** The keyword found is spelt at `p`, and no earlier one in the list is. */
  lemma KeywordIndexShape(s: string, p: nat)
    ensures var n := KeywordIndex(s, p);
      && (n < |Keywords| ==> KeywordAt(s, p, n))
      && (forall m :: 0 <= m < n && m < |Keywords| ==> !KeywordAt(s, p, m))
  {
  }

  /** No two keywords can be spelt at the same place. */
  lemma KeywordsExclusive(s: string, p: nat, m: nat, n: nat)
    requires m < |Keywords| && n < |Keywords|
    requires KeywordAt(s, p, m) && KeywordAt(s, p, n)
    ensures m == n
  {
    var a, b := AsciiLower(s[p]), AsciiLower(s[p + 1]);
    assert a == Keywords[m][0] && b == Keywords[m][1];
    assert a == Keywords[n][0] && b == Keywords[n][1];
  }

  /** The first `)` at or after `i` (or `|s|`). */
  function CloseFrom(s: string, i: nat): (k: nat)
    requires i <= |s|
    ensures i <= k <= |s|
    decreases |s| - i
  {
    if i == |s| || s[i] == ')' then i else CloseFrom(s, i + 1)
  }

  /** The search stops at a `)`, and at the first one. */
  lemma {:induction false} CloseFromShape(s: string, i: nat)
    requires i <= |s|
    ensures var k := CloseFrom(s, i);
      && (k < |s| ==> s[k] == ')')
      && (forall m :: i <= m < k ==> s[m] != ')')
    decreases |s| - i
  {
    if i < |s| && s[i] != ')' {
      CloseFromShape(s, i + 1);
    }
  }

  predicate SpacesFrom(s: string, k: nat) {
    forall i :: k <= i < |s| ==> IsSpace(s[i])
  }

  /** The match from `j`, computed as a regex engine with backtracking settles it:
      the whitespace run is maximal and `[^)]+` runs up to the first `)`. */
  predicate TailAt(s: string, j: nat)
    requires j <= |s|
  {
    var p := SkipSpaces(s, j);
    p < |s| && s[p] == '(' &&
    var n := KeywordIndex(s, p + 1);
    n < |Keywords| &&
    var q := CloseFrom(s, p + 1 + |Keywords[n]|);
    p + 1 + |Keywords[n]| < q < |s| && SpacesFrom(s, q + 1)
  }

  lemma TailAtGivesMatch(s: string, j: nat)
    requires j <= |s| && TailAt(s, j)
    ensures MatchesAt(s, j)
  {
    var p := SkipSpaces(s, j);
    var n := KeywordIndex(s, p + 1);
    var k := p + 1 + |Keywords[n]|;
    var q := CloseFrom(s, k);
    assert p < |s| && s[p] == '(' && n < |Keywords| && k < q < |s| && SpacesFrom(s, q + 1);
    SkipSpacesShape(s, j);
    KeywordIndexShape(s, p + 1);
    CloseFromShape(s, k);
    assert TailShape(s, j, p, n, q);
  }

  lemma MatchGivesTailAt(s: string, j: nat, p: nat, n: nat, q: nat)
    requires TailShape(s, j, p, n, q)
    ensures TailAt(s, j)
  {
    ShapeFixesKeyword(s, j, p, n, q);
    ShapeFixesEnds(s, j, p, n, q);
  }

  /** The keyword of a match is the one `KeywordIndex` finds. */
  lemma ShapeFixesKeyword(s: string, j: nat, p: nat, n: nat, q: nat)
    requires TailShape(s, j, p, n, q)
    ensures KeywordIndex(s, p + 1) == n
  {
    var m := KeywordIndex(s, p + 1);
    KeywordIndexShape(s, p + 1);
    if m != n {
      KeywordsExclusive(s, p + 1, n, m);
    }
  }

  /** The `(` and `)` of a match are where the skip and the search stop. */
  lemma ShapeFixesEnds(s: string, j: nat, p: nat, n: nat, q: nat)
    requires TailShape(s, j, p, n, q)
    ensures SkipSpaces(s, j) == p
    ensures CloseFrom(s, p + 1 + |Keywords[n]|) == q
  {
    SkipSpacesStopsAt(s, j, p);
    CloseFromStopsAt(s, p + 1 + |Keywords[n]|, q);
  }

  /** Whitespace up to a character that is not whitespace is skipped up to that character. */
  lemma SkipSpacesStopsAt(s: string, j: nat, p: nat)
    requires j <= p < |s| && !IsSpace(s[p])
    requires forall i :: j <= i < p ==> IsSpace(s[i])
    ensures SkipSpaces(s, j) == p
  {
    SkipSpacesShape(s, j);
  }

  /** The search for `)` stops at the first one. */
  lemma CloseFromStopsAt(s: string, i: nat, q: nat)
    requires i <= q < |s| && s[q] == ')'
    requires forall m :: i <= m < q ==> s[m] != ')'
    ensures CloseFrom(s, i) == q
  {
    CloseFromShape(s, i);
  }

  /** The computed match and the pattern agree at every start index. */
  lemma TailAtIsMatch(s: string, j: nat)
    requires j <= |s|
    ensures TailAt(s, j) <==> MatchesAt(s, j)
  {
    if TailAt(s, j) {
      TailAtGivesMatch(s, j);
    }
    if MatchesAt(s, j) {
      var p, n, q :| TailShape(s, j, p, n, q);
      MatchGivesTailAt(s, j, p, n, q);
    }
  }

  /** The leftmost index at or after `j` where the pattern matches, or `|s|`. */
  function TailStart(s: string, j: nat): (t: nat)
    requires j <= |s|
    ensures j <= t <= |s|
    decreases |s| - j
  {
    if j == |s| || TailAt(s, j) then j else TailStart(s, j + 1)
  }

  /** The search stops at a match, and at the first one. */
  lemma {:induction false} TailStartShape(s: string, j: nat)
    requires j <= |s|
    ensures var t := TailStart(s, j);
      && (t < |s| ==> TailAt(s, t))
      && (forall m :: j <= m < t ==> !TailAt(s, m))
    decreases |s| - j
  {
    if j < |s| && !TailAt(s, j) {
      TailStartShape(s, j + 1);
    }
  }

  /** `replace(pattern, "")`: the text before the leftmost match of the tail pattern. */
  function StripTail(s: string): string {
    s[..TailStart(s, 0)]
  }

  /** The cut is made at the leftmost index where the pattern matches, and
      nothing is cut when it matches nowhere. */
  lemma StripTailIsLeftmostMatch(s: string)
    ensures var r := StripTail(s);
      && |r| <= |s| && r == s[..|r|]
      && (|r| < |s| ==> MatchesAt(s, |r|))
      && (forall m :: 0 <= m < |r| ==> !MatchesAt(s, m))
  {
    var t := TailStart(s, 0);
    TailStartShape(s, 0);
    TailAtIsMatch(s, t);
    forall m | 0 <= m < t ensures !MatchesAt(s, m) {
      TailAtIsMatch(s, m);
    }
  }

  /** The tail on its own matches the pattern from its first character. */
  lemma QualifiedTailShape(t: string, pre: string, n: nat, kw: string, rest: string, post: string)
    requires t == pre + "(" + kw + rest + ")" + post
    requires forall i :: 0 <= i < |pre| ==> IsSpace(pre[i])
    requires forall i :: 0 <= i < |post| ==> IsSpace(post[i])
    requires n < |Keywords| && |kw| == |Keywords[n]|
    requires forall i :: 0 <= i < |kw| ==> AsciiLower(kw[i]) == Keywords[n][i]
    requires rest != [] && ')' !in rest
    ensures TailShape(t, 0, |pre|, n, |pre| + 1 + |kw| + |rest|)
  {
    var p := |pre|;
    var q := p + 1 + |kw| + |rest|;
    assert t[p] == '(' && t[q] == ')';
    assert forall i :: 0 <= i < p ==> t[i] == pre[i];
    assert forall i :: 0 <= i < |kw| ==> t[p + 1 + i] == kw[i];
    assert forall i :: p + 1 + |kw| <= i < q ==> t[i] == rest[i - (p + 1 + |kw|)];
    assert forall i :: q < i < |t| ==> t[i] == post[i - q - 1];
  }

  /** A match found in a suffix is a match of the whole text, shifted. */
  lemma ShapeShift(name: string, t: string, j: nat, p: nat, n: nat, q: nat)
    requires TailShape(t, j, p, n, q)
    ensures TailShape(name + t, |name| + j, |name| + p, n, |name| + q)
  {
    var s := name + t;
    var d := |name|;
    var k := p + 1 + |Keywords[n]|;
    forall i | d + j <= i < d + p ensures IsSpace(s[i]) {
      assert s[i] == t[i - d];
    }
    forall i | 0 <= i < |Keywords[n]| ensures AsciiLower(s[d + p + 1 + i]) == Keywords[n][i] {
      assert s[d + p + 1 + i] == t[p + 1 + i];
    }
    forall i | d + k <= i < d + q ensures s[i] != ')' {
      assert s[i] == t[i - d];
    }
    forall i | d + q < i < |s| ensures IsSpace(s[i]) {
      assert s[i] == t[i - d];
    }
    assert s[d + p] == t[p] && s[d + q] == t[q];
  }

  /** No match can start inside a name that has no `(` and does not end in whitespace. */
  lemma NoMatchInName(name: string, t: string, m: nat)
    requires '(' !in name && (name == [] || !IsSpace(name[|name| - 1]))
    requires m < |name|
    ensures !MatchesAt(name + t, m)
  {
    var s := name + t;
    assert forall i :: 0 <= i < |name| ==> s[i] == name[i];
  }

  /** A qualified tail such as " (Attack - Melee) " is cut from a name
      that has no parenthesis of its own and does not end in whitespace. */
  lemma StripTailCutsQualifiedTail(name: string, pre: string, n: nat, kw: string, rest: string, post: string)
    requires '(' !in name && (name == [] || !IsSpace(name[|name| - 1]))
    requires forall i :: 0 <= i < |pre| ==> IsSpace(pre[i])
    requires forall i :: 0 <= i < |post| ==> IsSpace(post[i])
    requires n < |Keywords| && |kw| == |Keywords[n]|
    requires forall i :: 0 <= i < |kw| ==> AsciiLower(kw[i]) == Keywords[n][i]
    requires rest != [] && ')' !in rest
    ensures StripTail(name + pre + "(" + kw + rest + ")" + post) == name
  {
    var t := pre + "(" + kw + rest + ")" + post;
    var s := name + t;
    assert s == name + pre + "(" + kw + rest + ")" + post;
    QualifiedTailShape(t, pre, n, kw, rest, post);
    ShapeShift(name, t, 0, |pre|, n, |pre| + 1 + |kw| + |rest|);
    assert MatchesAt(s, |name|);
    StripTailIsLeftmostMatch(s);
    var r := StripTail(s);
    if |r| < |name| {
      NoMatchInName(name, t, |r|);
    }
    assert s[..|name|] == name;
  }

  /** A bare "(Attack)" is not a tail: `[^)]+` needs a character after the keyword. */
  lemma StripTailKeepsBareKeyword(name: string, n: nat, kw: string)
    requires '(' !in name
    requires n < |Keywords| && |kw| == |Keywords[n]|
    requires forall i :: 0 <= i < |kw| ==> AsciiLower(kw[i]) == Keywords[n][i]
    ensures StripTail(name + "(" + kw + ")") == name + "(" + kw + ")"
  {
    var s := name + "(" + kw + ")";
    StripTailIsLeftmostMatch(s);
    forall m | 0 <= m < |s| ensures !MatchesAt(s, m) {
      if MatchesAt(s, m) {
        var p: nat, n': nat, q: nat :| TailShape(s, m, p, n', q);
        BareKeywordShape(name, n, kw, m, p, n', q);
      }
    }
  }

  lemma BareKeywordShape(name: string, n: nat, kw: string, m: nat, p: nat, n': nat, q: nat)
    requires '(' !in name
    requires n < |Keywords| && |kw| == |Keywords[n]|
    requires forall i :: 0 <= i < |kw| ==> AsciiLower(kw[i]) == Keywords[n][i]
    ensures !TailShape(name + "(" + kw + ")", m, p, n', q)
  {
    var s := name + "(" + kw + ")";
    if TailShape(s, m, p, n', q) {
      var d := |name| + 1;
      assert forall i :: 0 <= i < |kw| ==> s[d + i] == kw[i];
      if p == |name| {
        assert KeywordAt(s, d, n);
        KeywordsExclusive(s, d, n, n');
      }
    }
  }

  // ---------------------------------------------------------------------

  predicate NoCurlyQuote(s: string) {
    forall i :: 0 <= i < |s| ==> !IsCurlyQuote(s[i])
  }

  /** `norm(s)`. */
  function Norm(s: Option<string>): string {
    Lower(Trim(StripTail(CollapseSpaces(StraightenQuotes(TextOf(s))))))
  }

  /** What `norm` guarantees of every result: no whitespace at either end,
      only single plain spaces inside, no curly quote or backtick, and
      nothing left to lower-case. */
  lemma NormShape(s: Option<string>)
    ensures var r := Norm(s);
      && (r != [] ==> !IsSpace(r[0]) && !IsSpace(r[|r| - 1]))
      && SingleSpaced(r)
      && NoCurlyQuote(r)
      && IsLowerCase(r)
  {
    var u := StripTail(CollapseSpaces(StraightenQuotes(TextOf(s))));
    StrippedIsClean(TextOf(s));
    TrimmedIsClean(u);
    LowerKeeps(Trim(u));
  }

  /** Up to the tail rewrite, the text is single-spaced and quote-free. */
  lemma StrippedIsClean(s: string)
    ensures var u := StripTail(CollapseSpaces(StraightenQuotes(s)));
      SingleSpaced(u) && NoCurlyQuote(u)
  {
    var q := StraightenQuotes(s);
    var c := CollapseSpaces(q);
    CollapseShape(q);
    CollapseHasNoCurlyQuote(q);
    var u := StripTail(c);
    StripTailIsLeftmostMatch(c);
    SliceKeeps(c, 0, u);
  }

  /** Trimming a single-spaced, quote-free text keeps it so and leaves no
      whitespace at either end. */
  lemma TrimmedIsClean(u: string)
    requires SingleSpaced(u) && NoCurlyQuote(u)
    ensures var t := Trim(u);
      && SingleSpaced(t) && NoCurlyQuote(t)
      && (t != [] ==> !IsSpace(t[0]) && !IsSpace(t[|t| - 1]))
  {
    TrimShape(u);
    SliceKeeps(u, SkipSpaces(u, 0), Trim(u));
  }

  /** A slice of a single-spaced, quote-free text is single-spaced and quote-free. */
  lemma SliceKeeps(c: string, b: nat, r: string)
    requires b + |r| <= |c| && r == c[b..b + |r|]
    requires SingleSpaced(c) && NoCurlyQuote(c)
    ensures SingleSpaced(r) && NoCurlyQuote(r)
  {
    assert forall i :: 0 <= i < |r| ==> r[i] == c[b + i];
  }

  /** Lower-casing keeps whitespace where it is and leaves nothing to lower-case. */
  lemma LowerKeeps(t: string)
    requires SingleSpaced(t) && NoCurlyQuote(t)
    requires t != [] ==> !IsSpace(t[0]) && !IsSpace(t[|t| - 1])
    ensures var r := Lower(t);
      && SingleSpaced(r) && NoCurlyQuote(r) && IsLowerCase(r)
      && (r != [] ==> !IsSpace(r[0]) && !IsSpace(r[|r| - 1]))
  {
    forall i | 0 <= i < |t| {
      LowerCharKeepsClass(t[i]);
    }
  }

  lemma {:induction false} CollapseHasNoCurlyQuote(s: string)
    requires NoCurlyQuote(s)
    ensures NoCurlyQuote(CollapseSpaces(s))
    decreases |s|
  {
    if s != [] {
      if IsSpace(s[0]) {
        CollapseHasNoCurlyQuote(s[SkipSpaces(s, 0)..]);
      } else {
        CollapseHasNoCurlyQuote(s[1..]);
      }
    }
  }

  // ---------------------------------------------------------------------
  // What `norm` does to a name followed by a parenthesised tail

  /** A name as it appears on a card: no edge whitespace, single spaces, no
      curly quote, no parenthesis. */
  ghost predicate PlainName(name: string) {
    && name != [] && !IsSpace(name[0]) && !IsSpace(name[|name| - 1])
    && SingleSpaced(name) && NoCurlyQuote(name) && '(' !in name
  }

  /** `kw` spells keyword number `n` in some mix of cases. */
  predicate SpellsKeyword(kw: string, n: nat) {
    n < |Keywords| && |kw| == |Keywords[n]| && forall i :: 0 <= i < |kw| ==> AsciiLower(kw[i]) == Keywords[n][i]
  }

  lemma SingleSpacedConcat(a: string, b: string)
    requires SingleSpaced(a) && SingleSpaced(b)
    requires a == [] || b == [] || !IsSpace(a[|a| - 1]) || !IsSpace(b[0])
    ensures SingleSpaced(a + b)
  {
    var s := a + b;
    assert forall i :: 0 <= i < |a| ==> s[i] == a[i];
    assert forall i :: 0 <= i < |b| ==> s[|a| + i] == b[i];
  }

  lemma NoCurlyQuoteConcat(a: string, b: string)
    requires NoCurlyQuote(a) && NoCurlyQuote(b)
    ensures NoCurlyQuote(a + b)
  {
    var s := a + b;
    assert forall i :: 0 <= i < |b| ==> s[|a| + i] == b[i];
  }

  lemma KeywordIsLetters(kw: string, n: nat)
    requires SpellsKeyword(kw, n)
    ensures forall i :: 0 <= i < |kw| ==> !IsSpace(kw[i]) && !IsCurlyQuote(kw[i]) && kw[i] != '(' && kw[i] != ')'
  {
    forall i | 0 <= i < |kw|
      ensures !IsSpace(kw[i]) && !IsCurlyQuote(kw[i]) && kw[i] != '(' && kw[i] != ')'
    {
      assert AsciiLower(kw[i]) == Keywords[n][i];
      assert 'a' <= Keywords[n][i] <= 'z';
    }
  }

  lemma StraightenQuotesIdentity(s: string)
    requires NoCurlyQuote(s)
    ensures StraightenQuotes(s) == s
  {
  }

  /** Collapsing is idempotent: single-spaced text is left as it is. */
  lemma {:induction false} CollapseIdentity(s: string)
    requires SingleSpaced(s)
    ensures CollapseSpaces(s) == s
    decreases |s|
  {
    if s != [] {
      assert SingleSpaced(s[1..]) by {
        assert forall i :: 0 <= i < |s| - 1 ==> s[1..][i] == s[i + 1];
      }
      CollapseIdentity(s[1..]);
      if IsSpace(s[0]) {
        assert SkipSpaces(s, 0) == 1;
      }
    }
  }

  lemma TrimIdentity(s: string)
    requires s != [] ==> !IsSpace(s[0]) && !IsSpace(s[|s| - 1])
    ensures Trim(s) == s
  {
  }

  /** A name without parentheses has no tail to cut. */
  lemma StripTailOfPlainName(name: string)
    requires PlainName(name)
    ensures StripTail(name) == name
  {
    StripTailIsLeftmostMatch(name);
  }

  /** On a plain name `norm` only lower-cases. */
  lemma NormOfPlainName(name: string)
    requires PlainName(name)
    ensures Norm(Some(name)) == Lower(name)
  {
    NormOfClean(name);
    StripTailOfPlainName(name);
    TrimIdentity(name);
  }

  /** A word of lower-case ASCII letters is its own normal form. */
  lemma NormOfLetters(name: string)
    requires name != [] && forall i :: 0 <= i < |name| ==> 'a' <= name[i] <= 'z'
    ensures Norm(Some(name)) == name
  {
    assert PlainName(name);
    NormOfPlainName(name);
    LowerOfLowerCase(name);
  }

  /** A word of ASCII letters normalises to its lower-case form. */
  lemma NormOfAsciiWord(name: string)
    requires name != []
    requires forall i :: 0 <= i < |name| ==> 'a' <= name[i] <= 'z' || 'A' <= name[i] <= 'Z'
    ensures Norm(Some(name)) == Lower(name)
  {
    assert PlainName(name);
    NormOfPlainName(name);
  }

  /** On text that is already single-spaced and quote-free, `norm` is the
      tail cut, the trim and the lower-casing. */
  lemma NormOfClean(s: string)
    requires SingleSpaced(s) && NoCurlyQuote(s)
    ensures Norm(Some(s)) == Lower(Trim(StripTail(s)))
  {
    StraightenQuotesIdentity(s);
    CollapseIdentity(s);
  }

  /** A plain name, a space, and a parenthesised keyword tail is single-spaced and quote-free. */
  lemma TailedNameIsClean(name: string, n: nat, kw: string, rest: string)
    requires PlainName(name) && SpellsKeyword(kw, n)
    requires SingleSpaced(rest) && NoCurlyQuote(rest)
    ensures SingleSpaced(name + " (" + kw + rest + ")")
    ensures NoCurlyQuote(name + " (" + kw + rest + ")")
  {
    KeywordIsLetters(kw, n);
    assert SingleSpaced(kw) && NoCurlyQuote(kw);
    var a := name + " (";
    SingleSpacedConcat(name, " (");
    NoCurlyQuoteConcat(name, " (");
    assert a[|a| - 1] == '(';
    SingleSpacedConcat(a, kw);
    NoCurlyQuoteConcat(a, kw);
    var b := a + kw;
    assert b[|b| - 1] == kw[|kw| - 1];
    SingleSpacedConcat(b, rest);
    NoCurlyQuoteConcat(b, rest);
    SingleSpacedConcat(b + rest, ")");
    NoCurlyQuoteConcat(b + rest, ")");
  }

  lemma StripTailOfTailedName(name: string, n: nat, kw: string, rest: string)
    requires PlainName(name) && SpellsKeyword(kw, n)
    requires rest != [] && ')' !in rest
    ensures StripTail(name + " (" + kw + rest + ")") == name
  {
    assert name + " (" + kw + rest + ")" == name + " " + "(" + kw + rest + ")" + "";
    StripTailCutsQualifiedTail(name, " ", n, kw, rest, "");
  }

  lemma StripTailOfBareName(name: string, n: nat, kw: string)
    requires PlainName(name) && SpellsKeyword(kw, n)
    ensures StripTail(name + " (" + kw + ")") == name + " (" + kw + ")"
  {
    assert name + " (" + kw + ")" == (name + " ") + "(" + kw + ")";
    StripTailKeepsBareKeyword(name + " ", n, kw);
  }

  /** `norm("Ice Spike (Attack - Melee)")` is `norm("Ice Spike")`: a tail with
      something after the keyword is cut. */
  lemma NormCutsQualifiedTail(name: string, n: nat, kw: string, rest: string)
    requires PlainName(name) && SpellsKeyword(kw, n)
    requires rest != [] && ')' !in rest && SingleSpaced(rest) && NoCurlyQuote(rest)
    ensures Norm(Some(name + " (" + kw + rest + ")")) == Lower(name)
  {
    TailedNameIsClean(name, n, kw, rest);
    NormOfClean(name + " (" + kw + rest + ")");
    StripTailOfTailedName(name, n, kw, rest);
    TrimIdentity(name);
  }

  /** `norm("Ice Spike (Attack)")` is "ice spike (attack)": a bare keyword in
      parentheses is kept. */
  lemma NormKeepsBareKeyword(name: string, n: nat, kw: string)
    requires PlainName(name) && SpellsKeyword(kw, n)
    ensures Norm(Some(name + " (" + kw + ")")) == Lower(name + " (" + kw + ")")
  {
    TailedNameIsClean(name, n, kw, "");
    assert name + " (" + kw + "" + ")" == name + " (" + kw + ")";
    NormOfClean(name + " (" + kw + ")");
    StripTailOfBareName(name, n, kw);
    TrimIdentity(name + " (" + kw + ")");
  }
}
