/**
 * `br`: a description's line breaks turned into HTML `<br>` tags.
 */
module Markup {
  import opened Wrappers
  import opened Text

  /** `br(t)`: an absent value gives the empty string. */
  function Br(t: Option<string>): (r: string)
    ensures t.None? ==> r == ""
    ensures '\n' !in r
  {
    BrText(TextOf(t))
  }

  /** The global replacement of `/\r?\n/` by `<br>`, scanning left to right:
      a `\r` is consumed only together with the `\n` that follows it. */
  function BrText(s: string): (r: string)
    ensures '\n' !in r
    decreases |s|
  {
    if s == [] then ""
    else if s[0] == '\r' && |s| >= 2 && s[1] == '\n' then "<br>" + BrText(s[2..])
    else if s[0] == '\n' then "<br>" + BrText(s[1..])
    else [s[0]] + BrText(s[1..])
  }

  /** A line without its final carriage return, if it has one. */
  function DropCR(line: string): string {
    if line != [] && line[|line| - 1] == '\r' then line[..|line| - 1] else line
  }

  function FirstNewline(s: string): (i: nat)
    requires '\n' in s
    ensures i < |s| && s[i] == '\n' && '\n' !in s[..i]
  {
    if s[0] == '\n' then 0 else
      assert s == [s[0]] + s[1..];
      FirstNewline(s[1..]) + 1
  }

  /** Reference reading of `br`: split the text at each `\n`, drop one
      trailing `\r` from every line but the last, and join the lines with `<br>`. */
  function BrByLines(s: string): string
    decreases |s|
  {
    if '\n' !in s then s
    else
      var i := FirstNewline(s);
      DropCR(s[..i]) + "<br>" + BrByLines(s[i + 1..])
  }

  /** Text without a line feed passes through unchanged. */
  lemma {:induction false} BrTextWithoutNewline(s: string)
    requires '\n' !in s
    ensures BrText(s) == s
    decreases |s|
  {
    if s != [] {
      assert '\n' !in s[1..];
      BrTextWithoutNewline(s[1..]);
    }
  }

  /** The line before the first line feed keeps its characters, except
      for a `\r` directly before the line feed. */
  lemma {:induction false} BrTextLine(x: string, y: string)
    requires '\n' !in x
    ensures BrText(x + "\n" + y) == DropCR(x) + "<br>" + BrText(y)
    decreases |x|
  {
    var s := x + "\n" + y;
    if x == [] {
      assert s == "\n" + y && s[1..] == y;
    } else if x == "\r" {
      assert s == "\r\n" + y && s[2..] == y;
    } else {
      assert s[0] == x[0] && s[1..] == x[1..] + "\n" + y;
      assert x[0] == '\r' ==> |x| >= 2 && s[1] == x[1] != '\n';
      BrTextKeepsHead(s);
      assert '\n' !in x[1..];
      BrTextLine(x[1..], y);
      DropCRKeepsHead(x);
    }
  }

  /** A first character that does not start a line break is copied. */
  lemma BrTextKeepsHead(s: string)
    requires s != [] && s[0] != '\n' && !(s[0] == '\r' && |s| >= 2 && s[1] == '\n')
    ensures BrText(s) == [s[0]] + BrText(s[1..])
  {
  }

  /** Dropping the final `\r` of a line longer than a lone `\r` keeps its first character. */
  lemma DropCRKeepsHead(x: string)
    requires x != [] && x != "\r"
    ensures DropCR(x) == [x[0]] + DropCR(x[1..])
  {
    if x[|x| - 1] == '\r' {
      assert |x| >= 2;
      assert x[1..][..|x| - 2] == x[1..|x| - 1];
      assert x[..|x| - 1] == [x[0]] + x[1..|x| - 1];
    }
  }

  /** `br` agrees with its line-by-line reading on every input. */
  lemma {:induction false} BrTextIsBrByLines(s: string)
    ensures BrText(s) == BrByLines(s)
    decreases |s|
  {
    if '\n' !in s {
      BrTextWithoutNewline(s);
    } else {
      var i := FirstNewline(s);
      assert s == s[..i] + "\n" + s[i + 1..];
      BrTextLine(s[..i], s[i + 1..]);
      BrTextIsBrByLines(s[i + 1..]);
    }
  }
}
