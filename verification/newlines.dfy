/** The line-ending normalisation applied to every input file before it is
    parsed: `content.replace('\r\n', '\n').replace('\r', '\n')`. */
module Newlines {
  import opened Strings

  /** The two replacements, in the order they are applied. */
  function NormalizeNewlines(content: string): string {
    ReplaceAll(ReplaceAll(content, "\r\n", "\n"), "\r", "\n")
  }

  /** Reference reading in one left-to-right pass: a Windows `\r\n` pair and a
      lone old-Mac `\r` each become one `\n`; every other character is kept. */
  function OneLineFeed(s: string): (r: string)
    ensures forall i :: 0 <= i < |r| ==> r[i] != '\r'
    ensures (forall i :: 0 <= i < |s| ==> s[i] != '\r') ==> r == s
    decreases |s|
  {
    if s == [] then []
    else if s[0] == '\r' && |s| >= 2 && s[1] == '\n' then "\n" + OneLineFeed(s[2..])
    else if s[0] == '\r' then "\n" + OneLineFeed(s[1..])
    else [s[0]] + OneLineFeed(s[1..])
  }

  /** Replacing a one-character pattern acts character by character. */
  lemma ReplaceCons(c: char, x: string, pat: char, repl: string)
    ensures ReplaceAll([c] + x, [pat], repl)
         == (if c == pat then repl else [c]) + ReplaceAll(x, [pat], repl)
  {
    assert ([c] + x)[1..] == x;
  }

  /** The two chained replacements are exactly the one-pass reading. */
  lemma {:induction false} NormalizeIsOneLineFeed(s: string)
    ensures NormalizeNewlines(s) == OneLineFeed(s)
    decreases |s|
  {
    if s == [] {
    } else if s[0] == '\r' && |s| >= 2 && s[1] == '\n' {
      var rest := ReplaceAll(s[2..], "\r\n", "\n");
      assert StartsWith(s, "\r\n");
      assert ReplaceAll(s, "\r\n", "\n") == ['\n'] + rest;
      ReplaceCons('\n', rest, '\r', "\n");
      NormalizeIsOneLineFeed(s[2..]);
    } else {
      var rest := ReplaceAll(s[1..], "\r\n", "\n");
      assert !StartsWith(s, "\r\n");
      assert ReplaceAll(s, "\r\n", "\n") == [s[0]] + rest;
      ReplaceCons(s[0], rest, '\r', "\n");
      NormalizeIsOneLineFeed(s[1..]);
    }
  }

  /** After normalisation no carriage return is left, and content that had none
      comes through unchanged. */
  lemma NormalizeNewlinesSpec(content: string)
    ensures forall i :: 0 <= i < |NormalizeNewlines(content)| ==> NormalizeNewlines(content)[i] != '\r'
    ensures (forall i :: 0 <= i < |content| ==> content[i] != '\r') ==> NormalizeNewlines(content) == content
  {
    NormalizeIsOneLineFeed(content);
  }
}
