/** The two input sanitisers of the send endpoint (Unknown.js:269-270): a
    global regex replacement that deletes HTML-like tags from the message,
    and a filter that keeps only the ASCII letters and digits of the login. */
module Sanitize {
  import opened Text

  /** What remains after the `[^>]*>?` part of one tag match: everything up
      to and including the first `>`, or the whole rest when there is none. */
  function SkipTag(s: string): (r: string)
    ensures |r| <= |s|
    ensures r == s[|s| - |r|..]
    ensures '>' !in s ==> r == []
    ensures '>' in s ==> |r| < |s| && s[|s| - |r| - 1] == '>' && '>' !in s[..|s| - |r| - 1]
  {
    if s == [] then []
    else if s[0] == '>' then s[1..]
    else
      var r := SkipTag(s[1..]);
      assert '>' in s ==> '>' in s[1..];
      assert '>' in s ==> s[..|s| - |r| - 1] == [s[0]] + s[1..][..|s| - 1 - |r| - 1];
      r
  }

  /** The global regex replacement, match by match: a `<` starts a match that
      swallows text through the next `>` (or to the end of the string); every
      other character is outside any match and kept. */
  function StripTags(s: string): (r: string)
    ensures |r| <= |s|
    ensures '<' !in r
    ensures '<' !in s ==> r == s
    decreases |s|
  {
    if s == [] then []
    else if s[0] == '<' then StripTags(SkipTag(s[1..]))
    else [s[0]] + StripTags(s[1..])
  }

  /** A character-at-a-time reading of the same regex: outside a tag a `<`
      opens one and anything else is copied; inside a tag only `>` matters,
      and it closes the tag. */
  function Scan(s: string, inTag: bool): string {
    if s == [] then []
    else if inTag then Scan(s[1..], s[0] != '>')
    else if s[0] == '<' then Scan(s[1..], true)
    else [s[0]] + Scan(s[1..], false)
  }

  /** The positions `Scan` keeps. */
  function ScanMask(s: string, inTag: bool): (m: seq<bool>)
    ensures |m| == |s|
  {
    if s == [] then []
    else if inTag then [false] + ScanMask(s[1..], s[0] != '>')
    else if s[0] == '<' then [false] + ScanMask(s[1..], true)
    else [true] + ScanMask(s[1..], false)
  }

  lemma {:induction false} ScanInTagIsSkipTag(t: string)
    ensures Scan(t, true) == Scan(SkipTag(t), false)
    decreases |t|
  {
    if t != [] && t[0] != '>' {
      ScanInTagIsSkipTag(t[1..]);
    }
  }

  /** The match-by-match and the character-by-character readings agree. */
  lemma {:induction false} StripTagsIsScan(s: string)
    ensures StripTags(s) == Scan(s, false)
    decreases |s|
  {
    if s != [] {
      if s[0] == '<' {
        ScanInTagIsSkipTag(s[1..]);
        StripTagsIsScan(SkipTag(s[1..]));
      } else {
        StripTagsIsScan(s[1..]);
      }
    }
  }

  lemma {:induction false} ScanIsSelect(s: string, inTag: bool)
    ensures Scan(s, inTag) == Select(s, ScanMask(s, inTag))
    decreases |s|
  {
    if s != [] {
      var next := if inTag then s[0] != '>' else s[0] == '<';
      ScanIsSelect(s[1..], next);
      assert ScanMask(s, inTag)[1..] == ScanMask(s[1..], next);
    }
  }

  /** The sanitised message only deletes characters of the raw one. */
  lemma StripTagsIsSubsequence(s: string)
    ensures IsSubsequence(StripTags(s), s)
  {
    StripTagsIsScan(s);
    ScanIsSelect(s, false);
  }

  /** Sanitising twice is the same as sanitising once. */
  lemma StripTagsIdempotent(s: string)
    ensures StripTags(StripTags(s)) == StripTags(s)
  {
  }

  lemma {:induction false} ScanThroughTag(a: string, rest: string)
    requires '>' !in a
    ensures Scan(a + ">" + rest, true) == Scan(rest, false)
    decreases |a|
  {
    var s := a + ">" + rest;
    if a == [] {
      assert s[0] == '>' && s[1..] == rest;
    } else {
      assert s[0] == a[0] && s[1..] == a[1..] + ">" + rest;
      ScanThroughTag(a[1..], rest);
    }
  }

  lemma {:induction false} ScanKeepsPlainPrefix(t: string, rest: string)
    requires '<' !in t
    ensures Scan(t + rest, false) == t + Scan(rest, false)
    decreases |t|
  {
    if t == [] {
      assert t + rest == rest;
    } else {
      var s := t + rest;
      assert s[0] == t[0] && s[1..] == t[1..] + rest;
      ScanKeepsPlainPrefix(t[1..], rest);
      assert t + Scan(rest, false) == [t[0]] + (t[1..] + Scan(rest, false));
    }
  }

  /** One step of `Scan` on a non-empty string. */
  lemma ScanStep(t: string, inTag: bool)
    requires t != []
    ensures Scan(t, inTag) ==
      if inTag then Scan(t[1..], t[0] != '>')
      else if t[0] == '<' then Scan(t[1..], true)
      else [t[0]] + Scan(t[1..], false)
  {
  }

  lemma ScanElement(open: string, text: string, close: string)
    requires '>' !in open && '>' !in close && '<' !in text
    ensures Scan(['<'] + (open + ['>'] + (text + (['<'] + (close + ['>'])))), false) == text
  {
    var tail := ['<'] + (close + ['>']);
    var inner := open + ['>'] + (text + tail);
    ScanStep(['<'] + inner, false);
    assert (['<'] + inner)[1..] == inner;
    ScanThroughTag(open, text + tail);
    ScanKeepsPlainPrefix(text, tail);
    ScanStep(tail, false);
    assert tail[1..] == close + ">" + [];
    ScanThroughTag(close, []);
    assert text + [] == text;
  }

  /** An element `<open>text<close>` whose text holds no `<` sanitises to
      its text (so `<b>Hi</b>` gives `Hi`). */
  lemma StripTagsElement(open: string, text: string, close: string)
    requires '>' !in open && '>' !in close && '<' !in text
    ensures StripTags(['<'] + (open + ['>'] + (text + (['<'] + (close + ['>']))))) == text
  {
    ScanElement(open, text, close);
    StripTagsIsScan(['<'] + (open + ['>'] + (text + (['<'] + (close + ['>'])))));
  }

  /** The sanitiser run as a single left-to-right pass with a tag flag;
      it computes exactly the global regex replacement. */
  method StripTagsPass(s: string) returns (out: string)
    ensures out == StripTags(s)
    ensures '<' !in out
  {
    StripTagsIsScan(s);
    out := [];
    var inTag := false;
    var i := 0;
    while i < |s|
      invariant 0 <= i <= |s|
      invariant out + Scan(s[i..], inTag) == Scan(s, false)
    {
      var c := s[i];
      var rest := s[i + 1..];
      ScanStep(s[i..], inTag);
      assert s[i..][0] == c && s[i..][1..] == rest;
      if inTag {
        inTag := c != '>';
      } else if c == '<' {
        inTag := true;
      } else {
        assert (out + [c]) + Scan(rest, false) == out + ([c] + Scan(rest, false));
        out := out + [c];
      }
      i := i + 1;
    }
  }

  /** The sanitised login: only the ASCII letters and digits of the input. */
  function SanitizeLogin(login: string): (r: string)
    ensures forall i :: 0 <= i < |r| ==> IsAsciiAlnum(r[i])
    ensures (forall i :: 0 <= i < |login| ==> IsAsciiAlnum(login[i])) <==> r == login
    ensures IsSubsequence(r, login)
  {
    FilterUnchangedIff(login, IsAsciiAlnum);
    FilterIsSubsequence(login, IsAsciiAlnum);
    Filter(login, IsAsciiAlnum)
  }

  lemma SanitizeLoginIdempotent(login: string)
    ensures SanitizeLogin(SanitizeLogin(login)) == SanitizeLogin(login)
  {
  }
}
