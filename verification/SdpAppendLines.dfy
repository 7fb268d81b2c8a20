/** The replacement of the appending branch of injectOpusFmtp, seen line by line: every line
    that starts with the Opus text becomes two, and the text itself is gone. */
module SdpAppendLines {
  import opened Text
  import opened SdpModel
  import opened SdpBridge

  function OpusText(pt: string): string {
    RTPMAP + pt + OPUS
  }

  /** What replaceAll leaves of a line that starts with `text`: two lines. */
  function AppendLine(line: string, text: string, fmtp: string): seq<string> {
    if text <= line then ["$1", fmtp + line[|text|..]] else [line]
  }

  function AppendLines(lines: seq<string>, text: string, fmtp: string): seq<string> {
    if lines == [] then [] else AppendLine(lines[0], text, fmtp) + AppendLines(lines[1..], text, fmtp)
  }

  ghost predicate IsOpusText(text: string) {
    RTPMAP <= text && '\r' !in text && '\n' !in text
  }

  lemma OpusTextIsAttribute(s: string, text: string)
    requires IsOpusText(text) && text <= s
    ensures StartsWithIgnoreCase(s, RTPMAP)
  {
    assert s[..|RTPMAP|] == RTPMAP && Lower(RTPMAP) == RTPMAP;
  }

  // ------------------------------------------------------ replacing text, line by line

  lemma TextCons(c: char, s: string, text: string, new_: string)
    requires text != "" && !(text <= [c] + s)
    ensures ReplaceText([c] + s, text, new_) == [c] + ReplaceText(s, text, new_)
  {
    assert ([c] + s)[1..] == s;
  }

  lemma NotOpusText(s: string, rest: string, text: string)
    requires IsOpusText(text) && LineEndsAt(rest) && NoAttribute(s)
    ensures !(text <= s + rest)
  {
    StartsWithinLine(s, rest, text);
    NoAttributeHere(s, 0);
    assert s[0..] == s;
    if text <= s { OpusTextIsAttribute(s, text); }
  }

  lemma {:induction false} TextSkips(s: string, rest: string, text: string, new_: string)
    requires IsOpusText(text) && LineEndsAt(rest) && NoAttribute(s)
    ensures ReplaceText(s + rest, text, new_) == s + ReplaceText(rest, text, new_)
  {
    if s == "" {
      assert s + rest == rest && s + ReplaceText(rest, text, new_) == ReplaceText(rest, text, new_);
    } else {
      NotOpusText(s, rest, text);
      NoAttributeTail(s);
      TextSkips(s[1..], rest, text, new_);
      Regroup(s, rest);
      TextCons(s[0], s[1..] + rest, text, new_);
      Regroup(s, ReplaceText(rest, text, new_));
    }
  }

  lemma NoAttributeFrom(s: string, k: nat)
    requires NoAttribute(s) && k <= |s|
    ensures NoAttribute(s[k..])
  {
    assert Lower(s[k..]) == Lower(s)[k..|s|];
    FreeSlice(Lower(s), RTPMAP, k, |s|);
    FreeSlice(Lower(s), FMTP, k, |s|);
  }

  lemma TextMatches(s: string, text: string, new_: string, tail: string)
    requires text != "" && s == text + tail
    ensures ReplaceText(s, text, new_) == new_ + ReplaceText(tail, text, new_)
  {
    assert s[|text|..] == tail;
  }

  lemma AfterTextNoAttribute(line: string, text: string)
    requires text != "" && text <= line && TidyLine(line)
    ensures NoAttribute(line[|text|..])
  {
    assert line[1..][|text| - 1..] == line[|text|..];
    NoAttributeFrom(line[1..], |text| - 1);
  }

  lemma Associate(x: string, y: string, z: string)
    ensures x + y + z == x + (y + z)
  {
  }

  lemma OpusLineReplaced(line: string, rest: string, text: string, new_: string)
    requires IsOpusText(text) && TidyLine(line) && LineEndsAt(rest) && text <= line
    ensures ReplaceText(line + rest, text, new_) == new_ + line[|text|..] + ReplaceText(rest, text, new_)
  {
    var tail := line[|text|..];
    AfterTextNoAttribute(line, text);
    TextSkips(tail, rest, text, new_);
    assert line == text + tail;
    Associate(text, tail, rest);
    TextMatches(line + rest, text, new_, tail + rest);
    Associate(new_, tail, ReplaceText(rest, text, new_));
  }

  lemma OtherLineUntouched(line: string, rest: string, text: string, new_: string)
    requires IsOpusText(text) && TidyLine(line) && LineEndsAt(rest) && !(text <= line)
    ensures ReplaceText(line + rest, text, new_) == line + ReplaceText(rest, text, new_)
  {
    if line == "" {
      assert line + rest == rest && line + ReplaceText(rest, text, new_) == ReplaceText(rest, text, new_);
    } else {
      StartsWithinLine(line, rest, text);
      TextSkips(line[1..], rest, text, new_);
      Regroup(line, rest);
      TextCons(line[0], line[1..] + rest, text, new_);
      Regroup(line, ReplaceText(rest, text, new_));
    }
  }

  lemma TextOfLine(line: string, rest: string, text: string, new_: string)
    requires IsOpusText(text) && TidyLine(line) && LineEndsAt(rest)
    ensures ReplaceText(line + rest, text, new_)
         == (if text <= line then new_ + line[|text|..] else line) + ReplaceText(rest, text, new_)
  {
    if text <= line {
      OpusLineReplaced(line, rest, text, new_);
    } else {
      OtherLineUntouched(line, rest, text, new_);
    }
  }

  lemma TextPastLineEnd(rest: string, text: string, new_: string)
    requires IsOpusText(text)
    ensures ReplaceText(CRLF + rest, text, new_) == CRLF + ReplaceText(rest, text, new_)
  {
    assert text[0] == 'a';
    TextCons('\n', rest, text, new_);
    TextCons('\r', ['\n'] + rest, text, new_);
    assert CRLF + rest == ['\r'] + (['\n'] + rest);
    assert ['\r'] + (['\n'] + ReplaceText(rest, text, new_)) == CRLF + ReplaceText(rest, text, new_);
  }

  lemma JoinTwo(x: string, y: string, lines: seq<string>)
    ensures Join([x, y] + lines, CRLF) == x + CRLF + y + if lines == [] then "" else CRLF + Join(lines, CRLF)
  {
    assert [x, y] + lines == [x] + ([y] + lines);
    JoinLine(x, [y] + lines);
    JoinLine(y, lines);
  }

  lemma JoinAppended(line: string, text: string, fmtp: string, after: seq<string>)
    ensures Join(AppendLine(line, text, fmtp) + after, CRLF)
         == (if text <= line then "$1" + CRLF + fmtp + line[|text|..] else line)
          + if after == [] then "" else CRLF + Join(after, CRLF)
  {
    if text <= line {
      JoinTwo("$1", fmtp + line[|text|..], after);
      assert "$1" + CRLF + (fmtp + line[|text|..]) == "$1" + CRLF + fmtp + line[|text|..];
    } else {
      JoinLine(line, after);
    }
  }

  lemma {:induction false} AppendByLine(lines: seq<string>, text: string, fmtp: string)
    requires IsOpusText(text) && TidyLines(lines)
    ensures ReplaceText(Join(lines, CRLF), text, "$1" + CRLF + fmtp) == Join(AppendLines(lines, text, fmtp), CRLF)
    ensures AppendLines(lines, text, fmtp) == [] <==> lines == []
  {
    if lines != [] {
      var line, more := lines[0], lines[1..];
      AppendByLine(more, text, fmtp);
      assert lines == [line] + more;
      JoinLine(line, more);
      TextOfLine(line, if more == [] then "" else CRLF + Join(more, CRLF), text, "$1" + CRLF + fmtp);
      TextPastLineEnd(Join(more, CRLF), text, "$1" + CRLF + fmtp);
      JoinAppended(line, text, fmtp, AppendLines(more, text, fmtp));
    }
  }

  lemma OpusTextIs(pt: string)
    requires Digits(pt)
    ensures IsOpusText(OpusText(pt))
  {
  }

  /** Some line starts with exactly this text. */
  predicate SomeStartsWith(lines: seq<string>, text: string) {
    exists line :: line in lines && text <= line
  }

  lemma {:induction false} NothingToAppendTo(lines: seq<string>, text: string, fmtp: string)
    requires !SomeStartsWith(lines, text)
    ensures AppendLines(lines, text, fmtp) == lines
  {
    if lines != [] {
      assert lines[0] in lines && forall line :: line in lines[1..] ==> line in lines;
      NothingToAppendTo(lines[1..], text, fmtp);
      assert lines == [lines[0]] + lines[1..];
    }
  }
}
