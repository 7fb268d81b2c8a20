/** Why scanning a whole SDP text with a regular expression rewrites it line by line, for
    texts whose rtpmap and fmtp attributes occur only at the start of a line. */
module SdpBridge {
  import opened Wrappers
  import opened Text
  import opened SdpModel
  import opened SdpLines

  predicate NoBreak(s: string) {
    Free(s, "\r") && Free(s, "\n")
  }

  predicate NoAttribute(s: string) {
    Free(Lower(s), RTPMAP) && Free(Lower(s), FMTP)
  }

  /** No stray carriage return or line feed, and attribute text at the start only. */
  predicate TidyLine(line: string) {
    NoBreak(line) && (line != "" ==> NoAttribute(line[1..]))
  }

  predicate TidyLines(lines: seq<string>) {
    forall line :: line in lines ==> TidyLine(line)
  }

  predicate Tidy(sdp: string) {
    TidyLines(Split(sdp, CRLF))
  }

  /** What may follow a line: nothing, or a line end. */
  predicate LineEndsAt(rest: string) {
    rest == "" || rest[0] == '\r'
  }

  // ------------------------------------------------------------------ single lines

  lemma NoBreakChars(s: string)
    requires NoBreak(s)
    ensures forall c :: c in s ==> !IsBreak(c)
  {
    FreeMeans(s, "\r");
    FreeMeans(s, "\n");
    forall i | 0 <= i < |s| ensures !IsBreak(s[i]) {
      assert !At(s, "\r", i) && !At(s, "\n", i);
      assert s[i..i + 1] == [s[i]];
    }
  }

  lemma NoAttributeHere(s: string, k: nat)
    requires NoAttribute(s) && k <= |s|
    ensures !StartsWithIgnoreCase(s[k..], RTPMAP) && !StartsWithIgnoreCase(s[k..], FMTP)
  {
    FreeMeans(Lower(s), RTPMAP);
    FreeMeans(Lower(s), FMTP);
    LowerAt(s, k, RTPMAP);
    LowerAt(s, k, FMTP);
  }

  lemma LowerAt(s: string, k: nat, t: string)
    requires k <= |s|
    ensures StartsWithIgnoreCase(s[k..], t) <==> At(Lower(s), t, k)
  {
    if k + |t| <= |s| {
      assert Lower(s[k..][..|t|]) == Lower(s)[k..k + |t|];
    }
  }

  /** A pattern without carriage returns matches within the line or not at all. */
  lemma StartsWithinLine(line: string, rest: string, t: string)
    requires LineEndsAt(rest) && '\r' !in t
    ensures StartsWithIgnoreCase(line + rest, t) <==> StartsWithIgnoreCase(line, t)
    ensures t <= line + rest <==> t <= line
  {
    if |t| <= |line| {
      assert (line + rest)[..|t|] == line[..|t|];
    } else if rest != "" && |t| <= |line + rest| {
      assert (line + rest)[..|t|][|line|] == '\r';
      assert Lower((line + rest)[..|t|])[|line|] == '\r';
    }
  }

  lemma {:induction false} DigitsWithinLine(line: string, rest: string)
    requires LineEndsAt(rest)
    ensures DigitCount(line + rest) == DigitCount(line)
  {
    if line == "" {
      assert line + rest == rest;
    } else {
      DigitsWithinLine(line[1..], rest);
      assert (line + rest)[1..] == line[1..] + rest;
    }
  }

  lemma OpusTailWithinLine(tail: string, rest: string)
    requires LineEndsAt(rest)
    ensures DigitCount(tail + rest) == DigitCount(tail)
    ensures (tail + rest)[..DigitCount(tail)] == tail[..DigitCount(tail)]
    ensures StartsWithIgnoreCase((tail + rest)[DigitCount(tail)..], OPUS)
       <==> StartsWithIgnoreCase(tail[DigitCount(tail)..], OPUS)
  {
    DigitsWithinLine(tail, rest);
    var d := DigitCount(tail);
    assert (tail + rest)[d..] == tail[d..] + rest;
    StartsWithinLine(tail[d..], rest, OPUS);
  }

  lemma OpusWithinLine(line: string, rest: string)
    requires LineEndsAt(rest)
    ensures OpusHere(line + rest) == OpusHere(line)
  {
    StartsWithinLine(line, rest, RTPMAP);
    if StartsWithIgnoreCase(line, RTPMAP) {
      OpusTailWithinLine(line[|RTPMAP|..], rest);
      assert (line + rest)[|RTPMAP|..] == line[|RTPMAP|..] + rest;
    }
  }

  // ----------------------------------------------------------------- the first Opus

  function OpusOf(lines: seq<string>): Option<string> {
    if lines == [] then None
    else if OpusHere(lines[0]).Some? then OpusHere(lines[0])
    else OpusOf(lines[1..])
  }

  lemma {:induction false} OpusSkipsText(text: string, rest: string)
    requires LineEndsAt(rest) && NoAttribute(text)
    ensures FirstOpus(text + rest) == FirstOpus(rest)
  {
    if text == "" {
      assert text + rest == rest;
    } else {
      OpusWithinLine(text, rest);
      NoAttributeHere(text, 0);
      assert text[0..] == text;
      NoAttributeTail(text);
      OpusSkipsText(text[1..], rest);
      assert (text + rest)[1..] == text[1..] + rest;
    }
  }

  lemma NoAttributeTail(text: string)
    requires text != "" && NoAttribute(text)
    ensures NoAttribute(text[1..])
  {
    assert Lower(text[1..]) == Lower(text)[1..|text|];
    FreeSlice(Lower(text), RTPMAP, 1, |text|);
    FreeSlice(Lower(text), FMTP, 1, |text|);
  }

  lemma FirstOpusCons(c: char, s: string)
    ensures FirstOpus([c] + s) == if OpusHere([c] + s).Some? then OpusHere([c] + s) else FirstOpus(s)
  {
    assert ([c] + s)[1..] == s;
  }

  lemma OpusOfCons(c: char, t: string, rest: string)
    requires NoAttribute(t) && LineEndsAt(rest)
    ensures FirstOpus([c] + (t + rest))
         == if OpusHere([c] + (t + rest)).Some? then OpusHere([c] + (t + rest)) else FirstOpus(rest)
  {
    OpusSkipsText(t, rest);
    FirstOpusCons(c, t + rest);
  }

  lemma Regroup(line: string, rest: string)
    requires line != ""
    ensures [line[0]] + (line[1..] + rest) == line + rest
  {
  }

  lemma OpusOfLine(line: string, rest: string)
    requires TidyLine(line) && LineEndsAt(rest)
    ensures FirstOpus(line + rest) == if OpusHere(line).Some? then OpusHere(line) else FirstOpus(rest)
  {
    if line == "" {
      assert line + rest == rest;
    } else {
      OpusWithinLine(line, rest);
      OpusOfCons(line[0], line[1..], rest);
      Regroup(line, rest);
    }
  }

  lemma OpusPastLineEnd(rest: string)
    ensures FirstOpus(CRLF + rest) == FirstOpus(rest)
  {
    RtpMapLetters(['\r'] + (['\n'] + rest));
    RtpMapLetters(['\n'] + rest);
    FirstOpusCons('\r', ['\n'] + rest);
    FirstOpusCons('\n', rest);
    assert CRLF + rest == ['\r'] + (['\n'] + rest);
  }

  lemma JoinLine(line: string, lines: seq<string>)
    ensures Join([line] + lines, CRLF) == line + if lines == [] then "" else CRLF + Join(lines, CRLF)
  {
    JoinCons(line, lines, CRLF);
    assert line + CRLF + Join(lines, CRLF) == line + (CRLF + Join(lines, CRLF));
  }

  lemma {:induction false} FirstOpusIsOpusOf(lines: seq<string>)
    requires TidyLines(lines)
    ensures FirstOpus(Join(lines, CRLF)) == OpusOf(lines)
  {
    if lines != [] {
      var line, rest := lines[0], Join(lines[1..], CRLF);
      assert lines == [line] + lines[1..];
      JoinLine(line, lines[1..]);
      FirstOpusIsOpusOf(lines[1..]);
      OpusOfLine(line, if lines[1..] == [] then "" else CRLF + rest);
      OpusPastLineEnd(rest);
    }
  }

  // -------------------------------------------------------------------- fmtp lines

  /** The heads that can arise: "a=fmtp:", digits, a space. */
  ghost predicate IsHead(head: string) {
    FMTP <= head && forall c :: c in head ==> !IsBreak(c)
  }

  lemma FmtpWithinLine(line: string, rest: string, head: string)
    requires LineEndsAt(rest) && NoBreak(line) && IsHead(head)
    ensures FmtpHere(line + rest, head) <==> IsFmtp(line, head)
  {
    StartsWithinLine(line, rest, head);
    NoBreakChars(line);
    if |head| < |line| {
      assert (line + rest)[|head|] == line[|head|] && line[|head|] in line;
    }
  }

  lemma HeadIsAttribute(s: string, head: string)
    requires IsHead(head) && head <= s
    ensures StartsWithIgnoreCase(s, FMTP)
  {
    assert s[..|FMTP|] == FMTP;
    assert Lower(FMTP) == FMTP;
  }

  lemma NoFmtpInText(text: string, rest: string, head: string)
    requires LineEndsAt(rest) && NoAttribute(text) && NoBreak(text) && IsHead(head)
    ensures !FmtpHere(text + rest, head)
  {
    FmtpWithinLine(text, rest, head);
    NoAttributeHere(text, 0);
    assert text[0..] == text;
    if head <= text { HeadIsAttribute(text, head); }
  }

  lemma NoBreakTail(text: string)
    requires text != "" && NoBreak(text)
    ensures NoBreak(text[1..])
  {
    assert text[1..] == text[1..|text|];
    FreeSlice(text, "\r", 1, |text|);
    FreeSlice(text, "\n", 1, |text|);
  }

  lemma FmtpCons(c: char, s: string, head: string, fmtp: string)
    requires !FmtpHere([c] + s, head)
    ensures HasFmtp([c] + s, head) == HasFmtp(s, head)
    ensures ReplaceFmtp([c] + s, head, fmtp) == [c] + ReplaceFmtp(s, head, fmtp)
  {
    assert ([c] + s)[1..] == s;
  }

  lemma {:induction false} FmtpSkipsText(text: string, rest: string, head: string, fmtp: string)
    requires LineEndsAt(rest) && NoAttribute(text) && NoBreak(text) && IsHead(head)
    ensures HasFmtp(text + rest, head) == HasFmtp(rest, head)
    ensures ReplaceFmtp(text + rest, head, fmtp) == text + ReplaceFmtp(rest, head, fmtp)
  {
    if text == "" {
      assert text + rest == rest && text + ReplaceFmtp(rest, head, fmtp) == ReplaceFmtp(rest, head, fmtp);
    } else {
      NoFmtpInText(text, rest, head);
      NoAttributeTail(text);
      NoBreakTail(text);
      FmtpSkipsText(text[1..], rest, head, fmtp);
      Regroup(text, rest);
      FmtpCons(text[0], text[1..] + rest, head, fmtp);
      Regroup(text, ReplaceFmtp(rest, head, fmtp));
    }
  }

  lemma {:induction false} RunWithinLine(text: string, rest: string)
    requires LineEndsAt(rest) && forall c :: c in text ==> !IsBreak(c)
    ensures RunLength(text + rest) == |text|
  {
    if text == "" {
      assert text + rest == rest;
    } else {
      RunWithinLine(text[1..], rest);
      assert (text + rest)[1..] == text[1..] + rest && text[0] in text;
    }
  }

  lemma ReplaceMatch(s: string, head: string, fmtp: string, rest: string)
    requires FmtpHere(s, head) && s[|head| + RunLength(s[|head|..])..] == rest
    ensures ReplaceFmtp(s, head, fmtp) == fmtp + ReplaceFmtp(rest, head, fmtp)
  {
  }

  lemma FmtpLineReplaced(line: string, rest: string, head: string, fmtp: string)
    requires NoBreak(line) && LineEndsAt(rest) && IsHead(head) && IsFmtp(line, head)
    ensures ReplaceFmtp(line + rest, head, fmtp) == fmtp + ReplaceFmtp(rest, head, fmtp)
  {
    FmtpWithinLine(line, rest, head);
    NoBreakChars(line);
    var tail := line[|head|..];
    assert forall c :: c in tail ==> c in line;
    RunWithinLine(tail, rest);
    assert (line + rest)[|head|..] == tail + rest;
    assert (line + rest)[|head| + |tail|..] == rest;
    ReplaceMatch(line + rest, head, fmtp, rest);
  }

  lemma OtherLineKept(line: string, rest: string, head: string, fmtp: string)
    requires TidyLine(line) && LineEndsAt(rest) && IsHead(head) && !IsFmtp(line, head)
    ensures HasFmtp(line + rest, head) == HasFmtp(rest, head)
    ensures ReplaceFmtp(line + rest, head, fmtp) == line + ReplaceFmtp(rest, head, fmtp)
  {
    if line == "" {
      assert line + rest == rest && line + ReplaceFmtp(rest, head, fmtp) == ReplaceFmtp(rest, head, fmtp);
    } else {
      FmtpWithinLine(line, rest, head);
      NoBreakTail(line);
      FmtpSkipsText(line[1..], rest, head, fmtp);
      Regroup(line, rest);
      FmtpCons(line[0], line[1..] + rest, head, fmtp);
      Regroup(line, ReplaceFmtp(rest, head, fmtp));
    }
  }

  lemma FmtpOfLine(line: string, rest: string, head: string, fmtp: string)
    requires TidyLine(line) && LineEndsAt(rest) && IsHead(head)
    ensures HasFmtp(line + rest, head) <==> IsFmtp(line, head) || HasFmtp(rest, head)
    ensures ReplaceFmtp(line + rest, head, fmtp)
         == (if IsFmtp(line, head) then fmtp else line) + ReplaceFmtp(rest, head, fmtp)
  {
    if IsFmtp(line, head) {
      FmtpWithinLine(line, rest, head);
      FmtpLineReplaced(line, rest, head, fmtp);
    } else {
      OtherLineKept(line, rest, head, fmtp);
    }
  }

  lemma FmtpPastLineEnd(rest: string, head: string, fmtp: string)
    requires IsHead(head)
    ensures HasFmtp(CRLF + rest, head) == HasFmtp(rest, head)
    ensures ReplaceFmtp(CRLF + rest, head, fmtp) == CRLF + ReplaceFmtp(rest, head, fmtp)
  {
    assert head[0] == 'a';
    FmtpCons('\n', rest, head, fmtp);
    FmtpCons('\r', ['\n'] + rest, head, fmtp);
    assert CRLF + rest == ['\r'] + (['\n'] + rest);
    assert ['\r'] + (['\n'] + ReplaceFmtp(rest, head, fmtp)) == CRLF + ReplaceFmtp(rest, head, fmtp);
  }

  predicate SomeFmtp(lines: seq<string>, head: string) {
    exists line :: line in lines && IsFmtp(line, head)
  }

  /** Replacing in the text is replacing line by line. */
  lemma {:induction false} ReplaceFmtpByLine(lines: seq<string>, head: string, fmtp: string)
    requires TidyLines(lines) && IsHead(head)
    ensures HasFmtp(Join(lines, CRLF), head) <==> SomeFmtp(lines, head)
    ensures ReplaceFmtp(Join(lines, CRLF), head, fmtp) == Join(ReplaceFmtpLines(lines, head, fmtp), CRLF)
  {
    if lines != [] {
      var line, more := lines[0], lines[1..];
      var line' := if IsFmtp(line, head) then fmtp else line;
      var rest := if more == [] then "" else CRLF + Join(more, CRLF);
      ReplaceFmtpByLine(more, head, fmtp);
      SplitFirst(lines, head, fmtp);
      JoinLine(line, more);
      JoinLine(line', ReplaceFmtpLines(more, head, fmtp));
      FmtpOfLine(line, rest, head, fmtp);
      FmtpPastLineEnd(Join(more, CRLF), head, fmtp);
    }
  }

  lemma SplitFirst(lines: seq<string>, head: string, fmtp: string)
    requires lines != []
    ensures lines == [lines[0]] + lines[1..]
    ensures SomeFmtp(lines, head) <==> IsFmtp(lines[0], head) || SomeFmtp(lines[1..], head)
    ensures ReplaceFmtpLines(lines, head, fmtp)
         == [if IsFmtp(lines[0], head) then fmtp else lines[0]] + ReplaceFmtpLines(lines[1..], head, fmtp)
  {
    assert lines == [lines[0]] + lines[1..];
  }

  /** A payload type as the Opus pattern captures it. */
  predicate Digits(pt: string) {
    forall c :: c in pt ==> IsDigit(c)
  }

  lemma {:induction false} OpusIsDigits(lines: seq<string>)
    requires OpusOf(lines).Some?
    ensures Digits(OpusOf(lines).value) && IsHead(FmtpHead(OpusOf(lines).value))
  {
    if OpusHere(lines[0]).None? {
      OpusIsDigits(lines[1..]);
    }
  }
}
