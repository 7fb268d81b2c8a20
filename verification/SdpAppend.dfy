/** The other branch of injectOpusFmtp: when Opus has no parameters yet, the replacement
    overwrites the Opus rtpmap text instead of following it. */
module SdpAppend {
  import opened Wrappers
  import opened Text
  import opened SdpModel
  import opened SdpLines
  import opened SdpBridge
  import opened SdpAppendLines
  import opened SdpTransform

  // --------------------------------------------------------- does the Opus line survive?

  /** Some line gives this payload type to Opus. */
  predicate SomeOpus(lines: seq<string>, pt: string) {
    exists line :: line in lines && OpusHere(line) == Some(pt)
  }

  /** Some such line spells the attribute or the codec in another case, which the search for
      Opus ignores and the replacement does not. */
  predicate OtherSpelling(lines: seq<string>, pt: string) {
    exists line :: line in lines && OpusHere(line) == Some(pt) && !(OpusText(pt) <= line)
  }

  lemma NotOpusLines(text: string)
    requires |text| > 2 && text[0] == 'a' && text[2] == 'f'
    ensures OpusHere(text) == None && OpusHere("$1") == None
  {
    RtpMapLetters(text);
    RtpMapLetters("$1");
  }

  lemma {:induction false} AppendedOpus(lines: seq<string>, text: string, fmtp: string, pt: string)
    requires IsOpusText(text) && FMTP <= fmtp
    ensures SomeOpus(AppendLines(lines, text, fmtp), pt) <==>
            exists line :: line in lines && OpusHere(line) == Some(pt) && !(text <= line)
  {
    if lines != [] {
      var line, more := lines[0], lines[1..];
      var here, rest := AppendLine(line, text, fmtp), AppendLines(more, text, fmtp);
      AppendedOpus(more, text, fmtp, pt);
      assert forall l :: l in here + rest <==> l in here || l in rest;
      assert lines == [line] + more;
      if text <= line {
        assert FMTP[0] == 'a' && FMTP[2] == 'f';
        NotOpusLines(fmtp + line[|text|..]);
      }
    }
  }

  lemma NoCrlf(s: string)
    requires '\r' !in s
    ensures Free(s, CRLF)
  {
    FreeMeans(s, CRLF);
    forall i: nat ensures !At(s, CRLF, i) {
      AtChars(s, CRLF, i, 0);
    }
  }

  lemma {:induction false} AppendHasNoCr(lines: seq<string>, text: string, fmtp: string, line: string)
    requires '\r' !in fmtp && forall l :: l in lines ==> '\r' !in l
    requires line in AppendLines(lines, text, fmtp)
    ensures '\r' !in line
  {
    if line in AppendLines(lines[1..], text, fmtp) {
      AppendHasNoCr(lines[1..], text, fmtp, line);
    } else {
      assert line in AppendLine(lines[0], text, fmtp);
      assert lines[0] in lines;
    }
  }

  lemma AppendedLinesSplit(lines: seq<string>, pt: string, lowLatency: bool)
    requires TidyLines(lines) && lines != [] && Digits(pt) && IsOpusText(OpusText(pt))
    requires AppendLines(lines, OpusText(pt), FmtpLine(pt, lowLatency)) != []
    ensures var r := AppendLines(lines, OpusText(pt), FmtpLine(pt, lowLatency));
            Split(Join(r, CRLF), CRLF) == r
  {
    var r := AppendLines(lines, OpusText(pt), FmtpLine(pt, lowLatency));
    OneColon(pt, lowLatency);
    forall l | l in lines ensures '\r' !in l { NoBreakChars(l); }
    forall line | line in r ensures Free(line, CRLF) {
      AppendHasNoCr(lines, OpusText(pt), FmtpLine(pt, lowLatency), line);
      NoCrlf(line);
    }
    SeparatorsAreBorderFree();
    SplitJoin(r, CRLF);
  }

  lemma {:induction false} OpusOfIsSome(lines: seq<string>, pt: string)
    requires OpusOf(lines) == Some(pt)
    ensures SomeOpus(lines, pt)
  {
    if OpusHere(lines[0]).None? {
      OpusOfIsSome(lines[1..], pt);
    }
  }

  lemma OpusLineIsKept(lines: seq<string>, pt: string, lowLatency: bool)
    requires OpusOf(lines) == Some(pt)
    ensures SomeOpus(InjectLines(lines, lowLatency), pt)
  {
    InjectKeepsOpus(lines, lowLatency);
    OpusOfIsSome(InjectLines(lines, lowLatency), pt);
  }

  /** For every tidy text with Opus: injection keeps an Opus line for the payload type if and
      only if it already had an fmtp line, or one of its lines is spelled in another case and
      so escapes the replacement. */
  lemma OpusLineSurvivesIff(sdp: string, lowLatency: bool, pt: string)
    requires Tidy(sdp) && FirstOpus(sdp) == Some(pt)
    ensures SomeOpus(Split(InjectOpusFmtp(sdp, lowLatency), CRLF), pt) <==>
            HasFmtp(sdp, FmtpHead(pt)) || OtherSpelling(Split(sdp, CRLF), pt)
  {
    var lines, text, fmtp := Split(sdp, CRLF), OpusText(pt), FmtpLine(pt, lowLatency);
    JoinSplit(sdp, CRLF);
    FirstOpusIsOpusOf(lines);
    OpusIsDigits(lines);
    OpusTextIs(pt);
    ReplaceFmtpByLine(lines, FmtpHead(pt), fmtp);
    if HasFmtp(sdp, FmtpHead(pt)) {
      InjectByLine(sdp, lowLatency);
      OpusLineIsKept(lines, pt, lowLatency);
    } else {
      AppendByLine(lines, text, fmtp);
      AppendedLinesSplit(lines, pt, lowLatency);
      assert FMTP <= fmtp by { FmtpHeadStarts(fmtp, pt); }
      AppendedOpus(lines, text, fmtp, pt);
    }
  }

  // -------------------------------------------------------------- a text that loses Opus

  lemma NoEqualsNoAttribute(t: string)
    requires forall i :: 1 <= i < |t| ==> t[i] != '='
    ensures Free(t, RTPMAP) && Free(t, FMTP)
  {
    FreeMeans(t, RTPMAP);
    FreeMeans(t, FMTP);
    forall i: nat ensures !At(t, RTPMAP, i) && !At(t, FMTP, i) {
      AtChars(t, RTPMAP, i, 1);
      AtChars(t, FMTP, i, 1);
    }
  }

  lemma EqualsOnlyAtOne(line: string)
    requires line != "" && forall i :: 0 <= i < |line| ==> (line[i] == '=' ==> i == 1) && !IsBreak(line[i])
    ensures TidyLine(line)
  {
    var t := Lower(line[1..]);
    NoBreaksAnywhere(line);
    assert forall i :: 0 <= i < |t| ==> (t[i] == '=' <==> line[i + 1] == '=');
    NoEqualsNoAttribute(t);
  }

  lemma {:induction false} DigitsThenSpace(pt: string, rest: string)
    requires Digits(pt) && (rest == "" || !IsDigit(rest[0]))
    ensures DigitCount(pt + rest) == |pt|
  {
    var s := pt + rest;
    if pt == "" {
      assert s == rest;
    } else {
      assert s[0] == pt[0] && pt[0] in pt && s[1..] == pt[1..] + rest;
      DigitsThenSpace(pt[1..], rest);
    }
  }

  lemma LiteralsAreLower()
    ensures Lower(RTPMAP) == RTPMAP && Lower(OPUS) == OPUS && OPUS[0] == ' '
  {
  }

  lemma OpusTextIsOpus(pt: string)
    requires Digits(pt) && pt != ""
    ensures OpusHere(OpusText(pt)) == Some(pt)
  {
    var line := OpusText(pt);
    var rest := line[|RTPMAP|..];
    LiteralsAreLower();
    assert line[..|RTPMAP|] == RTPMAP && rest == pt + OPUS;
    DigitsThenSpace(pt, OPUS);
    assert rest[..|pt|] == pt && rest[|pt|..] == OPUS && OPUS[..|OPUS|] == OPUS;
  }

  lemma LiteralsHaveOneEquals()
    ensures forall i :: 0 <= i < |RTPMAP| ==> (RTPMAP[i] == '=' ==> i == 1) && !IsBreak(RTPMAP[i])
    ensures forall i :: 0 <= i < |OPUS| ==> OPUS[i] != '=' && !IsBreak(OPUS[i])
  {
  }

  lemma OpusTextIsTidy(pt: string)
    requires Digits(pt)
    ensures TidyLine(OpusText(pt))
  {
    var line := OpusText(pt);
    LiteralsHaveOneEquals();
    forall i | 0 <= i < |line| ensures (line[i] == '=' ==> i == 1) && !IsBreak(line[i]) {
      if i < |RTPMAP| {
        assert line[i] == RTPMAP[i];
      } else if i < |RTPMAP| + |pt| {
        assert line[i] == pt[i - |RTPMAP|] && pt[i - |RTPMAP|] in pt;
      } else {
        assert line[i] == OPUS[i - |RTPMAP| - |pt|];
      }
    }
    EqualsOnlyAtOne(line);
  }

  const AUDIO := "m=audio 9 RTP/SAVPF "

  lemma AudioLineIsTidy(pt: string)
    requires Digits(pt)
    ensures TidyLine(AUDIO + pt)
  {
    var line := AUDIO + pt;
    forall i | 0 <= i < |line| ensures (line[i] == '=' ==> i == 1) && !IsBreak(line[i]) {
      if i >= |AUDIO| {
        assert line[i] == pt[i - |AUDIO|] && pt[i - |AUDIO|] in pt;
      }
    }
    EqualsOnlyAtOne(line);
  }

  /** An m-line and the Opus line it numbers, with no parameters. */
  function PlainOffer(pt: string): seq<string> {
    [AUDIO + pt, OpusText(pt)]
  }

  lemma PlainOfferIs(pt: string)
    requires Digits(pt) && pt != ""
    ensures TidyLines(PlainOffer(pt)) && OpusOf(PlainOffer(pt)) == Some(pt)
    ensures !SomeFmtp(PlainOffer(pt), FmtpHead(pt)) && !OtherSpelling(PlainOffer(pt), pt)
  {
    var audio, opus := AUDIO + pt, OpusText(pt);
    AudioLineIsTidy(pt);
    OpusTextIsTidy(pt);
    OpusTextIsOpus(pt);
    assert audio[0] == 'm';
    NotAnRtpMap(audio);
    NotFmtp(audio, pt);
    assert PlainOffer(pt)[1..] == [opus];
    assert opus[2] == 'r' && FmtpHead(pt)[2] == 'f';
  }

  /** So an SDP of the lines "m=audio 9 RTP/SAVPF 96" and "a=rtpmap:96 opus/48000/2", or with
      any other number, loses what says that this payload type is Opus. */
  lemma PlainOfferLosesOpus(pt: string, lowLatency: bool)
    requires Digits(pt) && pt != ""
    ensures var sdp := Join(PlainOffer(pt), CRLF);
            Tidy(sdp) && FirstOpus(sdp) == Some(pt) && !SomeOpus(Split(InjectOpusFmtp(sdp, lowLatency), CRLF), pt)
  {
    var lines, sdp := PlainOffer(pt), Join(PlainOffer(pt), CRLF);
    PlainOfferIs(pt);
    TidySplitJoin(lines);
    FirstOpusIsOpusOf(lines);
    OpusIsDigits(lines);
    ReplaceFmtpByLine(lines, FmtpHead(pt), FmtpLine(pt, lowLatency));
    OpusLineSurvivesIff(sdp, lowLatency, pt);
  }
}
