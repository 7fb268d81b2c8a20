/** The whole pipeline: its reorderings commute, and where no Opus line is overwritten,
    transformSdp is idempotent and keeps the payload-type table. */
module SdpTransform {
  import opened Wrappers
  import opened Text
  import opened CodecPreference
  import opened SdpModel
  import opened SdpLines
  import opened SdpBridge
  import opened SdpAppendLines

  // ---------------------------------------------------------- from text to lines and back

  function LowerAll(parts: seq<string>): seq<string> {
    seq(|parts|, i requires 0 <= i < |parts| => Lower(parts[i]))
  }

  lemma {:induction false} LowerJoin(parts: seq<string>)
    ensures Lower(Join(parts, SPACE)) == Join(LowerAll(parts), SPACE)
  {
    if |parts| > 1 {
      LowerJoin(parts[1..]);
      assert LowerAll(parts)[1..] == LowerAll(parts[1..]);
      LowerConcat(parts[0] + SPACE, Join(parts[1..], SPACE));
      LowerConcat(parts[0], SPACE);
    }
  }

  lemma LowerPiece(p: string, s: string, t: string)
    requires PieceOf(p, s) && Free(Lower(s), t)
    ensures Free(Lower(p), t)
  {
    var i, j :| 0 <= i <= j <= |s| && p == s[i..j];
    assert Lower(p) == Lower(s)[i..j];
    FreeSlice(Lower(s), t, i, j);
  }

  /** Text without a space occurs in a rearranged line only if it occurred before. */
  lemma RearrangedIsFree(line: string, pts: seq<string>, t: string)
    requires SamePayload(line, pts) && t != "" && ' ' !in t
    ensures Free(line, t) ==> Free(WithPayload(line, pts), t)
    ensures Free(Lower(line), t) ==> Free(Lower(WithPayload(line, pts)), t)
  {
    var moved := Split(line, SPACE)[..3] + pts;
    MovedParts(line, pts);
    if Free(line, t) {
      PartsInherit(line, SPACE, t);
      JoinIsFree(moved, t);
    }
    if Free(Lower(line), t) {
      forall p | p in LowerAll(moved) ensures Free(p, t) {
        var i :| 0 <= i < |moved| && p == Lower(moved[i]);
        assert moved[i] in Split(line, SPACE);
        PartsArePieces(line, SPACE, moved[i]);
        LowerPiece(moved[i], line, t);
      }
      JoinIsFree(LowerAll(moved), t);
      LowerJoin(moved);
    }
  }

  lemma ReorderedLineIsFree(line: string, pref: Preference, t: string)
    requires t != "" && ' ' !in t
    ensures Free(line, t) ==> Free(ReorderLine(line, pref), t)
    ensures Free(Lower(line), t) ==> Free(Lower(ReorderLine(line, pref)), t)
  {
    if HasPayload(line) {
      ReorderLineIsRearranged(line, pref);
      RearrangedIsFree(line, Preferred(pref, Payload(line)), t);
    }
  }

  /** The rewritten text splits into the rewritten lines, for every input. */
  lemma SplitReorder(sdp: string, media: string, codecs: seq<string>)
    ensures Split(Reorder(sdp, media, codecs), CRLF) == ReorderLines(Split(sdp, CRLF), media, codecs)
  {
    var lines := Split(sdp, CRLF);
    var r := ReorderLines(lines, media, codecs);
    forall p | p in r ensures Free(p, CRLF) {
      var i :| 0 <= i < |r| && r[i] == p;
      assert lines[i] in lines;
      PartsAreFree(sdp, CRLF, lines[i]);
      ReorderedLineIsFree(lines[i], Preference(RtpTable(lines), codecs), CRLF);
    }
    SeparatorsAreBorderFree();
    SplitJoin(r, CRLF);
  }

  lemma AudioAndVideoAreMedia()
    ensures IsMedia("audio") && IsMedia("video") && Distinct("audio", "video")
  {
    FreeMeans("audio", SPACE);
    FreeMeans("video", SPACE);
    forall i: nat ensures !At("audio", SPACE, i) && !At("video", SPACE, i) {
      if i < 5 { assert "audio"[i..i + 1][0] != ' ' && "video"[i..i + 1][0] != ' '; }
    }
    assert MediaPrefix("audio")[2] == 'a' && MediaPrefix("video")[2] == 'v';
  }

  // ------------------------------------------------------------- reorderCodecs on texts

  /** Every line but the first m-line of the medium is returned unchanged, and that line
      keeps its first three fields and gets its payload types stably sorted. */
  lemma ReorderChangesOnlyTheOrder(sdp: string, media: string, codecs: seq<string>, i: nat)
    requires i < |Split(sdp, CRLF)|
    ensures |Split(Reorder(sdp, media, codecs), CRLF)| == |Split(sdp, CRLF)|
    ensures var before, after := Split(sdp, CRLF)[i], Split(Reorder(sdp, media, codecs), CRLF)[i];
            if LineIndex(Split(sdp, CRLF), "m=" + media + " ") != Some(i) || !HasPayload(before) then after == before
            else HasPayload(after) && Split(after, SPACE)[..3] == Split(before, SPACE)[..3] &&
                 Payload(after) == Preferred(Preference(RtpTable(Split(sdp, CRLF)), codecs), Payload(before))
  {
    SplitReorder(sdp, media, codecs);
    var line, pref := Split(sdp, CRLF)[i], Preference(RtpTable(Split(sdp, CRLF)), codecs);
    if HasPayload(line) {
      ReorderLineIsRearranged(line, pref);
      PartsOfRearranged(line, Preferred(pref, Payload(line)));
    }
  }

  lemma ReorderIdempotent(sdp: string, media: string, codecs: seq<string>)
    requires IsMedia(media)
    ensures Reorder(Reorder(sdp, media, codecs), media, codecs) == Reorder(sdp, media, codecs)
  {
    SplitReorder(sdp, media, codecs);
    ReorderLinesIdempotent(Split(sdp, CRLF), media, codecs);
  }

  lemma AudioVideoCommute(sdp: string, p: seq<string>, q: seq<string>)
    ensures Reorder(Reorder(sdp, "audio", p), "video", q) == Reorder(Reorder(sdp, "video", q), "audio", p)
  {
    AudioAndVideoAreMedia();
    SplitReorder(sdp, "audio", p);
    SplitReorder(sdp, "video", q);
    ReordersCommute(Split(sdp, CRLF), "audio", p, "video", q);
  }

  // ------------------------------------------------------------------ tidy texts stay tidy

  lemma MLinesHaveNoAttribute(line: string)
    requires TidyLine(line) && |line| > 0 && line[0] == 'm'
    ensures NoAttribute(line)
  {
    FreeMeans(Lower(line), RTPMAP);
    FreeMeans(Lower(line), FMTP);
    FreeMeans(Lower(line[1..]), RTPMAP);
    FreeMeans(Lower(line[1..]), FMTP);
    forall i: nat ensures !At(Lower(line), RTPMAP, i) && !At(Lower(line), FMTP, i) {
      if i > 0 {
        LowerConcat([line[0]], line[1..]);
        assert line == [line[0]] + line[1..];
        AtRight(Lower([line[0]]), Lower(line[1..]), RTPMAP, i - 1);
        AtRight(Lower([line[0]]), Lower(line[1..]), FMTP, i - 1);
      } else {
        assert Lower(line)[0] == 'm';
      }
    }
  }

  lemma ReorderedLineIsTidy(line: string, pref: Preference)
    requires TidyLine(line) && |line| > 0 && line[0] == 'm'
    requires |ReorderLine(line, pref)| > 0
    ensures TidyLine(ReorderLine(line, pref))
  {
    MLinesHaveNoAttribute(line);
    ReorderedLineIsFree(line, pref, "\r");
    ReorderedLineIsFree(line, pref, "\n");
    ReorderedLineIsFree(line, pref, RTPMAP);
    ReorderedLineIsFree(line, pref, FMTP);
    NoAttributeTail(ReorderLine(line, pref));
  }

  lemma ReorderedLinesAreTidy(lines: seq<string>, media: string, codecs: seq<string>)
    requires TidyLines(lines) && IsMedia(media)
    ensures TidyLines(ReorderLines(lines, media, codecs))
  {
    var r := ReorderLines(lines, media, codecs);
    forall line | line in r ensures TidyLine(line) {
      var i :| 0 <= i < |r| && r[i] == line;
      assert lines[i] in lines;
      ReorderTouchesOneLine(lines, media, codecs, i);
      if r[i] != lines[i] {
        MLinesStartWithM(lines[i], media);
        MLinesStartWithM(r[i], media);
        ReorderedLineIsTidy(lines[i], Preference(RtpTable(lines), codecs));
      }
    }
  }

  ghost predicate Plain(s: string) {
    forall c :: c in s ==> c != ':' && !IsBreak(c)
  }

  lemma FecIsPlain()
    ensures Plain("useinbandfec=1;")
  {
  }

  lemma TimesArePlain(lowLatency: bool)
    ensures Plain(UseDtx(lowLatency)) && Plain(MinPTime(lowLatency))
  {
  }

  lemma BitRateIsPlain(lowLatency: bool)
    ensures Plain(BitRate(lowLatency))
  {
  }

  lemma ParametersArePlain(lowLatency: bool)
    ensures Plain(OpusParameters(lowLatency))
  {
    FecIsPlain();
    TimesArePlain(lowLatency);
    BitRateIsPlain(lowLatency);
    PlainConcat("useinbandfec=1;", UseDtx(lowLatency));
    PlainConcat("useinbandfec=1;" + UseDtx(lowLatency), MinPTime(lowLatency));
    PlainConcat("useinbandfec=1;" + UseDtx(lowLatency) + MinPTime(lowLatency), BitRate(lowLatency));
  }

  lemma PlainConcat(x: string, y: string)
    requires Plain(x) && Plain(y)
    ensures Plain(x + y)
  {
  }

  lemma OneColon(pt: string, lowLatency: bool)
    requires Digits(pt)
    ensures var line := FmtpLine(pt, lowLatency);
            forall i :: 0 <= i < |line| ==> (line[i] == ':' ==> i == 6) && !IsBreak(line[i])
  {
    var line, tail := FmtpLine(pt, lowLatency), OpusParameters(lowLatency);
    ParametersArePlain(lowLatency);
    forall i | 0 <= i < |line| ensures (line[i] == ':' ==> i == 6) && !IsBreak(line[i]) {
      if |FMTP| <= i < |FMTP| + |pt| {
        assert line[i] == pt[i - |FMTP|] && pt[i - |FMTP|] in pt;
      } else if i >= |FmtpHead(pt)| {
        assert line[i] == tail[i - |FmtpHead(pt)|] && tail[i - |FmtpHead(pt)|] in tail;
      }
    }
  }

  lemma NoBreaksAnywhere(s: string)
    requires forall i :: 0 <= i < |s| ==> !IsBreak(s[i])
    ensures NoBreak(s)
  {
    FreeMeans(s, "\r");
    FreeMeans(s, "\n");
    forall i: nat ensures !At(s, "\r", i) && !At(s, "\n", i) {
      if i < |s| { assert s[i..i + 1][0] == s[i]; }
    }
  }

  lemma AtChars(s: string, t: string, i: nat, k: nat)
    requires k < |t|
    ensures At(s, t, i) ==> i + k < |s| && s[i + k] == t[k]
  {
    if At(s, t, i) {
      assert s[i..i + |t|][k] == t[k];
    }
  }

  lemma FmtpLineIsTidy(pt: string, lowLatency: bool)
    requires Digits(pt)
    ensures TidyLine(FmtpLine(pt, lowLatency))
  {
    var line := FmtpLine(pt, lowLatency);
    OneColon(pt, lowLatency);
    NoBreaksAnywhere(line);
    ColonOnlyAtSix(line);
  }

  lemma ColonOnlyAtSix(line: string)
    requires line != "" && forall i :: 0 <= i < |line| && line[i] == ':' ==> i == 6
    ensures NoAttribute(line[1..])
  {
    var t := Lower(line[1..]);
    FreeMeans(t, RTPMAP);
    FreeMeans(t, FMTP);
    assert forall i :: 0 <= i < |t| && t[i] == ':' ==> line[i + 1] == ':';
    forall i: nat ensures !At(t, RTPMAP, i) && !At(t, FMTP, i) {
      AtChars(t, RTPMAP, i, 8);
      AtChars(t, FMTP, i, 6);
    }
  }

  lemma ReplacedLinesAreTidy(lines: seq<string>, pt: string, lowLatency: bool)
    requires TidyLines(lines) && Digits(pt)
    ensures TidyLines(ReplaceFmtpLines(lines, FmtpHead(pt), FmtpLine(pt, lowLatency)))
  {
    FmtpLineIsTidy(pt, lowLatency);
  }

  lemma CrlfHasCr(s: string, i: nat)
    ensures At(s, CRLF, i) ==> At(s, "\r", i)
  {
    if At(s, CRLF, i) {
      assert s[i..i + 1] == s[i..i + 2][..1] == "\r";
    }
  }

  lemma TidySplitJoin(lines: seq<string>)
    requires TidyLines(lines) && lines != []
    ensures Split(Join(lines, CRLF), CRLF) == lines
  {
    forall p | p in lines ensures Free(p, CRLF) {
      FreeMeans(p, CRLF);
      FreeMeans(p, "\r");
      forall i: nat ensures !At(p, CRLF, i) {
        CrlfHasCr(p, i);
      }
    }
    SeparatorsAreBorderFree();
    SplitJoin(lines, CRLF);
  }

  // --------------------------------------------------------- the Opus parameters on lines

  /** There is no Opus, or Opus already has parameters to replace, or no line spells it the way
      the replacement looks for. */
  predicate OpusReady(lines: seq<string>) {
    OpusOf(lines).Some? ==>
      var pt := OpusOf(lines).value;
      SomeFmtp(lines, FmtpHead(pt)) || !SomeStartsWith(lines, OpusText(pt))
  }

  function InjectLines(lines: seq<string>, lowLatency: bool): seq<string> {
    match OpusOf(lines)
    case None => lines
    case Some(pt) => ReplaceFmtpLines(lines, FmtpHead(pt), FmtpLine(pt, lowLatency))
  }

  lemma NothingToReplace(lines: seq<string>, head: string, fmtp: string)
    requires !SomeFmtp(lines, head)
    ensures ReplaceFmtpLines(lines, head, fmtp) == lines
  {
    forall i | 0 <= i < |lines| ensures !IsFmtp(lines[i], head) {
      assert lines[i] in lines;
    }
  }

  lemma InjectByLine(sdp: string, lowLatency: bool)
    requires Tidy(sdp) && OpusReady(Split(sdp, CRLF))
    ensures Split(InjectOpusFmtp(sdp, lowLatency), CRLF) == InjectLines(Split(sdp, CRLF), lowLatency)
    ensures Tidy(InjectOpusFmtp(sdp, lowLatency))
  {
    var lines := Split(sdp, CRLF);
    JoinSplit(sdp, CRLF);
    FirstOpusIsOpusOf(lines);
    if OpusOf(lines).Some? {
      var pt := OpusOf(lines).value;
      var head, fmtp := FmtpHead(pt), FmtpLine(pt, lowLatency);
      OpusIsDigits(lines);
      ReplaceFmtpByLine(lines, head, fmtp);
      if SomeFmtp(lines, head) {
        ReplacedLinesAreTidy(lines, pt, lowLatency);
        TidySplitJoin(InjectLines(lines, lowLatency));
      } else {
        OpusTextIs(pt);
        AppendByLine(lines, OpusText(pt), fmtp);
        NothingToAppendTo(lines, OpusText(pt), fmtp);
        NothingToReplace(lines, head, fmtp);
      }
    }
  }

  lemma {:induction false} OpusOfUnaffected(lines: seq<string>, other: seq<string>)
    requires |lines| == |other| && forall i :: 0 <= i < |lines| ==> OpusHere(other[i]) == OpusHere(lines[i])
    ensures OpusOf(other) == OpusOf(lines)
  {
    if lines != [] {
      OpusOfUnaffected(lines[1..], other[1..]);
    }
  }

  lemma SomeFmtpUnaffected(lines: seq<string>, other: seq<string>, head: string)
    requires |lines| == |other| && forall i :: 0 <= i < |lines| ==> (IsFmtp(lines[i], head) ==> IsFmtp(other[i], head))
    ensures SomeFmtp(lines, head) ==> SomeFmtp(other, head)
  {
    if SomeFmtp(lines, head) {
      var line :| line in lines && IsFmtp(line, head);
      var i :| 0 <= i < |lines| && lines[i] == line;
      assert other[i] in other;
    }
  }

  lemma SomeStartsUnaffected(lines: seq<string>, other: seq<string>, text: string)
    requires |lines| == |other| && forall i :: 0 <= i < |lines| ==> (text <= other[i] ==> other[i] == lines[i])
    ensures SomeStartsWith(other, text) ==> SomeStartsWith(lines, text)
  {
    if SomeStartsWith(other, text) {
      var line :| line in other && text <= line;
      var i :| 0 <= i < |other| && other[i] == line;
      assert lines[i] in lines;
    }
  }

  lemma ReorderKeepsOpus(lines: seq<string>, media: string, codecs: seq<string>)
    requires IsMedia(media)
    ensures OpusOf(ReorderLines(lines, media, codecs)) == OpusOf(lines)
    ensures OpusReady(lines) ==> OpusReady(ReorderLines(lines, media, codecs))
  {
    var r := ReorderLines(lines, media, codecs);
    forall i | 0 <= i < |lines|
      ensures OpusHere(r[i]) == OpusHere(lines[i])
      ensures forall pt :: IsFmtp(lines[i], FmtpHead(pt)) ==> IsFmtp(r[i], FmtpHead(pt))
      ensures forall pt :: OpusText(pt) <= r[i] ==> r[i] == lines[i]
    {
      ReorderTouchesOneLine(lines, media, codecs, i);
      if r[i] != lines[i] {
        MLinesStartWithM(lines[i], media);
        MLinesStartWithM(r[i], media);
        NotAnRtpMap(lines[i]);
        NotAnRtpMap(r[i]);
        forall pt
          ensures !IsFmtp(lines[i], FmtpHead(pt))
          ensures !(OpusText(pt) <= r[i])
        {
          NotFmtp(lines[i], pt);
          assert OpusText(pt)[0] == 'a';
        }
      }
    }
    OpusOfUnaffected(lines, r);
    if OpusOf(lines).Some? {
      SomeFmtpUnaffected(lines, r, FmtpHead(OpusOf(lines).value));
      SomeStartsUnaffected(lines, r, OpusText(OpusOf(lines).value));
    }
  }

  lemma InjectKeepsOpus(lines: seq<string>, lowLatency: bool)
    ensures OpusOf(InjectLines(lines, lowLatency)) == OpusOf(lines)
    ensures OpusReady(lines) ==> OpusReady(InjectLines(lines, lowLatency))
  {
    if OpusOf(lines).Some? {
      var pt := OpusOf(lines).value;
      var r := InjectLines(lines, lowLatency);
      FmtpLineIsFmtp(pt, lowLatency);
      forall i | 0 <= i < |lines|
        ensures OpusHere(r[i]) == OpusHere(lines[i])
        ensures IsFmtp(lines[i], FmtpHead(pt)) ==> IsFmtp(r[i], FmtpHead(pt))
      {
        if IsFmtp(lines[i], FmtpHead(pt)) {
          FmtpHeadStarts(lines[i], pt);
          FmtpHeadStarts(r[i], pt);
          NotAnRtpMap(lines[i]);
          NotAnRtpMap(r[i]);
        }
      }
      OpusOfUnaffected(lines, r);
      if SomeFmtp(lines, FmtpHead(pt)) {
        SomeFmtpUnaffected(lines, r, FmtpHead(pt));
      } else {
        NothingToReplace(lines, FmtpHead(pt), FmtpLine(pt, lowLatency));
      }
    }
  }

  // ------------------------------------------------------------------- the pipeline

  function VideoLines(lines: seq<string>, hasVideo: bool): seq<string> {
    if hasVideo then ReorderLines(lines, "video", VIDEO_CODECS) else lines
  }

  function TransformLines(lines: seq<string>, hasVideo: bool, lowLatency: bool): seq<string> {
    VideoLines(InjectLines(ReorderLines(lines, "audio", AUDIO_CODECS), lowLatency), hasVideo)
  }

  lemma TransformByLine(sdp: string, hasVideo: bool, lowLatency: bool)
    requires Tidy(sdp) && OpusReady(Split(sdp, CRLF))
    ensures Split(TransformSdp(sdp, hasVideo, lowLatency), CRLF)
         == TransformLines(Split(sdp, CRLF), hasVideo, lowLatency)
    ensures Tidy(TransformSdp(sdp, hasVideo, lowLatency))
    ensures OpusReady(Split(TransformSdp(sdp, hasVideo, lowLatency), CRLF))
  {
    AudioAndVideoAreMedia();
    var lines := Split(sdp, CRLF);
    var audio := Reorder(sdp, "audio", AUDIO_CODECS);
    SplitReorder(sdp, "audio", AUDIO_CODECS);
    ReorderedLinesAreTidy(lines, "audio", AUDIO_CODECS);
    ReorderKeepsOpus(lines, "audio", AUDIO_CODECS);
    InjectByLine(audio, lowLatency);
    InjectKeepsOpus(Split(audio, CRLF), lowLatency);
    if hasVideo {
      var opus := InjectOpusFmtp(audio, lowLatency);
      SplitReorder(opus, "video", VIDEO_CODECS);
      ReorderedLinesAreTidy(Split(opus, CRLF), "video", VIDEO_CODECS);
      ReorderKeepsOpus(Split(opus, CRLF), "video", VIDEO_CODECS);
    }
  }

  lemma InjectIdempotent(lines: seq<string>, lowLatency: bool)
    ensures InjectLines(InjectLines(lines, lowLatency), lowLatency) == InjectLines(lines, lowLatency)
  {
    InjectKeepsOpus(lines, lowLatency);
    if OpusOf(lines).Some? {
      ReplaceFmtpIdempotent(lines, OpusOf(lines).value, lowLatency);
    }
  }

  lemma InjectCommutes(lines: seq<string>, lowLatency: bool, media: string, codecs: seq<string>)
    requires IsMedia(media)
    ensures InjectLines(ReorderLines(lines, media, codecs), lowLatency)
         == ReorderLines(InjectLines(lines, lowLatency), media, codecs)
  {
    ReorderKeepsOpus(lines, media, codecs);
    if OpusOf(lines).Some? {
      ReplaceFmtpCommutes(lines, OpusOf(lines).value, lowLatency, media, codecs);
    }
  }

  lemma VideoCommutes(lines: seq<string>, hasVideo: bool, lowLatency: bool)
    ensures ReorderLines(VideoLines(lines, hasVideo), "audio", AUDIO_CODECS)
         == VideoLines(ReorderLines(lines, "audio", AUDIO_CODECS), hasVideo)
    ensures InjectLines(VideoLines(lines, hasVideo), lowLatency) == VideoLines(InjectLines(lines, lowLatency), hasVideo)
    ensures VideoLines(VideoLines(lines, hasVideo), hasVideo) == VideoLines(lines, hasVideo)
  {
    AudioAndVideoAreMedia();
    ReordersCommute(lines, "audio", AUDIO_CODECS, "video", VIDEO_CODECS);
    InjectCommutes(lines, lowLatency, "video", VIDEO_CODECS);
    ReorderLinesIdempotent(lines, "video", VIDEO_CODECS);
  }

  /** Each stage leaves a transformed text alone. */
  lemma TransformLinesIdempotent(lines: seq<string>, hasVideo: bool, lowLatency: bool)
    ensures TransformLines(TransformLines(lines, hasVideo, lowLatency), hasVideo, lowLatency)
         == TransformLines(lines, hasVideo, lowLatency)
  {
    AudioAndVideoAreMedia();
    var a := ReorderLines(lines, "audio", AUDIO_CODECS);
    var i := InjectLines(a, lowLatency);
    var t := VideoLines(i, hasVideo);
    assert ReorderLines(i, "audio", AUDIO_CODECS) == i by {
      InjectCommutes(a, lowLatency, "audio", AUDIO_CODECS);
      ReorderLinesIdempotent(lines, "audio", AUDIO_CODECS);
    }
    assert InjectLines(i, lowLatency) == i by { InjectIdempotent(a, lowLatency); }
    VideoCommutes(i, hasVideo, lowLatency);
  }

  lemma TransformSdpIdempotent(sdp: string, hasVideo: bool, lowLatency: bool)
    requires Tidy(sdp) && OpusReady(Split(sdp, CRLF))
    ensures TransformSdp(TransformSdp(sdp, hasVideo, lowLatency), hasVideo, lowLatency)
         == TransformSdp(sdp, hasVideo, lowLatency)
  {
    var once := TransformSdp(sdp, hasVideo, lowLatency);
    TransformByLine(sdp, hasVideo, lowLatency);
    TransformByLine(once, hasVideo, lowLatency);
    TransformLinesIdempotent(Split(sdp, CRLF), hasVideo, lowLatency);
    JoinSplit(once, CRLF);
    JoinSplit(TransformSdp(once, hasVideo, lowLatency), CRLF);
  }

  /** The codec numbering survives the pipeline where no Opus line is overwritten. */
  lemma TransformKeepsRtpTable(sdp: string, hasVideo: bool, lowLatency: bool)
    requires Tidy(sdp) && OpusReady(Split(sdp, CRLF))
    ensures RtpTable(Split(TransformSdp(sdp, hasVideo, lowLatency), CRLF)) == RtpTable(Split(sdp, CRLF))
  {
    AudioAndVideoAreMedia();
    TransformByLine(sdp, hasVideo, lowLatency);
    var lines := Split(sdp, CRLF);
    var a := ReorderLines(lines, "audio", AUDIO_CODECS);
    ReorderKeepsTable(lines, "audio", AUDIO_CODECS);
    if OpusOf(a).Some? {
      ReplaceFmtpKeeps(a, OpusOf(a).value, lowLatency, "video");
    }
    ReorderKeepsTable(InjectLines(a, lowLatency), "video", VIDEO_CODECS);
  }
}
