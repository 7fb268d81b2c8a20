/** Exactly when transforming an SDP text twice is transforming it once, and when that leaves the
    payload-type table alone: for every tidy text, also when Opus lines are overwritten. */
module SdpIdempotence {
  import opened Wrappers
  import opened Text
  import opened StableSort
  import opened CodecPreference
  import opened SdpModel
  import opened SdpLines
  import opened SdpBridge
  import opened SdpAppendLines
  import opened SdpTransform
  import opened SdpAppend
  import opened SdpRest

  // -------------------------------------------------------------------- two orders

  /** A list is in order exactly when sorting it changes nothing. */
  lemma PreferredFixedIff(pref: Preference, pts: seq<string>)
    ensures Preferred(pref, pts) == pts <==> Sorted(RankAll(pref, pts))
  {
    PreferredIsTheStableSort(pref, pts, pts);
  }

  /** A line ordered by one table is in order for another exactly when its payload types are. */
  lemma SecondOrderIff(line: string, p1: Preference, p2: Preference)
    ensures ReorderLine(ReorderLine(line, p1), p2) == ReorderLine(line, p1) <==>
            (HasPayload(line) ==> Sorted(RankAll(p2, Preferred(p1, Payload(line)))))
  {
    if HasPayload(line) {
      var pts := Preferred(p1, Payload(line));
      var once := WithPayload(line, pts);
      ReorderLineIsRearranged(line, p1);
      PartsOfRearranged(line, pts);
      PreferredFixedIff(p2, pts);
      PreferredIsPermutation(p2, pts);
      var again := Preferred(p2, pts);
      PartsOfRearranged(once, again);
      if again == pts {
        assert WithPayload(once, pts) == WithPayload(line, pts);
      }
    }
  }

  // ------------------------------------------------------------------- the second pass

  /** There is no Opus; or its fmtp lines are already what they would be replaced by; or it has
      none, and no line is spelled as the appending branch looks for it. */
  predicate NothingToInject(lines: seq<string>, lowLatency: bool) {
    match OpusOf(lines)
    case None => true
    case Some(pt) =>
      AllAre(lines, pt, FmtpLine(pt, lowLatency)) &&
      (SomeFmtp(lines, FmtpHead(pt)) || !SomeStartsWith(lines, OpusText(pt)))
  }

  lemma NothingToInjectIff(lines: seq<string>, lowLatency: bool)
    ensures NothingToInject(lines, lowLatency) <==> OpusReady(lines) && InjectLines(lines, lowLatency) == lines
  {
    if OpusOf(lines).Some? {
      var pt := OpusOf(lines).value;
      var fmtp := FmtpLine(pt, lowLatency);
      var r := InjectLines(lines, lowLatency);
      if r == lines {
        forall l | l in lines && IsFmtp(l, FmtpHead(pt)) ensures l == fmtp {
          var i :| 0 <= i < |lines| && lines[i] == l;
          assert r[i] == fmtp;
        }
      }
      if AllAre(lines, pt, fmtp) {
        forall i | 0 <= i < |lines| ensures r[i] == lines[i] {
          assert lines[i] in lines;
        }
      }
    }
  }

  /** Each stage would leave the lines alone. */
  predicate Settled(lines: seq<string>, lowLatency: bool) {
    ReorderLines(lines, "audio", AUDIO_CODECS) == lines && NothingToInject(lines, lowLatency)
  }

  /** On lines whose video order is settled, and to which nothing would be appended. */
  lemma ReadyFixedIff(lines: seq<string>, hasVideo: bool, lowLatency: bool)
    requires VideoLines(lines, hasVideo) == lines
    ensures TransformLines(lines, hasVideo, lowLatency) == lines <==>
            ReorderLines(lines, "audio", AUDIO_CODECS) == lines && InjectLines(lines, lowLatency) == lines
  {
    AudioAndVideoAreMedia();
    var r, i := ReorderLines(lines, "audio", AUDIO_CODECS), InjectLines(lines, lowLatency);
    InjectCommutes(lines, lowLatency, "audio", AUDIO_CODECS);
    VideoCommutes(lines, hasVideo, lowLatency);
    VideoCommutes(r, hasVideo, lowLatency);
    var both := InjectLines(r, lowLatency);
    assert TransformLines(lines, hasVideo, lowLatency) == both == ReorderLines(i, "audio", AUDIO_CODECS);
    ReorderLinesIdempotent(i, "audio", AUDIO_CODECS);
    InjectIdempotent(r, lowLatency);
  }

  lemma {:induction false} AppendingLengthens(lines: seq<string>, text: string, fmtp: string)
    ensures |AppendLines(lines, text, fmtp)| >= |lines|
    ensures SomeStartsWith(lines, text) ==> |AppendLines(lines, text, fmtp)| > |lines|
  {
    if lines != [] {
      AppendingLengthens(lines[1..], text, fmtp);
      assert lines == [lines[0]] + lines[1..];
    }
  }

  /** The lines of a tidy text to whose Opus lines something is appended. */
  function FirstPass(lines: seq<string>, pt: string, hasVideo: bool, lowLatency: bool): seq<string> {
    VideoLines(AppendLines(ReorderLines(lines, "audio", AUDIO_CODECS), OpusText(pt), FmtpLine(pt, lowLatency)), hasVideo)
  }

  lemma NoZero()
    ensures '0' !in RTPMAP && '0' !in FMTP
  {
  }

  lemma BitRateEndsInZero(lowLatency: bool)
    ensures BitRate(lowLatency) != "" && BitRate(lowLatency)[|BitRate(lowLatency)| - 1] == '0'
  {
  }

  lemma EndsWith(start: string, end: string, c: char)
    requires end != "" && end[|end| - 1] == c
    ensures start + end != "" && (start + end)[|start + end| - 1] == c
  {
  }

  lemma FmtpEndsInZero(pt: string, lowLatency: bool)
    ensures FmtpLine(pt, lowLatency)[|FmtpLine(pt, lowLatency)| - 1] == '0' && |FmtpLine(pt, lowLatency)| > 1
  {
    BitRateEndsInZero(lowLatency);
    var start := "useinbandfec=1;" + UseDtx(lowLatency) + MinPTime(lowLatency);
    EndsWith(start, BitRate(lowLatency), '0');
    EndsWith(FmtpHead(pt), OpusParameters(lowLatency), '0');
    HeadIsLong(pt, OpusParameters(lowLatency));
  }

  lemma HeadIsLong(pt: string, more: string)
    ensures |FmtpHead(pt) + more| > 1
  {
  }

  lemma NoAttributeAround(x: string, y: string)
    requires NoAttribute(x) && NoAttribute(y)
    ensures NoAttribute(x + ['0'] + y)
  {
    NoZero();
    LowerConcat(x, ['0']);
    LowerConcat(x + ['0'], y);
    assert Lower(['0']) == ['0'];
    FreeAround(Lower(x), '0', Lower(y), RTPMAP);
    FreeAround(Lower(x), '0', Lower(y), FMTP);
  }

  lemma BreaksConcat(x: string, y: string)
    requires NoBreak(x) && NoBreak(y)
    ensures NoBreak(x + y)
  {
    NoBreakChars(x);
    NoBreakChars(y);
    forall i | 0 <= i < |x + y| ensures !IsBreak((x + y)[i]) {
      if i < |x| { assert x[i] in x; } else { assert y[i - |x|] in y; }
    }
    NoBreaksAnywhere(x + y);
  }

  /** A line that ends in a zero, and what follows it, have no attribute across the seam. */
  lemma TailedIsTidy(line: string, tail: string)
    requires TidyLine(line) && |line| > 1 && line[|line| - 1] == '0' && NoBreak(tail) && NoAttribute(tail)
    ensures TidyLine(line + tail)
  {
    var x := line[1..|line| - 1];
    assert x == line[1..][..|x|];
    NoAttributeTo(line[1..], |x|);
    NoAttributeAround(x, tail);
    assert (line + tail)[1..] == x + ['0'] + tail;
    BreaksConcat(line, tail);
  }

  lemma FmtpWithTailIsTidy(pt: string, lowLatency: bool, tail: string)
    requires Digits(pt) && NoBreak(tail) && NoAttribute(tail)
    ensures TidyLine(FmtpLine(pt, lowLatency) + tail)
  {
    FmtpLineIsTidy(pt, lowLatency);
    FmtpEndsInZero(pt, lowLatency);
    TailedIsTidy(FmtpLine(pt, lowLatency), tail);
  }

  lemma NoAttributeTo(s: string, k: nat)
    requires NoAttribute(s) && k <= |s|
    ensures NoAttribute(s[..k])
  {
    assert Lower(s[..k]) == Lower(s)[0..k];
    FreeSlice(Lower(s), RTPMAP, 0, k);
    FreeSlice(Lower(s), FMTP, 0, k);
  }

  lemma NoBreakFrom(s: string, k: nat)
    requires NoBreak(s) && k <= |s|
    ensures NoBreak(s[k..])
  {
    assert s[k..] == s[k..|s|];
    FreeSlice(s, "\r", k, |s|);
    FreeSlice(s, "\n", k, |s|);
  }

  lemma {:induction false} AppendedAreTidy(lines: seq<string>, pt: string, lowLatency: bool)
    requires TidyLines(lines) && Digits(pt)
    ensures TidyLines(AppendLines(lines, OpusText(pt), FmtpLine(pt, lowLatency)))
  {
    if lines != [] {
      var line, text, fmtp := lines[0], OpusText(pt), FmtpLine(pt, lowLatency);
      assert line in lines && forall l :: l in lines[1..] ==> l in lines;
      AppendedAreTidy(lines[1..], pt, lowLatency);
      if text <= line {
        EqualsOnlyAtOne("$1");
        AfterTextNoAttribute(line, text);
        NoBreakFrom(line, |text|);
        FmtpWithTailIsTidy(pt, lowLatency, line[|text|..]);
      }
    }
  }

  /** What is done to a tidy text to which something is appended. */
  lemma InjectAppends(sdp: string, pt: string, lowLatency: bool)
    requires Tidy(sdp) && OpusOf(Split(sdp, CRLF)) == Some(pt) && !OpusReady(Split(sdp, CRLF))
    ensures Split(InjectOpusFmtp(sdp, lowLatency), CRLF) ==
            AppendLines(Split(sdp, CRLF), OpusText(pt), FmtpLine(pt, lowLatency))
    ensures Tidy(InjectOpusFmtp(sdp, lowLatency))
  {
    var lines, text, fmtp := Split(sdp, CRLF), OpusText(pt), FmtpLine(pt, lowLatency);
    JoinSplit(sdp, CRLF);
    FirstOpusIsOpusOf(lines);
    OpusIsDigits(lines);
    OpusTextIs(pt);
    ReplaceFmtpByLine(lines, FmtpHead(pt), fmtp);
    AppendByLine(lines, text, fmtp);
    AppendedLinesSplit(lines, pt, lowLatency);
    AppendedAreTidy(lines, pt, lowLatency);
  }

  lemma ReorderKeepsUnready(lines: seq<string>, media: string, codecs: seq<string>)
    requires IsMedia(media)
    ensures OpusReady(ReorderLines(lines, media, codecs)) <==> OpusReady(lines)
  {
    ReorderKeepsOpus(lines, media, codecs);
    ReorderSameAttributes(lines, media, codecs);
    if OpusOf(lines).Some? {
      AttributesDecide(ReorderLines(lines, media, codecs), lines, OpusOf(lines).value, "");
    }
  }

  lemma FirstPassByLine(sdp: string, hasVideo: bool, lowLatency: bool, pt: string)
    requires Tidy(sdp) && OpusOf(Split(sdp, CRLF)) == Some(pt) && !OpusReady(Split(sdp, CRLF))
    ensures Split(TransformSdp(sdp, hasVideo, lowLatency), CRLF) == FirstPass(Split(sdp, CRLF), pt, hasVideo, lowLatency)
    ensures Tidy(TransformSdp(sdp, hasVideo, lowLatency))
  {
    AudioAndVideoAreMedia();
    var lines, audio := Split(sdp, CRLF), Reorder(sdp, "audio", AUDIO_CODECS);
    SplitReorder(sdp, "audio", AUDIO_CODECS);
    ReorderedLinesAreTidy(lines, "audio", AUDIO_CODECS);
    ReorderKeepsOpus(lines, "audio", AUDIO_CODECS);
    ReorderKeepsUnready(lines, "audio", AUDIO_CODECS);
    InjectAppends(audio, pt, lowLatency);
    if hasVideo {
      var opus := InjectOpusFmtp(audio, lowLatency);
      SplitReorder(opus, "video", VIDEO_CODECS);
      ReorderedLinesAreTidy(Split(opus, CRLF), "video", VIDEO_CODECS);
    }
  }

  lemma SameLinesSameText(s: string, t: string)
    ensures s == t <==> Split(s, CRLF) == Split(t, CRLF)
  {
    JoinSplit(s, CRLF);
    JoinSplit(t, CRLF);
  }

  lemma VideoLength(lines: seq<string>, hasVideo: bool)
    ensures |VideoLines(lines, hasVideo)| == |lines|
  {
  }

  /** A text to which something is appended grows. */
  lemma UnreadyIsNotFixed(sdp: string, hasVideo: bool, lowLatency: bool)
    requires Tidy(sdp) && !OpusReady(Split(sdp, CRLF))
    ensures TransformSdp(sdp, hasVideo, lowLatency) != sdp
  {
    var lines := Split(sdp, CRLF);
    var pt := OpusOf(lines).value;
    var audio := ReorderLines(lines, "audio", AUDIO_CODECS);
    SameLinesSameText(TransformSdp(sdp, hasVideo, lowLatency), sdp);
    FirstPassByLine(sdp, hasVideo, lowLatency, pt);
    AudioAndVideoAreMedia();
    ReorderSameAttributes(lines, "audio", AUDIO_CODECS);
    AttributesDecide(audio, lines, pt, "");
    AppendingLengthens(audio, OpusText(pt), FmtpLine(pt, lowLatency));
    VideoLength(AppendLines(audio, OpusText(pt), FmtpLine(pt, lowLatency)), hasVideo);
  }

  lemma SecondPassFixedIff(sdp: string, hasVideo: bool, lowLatency: bool)
    requires Tidy(sdp) && VideoLines(Split(sdp, CRLF), hasVideo) == Split(sdp, CRLF)
    ensures TransformSdp(sdp, hasVideo, lowLatency) == sdp <==> Settled(Split(sdp, CRLF), lowLatency)
  {
    var lines := Split(sdp, CRLF);
    NothingToInjectIff(lines, lowLatency);
    if OpusReady(lines) {
      SameLinesSameText(TransformSdp(sdp, hasVideo, lowLatency), sdp);
      TransformByLine(sdp, hasVideo, lowLatency);
      ReadyFixedIff(lines, hasVideo, lowLatency);
    } else {
      UnreadyIsNotFixed(sdp, hasVideo, lowLatency);
    }
  }

  // -------------------------------------------------------------- what the first pass leaves

  /** The payload types of the first m=audio line, if it has any. */
  function AudioPayload(lines: seq<string>): seq<string> {
    match FirstWith(lines, MediaPrefix("audio"))
    case None => []
    case Some(line) => if HasPayload(line) then Payload(line) else []
  }

  function AudioPreference(lines: seq<string>): Preference {
    Preference(RtpTable(lines), AUDIO_CODECS)
  }

  /** The audio payload types, sorted under the whole table, are also in order under the table
      of the lines that are not overwritten. */
  ghost predicate AudioStaysInOrder(lines: seq<string>, rest: seq<string>) {
    Sorted(RankAll(AudioPreference(rest), Preferred(AudioPreference(lines), AudioPayload(lines))))
  }

  /** The lines that are not overwritten leave the injection nothing to do, and if Opus still
      has this payload type among them, then no overwritten line had anything after the text. */
  predicate NothingLeftToInject(lines: seq<string>, rest: seq<string>, pt: string, lowLatency: bool) {
    && NothingToInject(rest, lowLatency)
    && (OpusOf(rest) == Some(pt) ==> forall l :: l in lines && OpusText(pt) <= l ==> l == OpusText(pt))
  }

  lemma NoPayloadNoOrder(p1: Preference, p2: Preference)
    ensures Sorted(RankAll(p2, Preferred(p1, [])))
  {
    PreferredIsPermutation(p1, []);
    assert |multiset(Preferred(p1, []))| == 0;
  }

  lemma FirstPassKeeps(lines: seq<string>, pt: string, hasVideo: bool, lowLatency: bool)
    ensures var c := FirstPass(lines, pt, hasVideo, lowLatency);
            RtpTable(c) == RtpTable(Rest(lines, OpusText(pt))) && OpusOf(c) == OpusOf(Rest(lines, OpusText(pt)))
  {
    var text, fmtp := OpusText(pt), FmtpLine(pt, lowLatency);
    var a := ReorderLines(lines, "audio", AUDIO_CODECS);
    var b := AppendLines(a, text, fmtp);
    AudioAndVideoAreMedia();
    FmtpHeadStarts(fmtp, pt);
    RestOfReordered(lines, "audio", AUDIO_CODECS, text);
    TableOfAppended(a, text, fmtp);
    OpusOfAppended(a, text, fmtp);
    ReorderKeepsTable(b, "video", VIDEO_CODECS);
    ReorderKeepsOpus(b, "video", VIDEO_CODECS);
  }

  lemma AudioOfFirstPass(lines: seq<string>, pt: string, hasVideo: bool, lowLatency: bool)
    ensures FirstWith(FirstPass(lines, pt, hasVideo, lowLatency), MediaPrefix("audio")) ==
            match FirstWith(lines, MediaPrefix("audio"))
            case None => None
            case Some(l) => Some(ReorderLine(l, AudioPreference(lines)))
  {
    var text, fmtp := OpusText(pt), FmtpLine(pt, lowLatency);
    var a := ReorderLines(lines, "audio", AUDIO_CODECS);
    AudioAndVideoAreMedia();
    FmtpHeadStarts(fmtp, pt);
    FirstWithReordered(lines, "audio", AUDIO_CODECS);
    FirstWithAppended(a, text, fmtp, MediaPrefix("audio"));
    FirstWithOther(AppendLines(a, text, fmtp), "video", VIDEO_CODECS, "audio");
  }

  /** The second pass finds the audio line in order exactly when that order survives the loss
      of the overwritten lines. */
  lemma AudioFixedIff(lines: seq<string>, pt: string, hasVideo: bool, lowLatency: bool)
    ensures var c := FirstPass(lines, pt, hasVideo, lowLatency);
            ReorderLines(c, "audio", AUDIO_CODECS) == c <==> AudioStaysInOrder(lines, Rest(lines, OpusText(pt)))
  {
    var c, rest := FirstPass(lines, pt, hasVideo, lowLatency), Rest(lines, OpusText(pt));
    var p1, p2 := AudioPreference(lines), AudioPreference(rest);
    FirstPassKeeps(lines, pt, hasVideo, lowLatency);
    AudioOfFirstPass(lines, pt, hasVideo, lowLatency);
    ReorderFixedIff(c, "audio", AUDIO_CODECS);
    NoPayloadNoOrder(p1, p2);
    if FirstWith(lines, MediaPrefix("audio")).Some? {
      SecondOrderIff(FirstWith(lines, MediaPrefix("audio")).value, p1, p2);
    }
  }

  lemma AttributesOfFirstPass(lines: seq<string>, pt: string, hasVideo: bool, lowLatency: bool)
    ensures SameAttributes(FirstPass(lines, pt, hasVideo, lowLatency),
                           AppendLines(lines, OpusText(pt), FmtpLine(pt, lowLatency)))
  {
    var text, fmtp := OpusText(pt), FmtpLine(pt, lowLatency);
    var a := ReorderLines(lines, "audio", AUDIO_CODECS);
    AudioAndVideoAreMedia();
    ReorderSameAttributes(lines, "audio", AUDIO_CODECS);
    SameAttributesSameAppended(a, lines, text, fmtp);
    ReorderSameAttributes(AppendLines(a, text, fmtp), "video", VIDEO_CODECS);
  }

  // ------------------------------------------------------------------ the second injection

  /** The digits of a payload type end at the space behind them. */
  lemma SameDigits(p: string, q: string, more: string)
    requires Digits(p) && Digits(q)
    ensures q + SPACE <= p + (SPACE + more) ==> p == q
  {
    var s := p + (SPACE + more);
    DigitsThenSpace(p, SPACE + more);
    assert p == s[..|p|];
    if q + SPACE <= s {
      var after := s[|q + SPACE|..];
      assert s == q + (SPACE + after);
      DigitsThenSpace(q, SPACE + after);
      assert q == s[..|q|];
    }
  }

  lemma CutPrefix(x: string, y: string, z: string)
    ensures x + y <= x + z <==> y <= z
  {
    if x + y <= x + z {
      assert y == (x + y)[|x|..] && z == (x + z)[|x|..];
      assert x + y == (x + z)[..|x + y|];
      assert y == z[..|y|];
    }
    if y <= z {
      assert x + z == x + y + z[|y|..];
    }
  }

  lemma HeadParts(pt: string, more: string)
    ensures FmtpHead(pt) + more == FMTP + (pt + (SPACE + more))
    ensures FmtpHead(pt) == FMTP + (pt + SPACE)
  {
  }

  /** The parameters of one payload type are not those of another, nor its Opus line. */
  lemma TailedIsFor(p: string, q: string, more: string)
    requires Digits(p) && Digits(q)
    ensures FmtpHead(q) <= FmtpHead(p) + more ==> p == q
    ensures !(OpusText(q) <= FmtpHead(p) + more)
  {
    HeadParts(p, more);
    HeadParts(q, more);
    CutPrefix(FMTP, q + SPACE, p + (SPACE + more));
    SameDigits(p, q, more);
    assert OpusText(q)[2] == 'r' && (FmtpHead(p) + more)[2] == 'f';
  }

  lemma AllTailedIsFor(lines: seq<string>, p: string, q: string, lowLatency: bool)
    requires Digits(p) && Digits(q)
    ensures forall l | IsTailed(lines, OpusText(p), FmtpLine(p, lowLatency), l) ::
              (FmtpHead(q) <= l ==> p == q) && !(OpusText(q) <= l)
  {
    forall l | IsTailed(lines, OpusText(p), FmtpLine(p, lowLatency), l)
      ensures (FmtpHead(q) <= l ==> p == q) && !(OpusText(q) <= l)
    {
      var line :| line in lines && OpusText(p) <= line && l == FmtpLine(p, lowLatency) + line[|OpusText(p)|..];
      Associate(FmtpHead(p), OpusParameters(lowLatency), line[|OpusText(p)|..]);
      TailedIsFor(p, q, OpusParameters(lowLatency) + line[|OpusText(p)|..]);
    }
  }

  /** Another payload type than the overwritten one finds in the appended text what it finds in
      the rest. */
  lemma OtherOpusUnaffected(lines: seq<string>, p: string, q: string, lowLatency: bool)
    requires Digits(p) && Digits(q) && p != q
    ensures var b, rest := AppendLines(lines, OpusText(p), FmtpLine(p, lowLatency)), Rest(lines, OpusText(p));
            && (SomeFmtp(b, FmtpHead(q)) <==> SomeFmtp(rest, FmtpHead(q)))
            && (SomeStartsWith(b, OpusText(q)) <==> SomeStartsWith(rest, OpusText(q)))
            && (AllAre(b, q, FmtpLine(q, lowLatency)) <==> AllAre(rest, q, FmtpLine(q, lowLatency)))
  {
    var b, rest := AppendLines(lines, OpusText(p), FmtpLine(p, lowLatency)), Rest(lines, OpusText(p));
    AttributesOfAppended(lines, OpusText(p), FmtpLine(p, lowLatency));
    AllTailedIsFor(lines, p, q, lowLatency);
    assert FmtpHead(q)[0] == 'a' && OpusText(q)[0] == 'a';
    forall l | IsFmtp(l, FmtpHead(q)) || OpusText(q) <= l ensures l in b <==> l in rest {
      assert IsAttribute(l);
    }
  }

  lemma NoTail(fmtp: string, text: string, line: string)
    requires text <= line
    ensures fmtp + line[|text|..] == fmtp <==> line == text
  {
    assert line == text + line[|text|..];
  }

  /** The overwritten payload type has its parameters, which are right where nothing follows. */
  lemma OwnParameters(lines: seq<string>, pt: string, lowLatency: bool)
    requires Digits(pt) && !SomeFmtp(lines, FmtpHead(pt)) && SomeStartsWith(lines, OpusText(pt))
    ensures var b, fmtp := AppendLines(lines, OpusText(pt), FmtpLine(pt, lowLatency)), FmtpLine(pt, lowLatency);
            && SomeFmtp(b, FmtpHead(pt))
            && (AllAre(b, pt, fmtp) <==> forall l :: l in lines && OpusText(pt) <= l ==> l == OpusText(pt))
  {
    var text, fmtp := OpusText(pt), FmtpLine(pt, lowLatency);
    var b := AppendLines(lines, text, fmtp);
    forall l | l in lines && text <= l ensures (fmtp + l[|text|..] in b) && IsFmtp(fmtp + l[|text|..], FmtpHead(pt)) {
      FmtpLineIsFmtp(pt, lowLatency);
      FmtpHeadStarts(fmtp, pt);
      StartKept(FmtpHead(pt), fmtp, l[|text|..]);
      assert IsTailed(lines, text, fmtp, fmtp + l[|text|..]);
      AppendedMembers(lines, text, fmtp, fmtp + l[|text|..]);
    }
    forall l | l in b && IsFmtp(l, FmtpHead(pt)) ensures IsTailed(lines, text, fmtp, l) {
      FmtpHeadStarts(l, pt);
      AppendedMembers(lines, text, fmtp, l);
      RestMembers(lines, text, l);
    }
    forall l | l in lines && text <= l ensures fmtp + l[|text|..] == fmtp <==> l == text {
      NoTail(fmtp, text, l);
    }
  }

  lemma StartKept(head: string, line: string, tail: string)
    requires IsFmtp(line, head)
    ensures IsFmtp(line + tail, head)
  {
  }

  lemma {:induction false} RestHasNone(lines: seq<string>, text: string)
    ensures !SomeStartsWith(Rest(lines, text), text)
    ensures forall head :: SomeFmtp(Rest(lines, text), head) ==> SomeFmtp(lines, head)
  {
    forall l ensures l in Rest(lines, text) <==> l in lines && !(text <= l) {
      RestMembers(lines, text, l);
    }
  }

  lemma InjectionIdleIff(lines: seq<string>, pt: string, hasVideo: bool, lowLatency: bool)
    requires OpusOf(lines) == Some(pt) && !OpusReady(lines)
    ensures NothingToInject(FirstPass(lines, pt, hasVideo, lowLatency), lowLatency) <==>
            NothingLeftToInject(lines, Rest(lines, OpusText(pt)), pt, lowLatency)
  {
    var c, rest := FirstPass(lines, pt, hasVideo, lowLatency), Rest(lines, OpusText(pt));
    var b := AppendLines(lines, OpusText(pt), FmtpLine(pt, lowLatency));
    FirstPassKeeps(lines, pt, hasVideo, lowLatency);
    OpusIsDigits(lines);
    if OpusOf(rest).Some? {
      var q := OpusOf(rest).value;
      OpusIsDigits(rest);
      AttributesOfFirstPass(lines, pt, hasVideo, lowLatency);
      AttributesDecide(c, b, q, FmtpLine(q, lowLatency));
      RestHasNone(lines, OpusText(pt));
      if q == pt {
        OwnParameters(lines, pt, lowLatency);
      } else {
        OtherOpusUnaffected(lines, pt, q, lowLatency);
      }
    }
  }

  // ------------------------------------------------------------------------ main results

  /** The first pass leaves nothing to the second, when it overwrites Opus lines. */
  ghost predicate ComesToRest(lines: seq<string>, pt: string, lowLatency: bool) {
    var rest := Rest(lines, OpusText(pt));
    AudioStaysInOrder(lines, rest) && NothingLeftToInject(lines, rest, pt, lowLatency)
  }

  /** For every tidy text: transforming it twice is transforming it once if and only if no Opus
      line is overwritten, or the overwritten lines are missed by neither the audio order nor
      the injection. */
  lemma TransformTwiceIsOnceIff(sdp: string, hasVideo: bool, lowLatency: bool)
    requires Tidy(sdp)
    ensures var lines, once := Split(sdp, CRLF), TransformSdp(sdp, hasVideo, lowLatency);
            TransformSdp(once, hasVideo, lowLatency) == once <==>
            OpusReady(lines) || ComesToRest(lines, OpusOf(lines).value, lowLatency)
  {
    var lines := Split(sdp, CRLF);
    if OpusReady(lines) {
      TransformSdpIdempotent(sdp, hasVideo, lowLatency);
    } else {
      var pt := OpusOf(lines).value;
      var a := ReorderLines(lines, "audio", AUDIO_CODECS);
      FirstPassByLine(sdp, hasVideo, lowLatency, pt);
      VideoCommutes(AppendLines(a, OpusText(pt), FmtpLine(pt, lowLatency)), hasVideo, lowLatency);
      SecondPassFixedIff(TransformSdp(sdp, hasVideo, lowLatency), hasVideo, lowLatency);
      AudioFixedIff(lines, pt, hasVideo, lowLatency);
      InjectionIdleIff(lines, pt, hasVideo, lowLatency);
    }
  }

  // -------------------------------------------------------------------- the table survives

  /** What a table says of one payload type. */
  function Lookup(table: map<string, string>, pt: string): Option<string> {
    if pt in table then Some(table[pt]) else None
  }

  lemma OpusTextNumbers(line: string, pt: string)
    requires Digits(pt) && OpusText(pt) <= line
    ensures ParseRtpMap(line).Some? ==> ParseRtpMap(line).value.0 == pt
  {
    var tail, rest := line[|OpusText(pt)|..], line[|RTPMAP|..];
    assert line == OpusText(pt) + tail && rest == pt + (OPUS + tail);
    LiteralsAreLower();
    DigitsThenSpace(pt, OPUS + tail);
    assert rest[..|pt|] == pt;
  }

  /** The overwritten lines number one payload type only. */
  lemma {:induction false} TablesAgreeElsewhere(lines: seq<string>, pt: string, q: string)
    requires Digits(pt) && q != pt
    ensures Lookup(RtpTable(Rest(lines, OpusText(pt))), q) == Lookup(RtpTable(lines), q)
  {
    if lines != [] {
      var line, more := lines[0], lines[1..];
      TablesAgreeElsewhere(more, pt, q);
      assert lines == [line] + more;
      TableConcat([line], more);
      TableOfOne(line);
      if OpusText(pt) <= line {
        OpusTextNumbers(line, pt);
      } else {
        TableConcat([line], Rest(more, OpusText(pt)));
      }
    }
  }

  lemma SameLookupsSameTable(t1: map<string, string>, t2: map<string, string>)
    requires forall q :: Lookup(t1, q) == Lookup(t2, q)
    ensures t1 == t2
  {
    forall q ensures q in t1 <==> q in t2 {
      assert Lookup(t1, q) == Lookup(t2, q);
    }
    forall q | q in t1 ensures t1[q] == t2[q] {
      assert Lookup(t1, q) == Lookup(t2, q);
    }
  }

  /** For every tidy text: the codec numbering survives the pipeline if and only if no Opus
      line is overwritten, or the other lines give that payload type the same codec. */
  lemma TransformKeepsRtpTableIff(sdp: string, hasVideo: bool, lowLatency: bool)
    requires Tidy(sdp)
    ensures var lines := Split(sdp, CRLF);
            RtpTable(Split(TransformSdp(sdp, hasVideo, lowLatency), CRLF)) == RtpTable(lines) <==>
            OpusReady(lines) ||
            var pt := OpusOf(lines).value;
            Lookup(RtpTable(Rest(lines, OpusText(pt))), pt) == Lookup(RtpTable(lines), pt)
  {
    var lines := Split(sdp, CRLF);
    if OpusReady(lines) {
      TransformKeepsRtpTable(sdp, hasVideo, lowLatency);
    } else {
      var pt := OpusOf(lines).value;
      var rest := Rest(lines, OpusText(pt));
      OpusIsDigits(lines);
      FirstPassByLine(sdp, hasVideo, lowLatency, pt);
      FirstPassKeeps(lines, pt, hasVideo, lowLatency);
      if Lookup(RtpTable(rest), pt) == Lookup(RtpTable(lines), pt) {
        forall q ensures Lookup(RtpTable(rest), q) == Lookup(RtpTable(lines), q) {
          if q != pt { TablesAgreeElsewhere(lines, pt, q); }
        }
        SameLookupsSameTable(RtpTable(rest), RtpTable(lines));
      }
    }
  }
}
