/** Whole offers as they come out: Opus before PCMU, VP9 before VP8, the parameters of Opus as
    they are written. */
module SdpOffers {
  import opened Wrappers
  import opened Text
  import opened CodecPreference
  import opened CodecNames
  import opened SdpModel
  import opened SdpLines
  import opened SdpBridge
  import opened SdpAppendLines
  import opened SdpTransform
  import opened SdpAppend
  import opened SdpRest
  import opened SdpSamples
  import opened SdpResult
  import opened PreferCodec
  import opened SdpSearch

  // ------------------------------------------------------------------- tables of few lines

  lemma TableOfThree(m: string, x: string, y: string, p: string, c: string, q: string, d: string)
    requires ParseRtpMap(m) == None && ParseRtpMap(x) == Some((p, c)) && ParseRtpMap(y) == Some((q, d))
    ensures RtpTable([m, x, y]) == map[p := c][q := d]
  {
    TableOfOne(m);
    TableOfOne(x);
    TableOfOne(y);
    TableConcat([m], [x]);
    TableConcat([m] + [x], [y]);
    assert [m, x, y] == [m] + [x] + [y];
  }

  lemma TableOfFour(m: string, x: string, y: string, f: string, p: string, c: string, q: string, d: string)
    requires ParseRtpMap(m) == None && ParseRtpMap(x) == Some((p, c)) && ParseRtpMap(y) == Some((q, d))
    requires ParseRtpMap(f) == None
    ensures RtpTable([m, x, y, f]) == map[p := c][q := d]
  {
    TableOfThree(m, x, y, p, c, q, d);
    TableOfOne(f);
    TableConcat([m, x, y], [f]);
    assert [m, x, y, f] == [m, x, y] + [f];
  }

  // --------------------------------------------------------------------------- the lines

  function Vp8Line(pt: string): string {
    CodecLine(pt, "VP8/90000")
  }

  function Vp9Line(pt: string): string {
    CodecLine(pt, "VP9/90000")
  }

  ghost predicate PlainCodec(codec: string) {
    codec != "" && forall c :: c in codec ==> c != '=' && !IsLineEnd(c) && !IsBreak(c)
  }

  lemma CodecLineIs(pt: string, codec: string, low: string)
    requires IsPt(pt) && PlainCodec(codec) && Lower(codec) == low
    ensures ParseRtpMap(CodecLine(pt, codec)) == Some((pt, low)) && TidyLine(CodecLine(pt, codec))
  {
    ParsesAs(pt, codec);
    CodecLineIsTidy(pt, codec);
  }

  lemma VpArePlain()
    ensures PlainCodec("VP8/90000") && PlainCodec("VP9/90000")
  {
  }

  lemma Vp8LineIs(p: string)
    requires IsPt(p)
    ensures ParseRtpMap(Vp8Line(p)) == Some((p, "vp8/90000")) && TidyLine(Vp8Line(p))
  {
    Vp8InLower();
    VpArePlain();
    CodecLineIs(p, "VP8/90000", "vp8/90000");
  }

  lemma Vp9LineIs(q: string)
    requires IsPt(q)
    ensures ParseRtpMap(Vp9Line(q)) == Some((q, "vp9/90000")) && TidyLine(Vp9Line(q))
  {
    Vp9InLower();
    VpArePlain();
    CodecLineIs(q, "VP9/90000", "vp9/90000");
  }

  /** Parameters as a browser may write them. */
  function OldParameters(pt: string): string {
    "a=fmtp:" + pt + " " + "minptime=10"
  }

  lemma OldParametersAreTidy(pt: string)
    requires IsPt(pt)
    ensures TidyLine(OldParameters(pt)) && FMTP <= OldParameters(pt)
  {
    var line, tail := OldParameters(pt), " minptime=10";
    assert line == FMTP + pt + tail;
    forall i | 0 <= i < |line| ensures (line[i] == ':' ==> i == 6) && !IsBreak(line[i]) {
      if i < |FMTP| {
        assert line[i] == FMTP[i];
      } else if i < |FMTP| + |pt| {
        assert line[i] == pt[i - |FMTP|] && pt[i - |FMTP|] in pt;
      } else {
        assert line[i] == tail[i - |FMTP| - |pt|];
      }
    }
    NoBreaksAnywhere(line);
    ColonOnlyAtSix(line);
  }

  function AudioPart(a: string, b: string): seq<string> {
    [AudioLine(a, b), PcmuLine(a), OpusText(b), OldParameters(b)]
  }

  function VideoPart(p: string, q: string): seq<string> {
    [VideoLine(p, q), Vp8Line(p), Vp9Line(q)]
  }

  /** Audio as PCMU and Opus, video as VP8 and VP9, in this order. */
  function FullOffer(a: string, b: string, p: string, q: string): seq<string> {
    AudioPart(a, b) + VideoPart(p, q)
  }

  ghost predicate FourPts(a: string, b: string, p: string, q: string) {
    IsPt(a) && IsPt(b) && IsPt(p) && IsPt(q) && a != b && a != p && a != q && b != p && b != q && p != q
  }

  lemma AudioPartIs(a: string, b: string)
    requires IsPt(a) && IsPt(b)
    ensures TidyLines(AudioPart(a, b)) && RtpTable(AudioPart(a, b)) == map[a := "pcmu/8000"][b := "opus/48000/2"]
  {
    MLineIsTidy("m=audio", a, b);
    PcmuLineIs(a);
    OpusTextIsTidy(b);
    OldParametersAreTidy(b);
    AudioStarts(a, b);
    NotAnRtpMap(AudioLine(a, b));
    NotAnRtpMap(OldParameters(b));
    CodecLines(a, b);
    TableOfFour(AudioLine(a, b), PcmuLine(a), OpusText(b), OldParameters(b), a, "pcmu/8000", b, "opus/48000/2");
  }

  lemma VideoPartIs(p: string, q: string)
    requires IsPt(p) && IsPt(q)
    ensures TidyLines(VideoPart(p, q)) && RtpTable(VideoPart(p, q)) == map[p := "vp8/90000"][q := "vp9/90000"]
  {
    MLineIsTidy("m=video", p, q);
    VideoStarts(p, q);
    NotAnRtpMap(VideoLine(p, q));
    Vp8LineIs(p);
    Vp9LineIs(q);
    TableOfThree(VideoLine(p, q), Vp8Line(p), Vp9Line(q), p, "vp8/90000", q, "vp9/90000");
  }

  lemma OfferTable(a: string, b: string, p: string, q: string)
    requires FourPts(a, b, p, q)
    ensures TidyLines(FullOffer(a, b, p, q))
    ensures var table := RtpTable(FullOffer(a, b, p, q));
            && a in table && table[a] == "pcmu/8000" && b in table && table[b] == "opus/48000/2"
            && p in table && table[p] == "vp8/90000" && q in table && table[q] == "vp9/90000"
  {
    AudioPartIs(a, b);
    VideoPartIs(p, q);
    TableConcat(AudioPart(a, b), VideoPart(p, q));
  }

  lemma {:induction false} OpusOfFirst(xs: seq<string>, ys: seq<string>)
    requires OpusOf(xs).Some?
    ensures OpusOf(xs + ys) == OpusOf(xs)
  {
    assert (xs + ys)[1..] == xs[1..] + ys;
    if OpusHere(xs[0]).None? {
      OpusOfFirst(xs[1..], ys);
    }
  }

  lemma OpusInAudioPart(a: string, b: string)
    requires IsPt(a) && IsPt(b)
    ensures OpusOf(AudioPart(a, b)) == Some(b)
  {
    AudioStarts(a, b);
    NotAnRtpMap(AudioLine(a, b));
    PcmuLineIs(a);
    OpusTextIsOpus(b);
    OpusNext(AudioLine(a, b), [PcmuLine(a), OpusText(b), OldParameters(b)]);
    OpusNext(PcmuLine(a), [OpusText(b), OldParameters(b)]);
    OpusNext(OpusText(b), [OldParameters(b)]);
    assert AudioPart(a, b) == [AudioLine(a, b)] + ([PcmuLine(a)] + ([OpusText(b)] + [OldParameters(b)]));
  }

  lemma OfferIsReady(a: string, b: string, p: string, q: string)
    requires FourPts(a, b, p, q)
    ensures OpusOf(FullOffer(a, b, p, q)) == Some(b) && OpusReady(FullOffer(a, b, p, q))
  {
    OpusInAudioPart(a, b);
    OpusOfFirst(AudioPart(a, b), VideoPart(p, q));
    assert OldParameters(b) in FullOffer(a, b, p, q) && IsFmtp(OldParameters(b), FmtpHead(b));
  }

  lemma CodecLineStarts(pt: string, codec: string)
    ensures CodecLine(pt, codec)[0] == 'a' && CodecLine(pt, codec)[2] == 'r'
  {
  }

  lemma NotParameters(line: string, pt: string)
    requires |line| > 2 && (line[0] == 'm' || line[2] == 'r')
    ensures !("a=fmtp:" + pt + " " < line)
  {
  }

  lemma IndexIs(lines: seq<string>, prefix: string, i: nat)
    requires i < |lines| && prefix <= lines[i] && forall k :: 0 <= k < i ==> !(prefix <= lines[k])
    ensures LineIndex(lines, prefix) == Some(i)
  {
  }

  lemma IndexesInOffer(a: string, b: string, p: string, q: string)
    ensures LineIndex(FullOffer(a, b, p, q), "m=audio ") == Some(0)
    ensures LineIndex(FullOffer(a, b, p, q), "m=video ") == Some(4)
  {
    var lines := FullOffer(a, b, p, q);
    Prefixes();
    AudioStarts(a, b);
    VideoStarts(p, q);
    AudioIsNotVideo(a, b);
    CodecLineStarts(a, "PCMU/8000");
    OpusTextIsLine(b);
    CodecLineStarts(b, "opus/48000/2");
    IndexIs(lines, "m=audio ", 0);
    assert lines[4] == VideoLine(p, q) && OldParameters(b)[0] == 'a';
    IndexIs(lines, "m=video ", 4);
  }

  lemma AudioIsNotVideo(a: string, b: string)
    ensures !("m=video " <= AudioLine(a, b))
  {
    MLineIs("m=audio", a, b);
    assert AudioLine(a, b)[2] == 'a' && "m=video "[2] == 'v';
  }

  lemma TwoReordered(word: string, p: string, q: string, pref: Preference)
    requires IsWord(word) && IsPt(p) && IsPt(q) && Rank(pref, q) < Rank(pref, p)
    ensures ReorderLine(MLine(word, p, q), pref) == MLine(word, q, p)
  {
    MLineParts(word, p, q);
    PreferredOfTwo(pref, p, q);
  }

  lemma NoOtherParameters(a: string, b: string, p: string, q: string)
    requires FourPts(a, b, p, q)
    ensures var lines := FullOffer(a, b, p, q);
            forall i :: 0 <= i < 7 ==> ("a=fmtp:" + b + " " < lines[i] <==> i == 3)
  {
    AudioStarts(a, b);
    VideoStarts(p, q);
    CodecLineStarts(a, "PCMU/8000");
    OpusTextIsLine(b);
    CodecLineStarts(b, "opus/48000/2");
    CodecLineStarts(p, "VP8/90000");
    CodecLineStarts(q, "VP9/90000");
    var lines := FullOffer(a, b, p, q);
    forall i | 0 <= i < 7 && i != 3 ensures !("a=fmtp:" + b + " " < lines[i]) {
      assert lines[i] in [AudioLine(a, b), PcmuLine(a), OpusText(b), VideoLine(p, q), Vp8Line(p), Vp9Line(q)];
      MLineIs("m=audio", a, b);
      MLineIs("m=video", p, q);
      NotParameters(lines[i], b);
    }
  }

  lemma ResultOfParameters(lines: seq<string>, pt: string, i: nat, lowLatency: bool)
    requires i < |lines| && OpusOf(lines) == Some(pt) && "a=fmtp:" + pt + " " < lines[i]
    ensures ResultLine(lines, i, true, lowLatency) == Written(pt, lowLatency)
  {
  }

  lemma ResultOfOther(lines: seq<string>, pt: string, i: nat, lowLatency: bool)
    requires i < |lines| && OpusOf(lines) == Some(pt) && !("a=fmtp:" + pt + " " < lines[i])
    ensures ResultLine(lines, i, true, lowLatency) ==
            if LineIndex(lines, "m=audio ") == Some(i) then ReorderLine(lines[i], Preference(RtpTable(lines), AUDIO_CODECS))
            else if LineIndex(lines, "m=video ") == Some(i) then ReorderLine(lines[i], Preference(RtpTable(lines), VIDEO_CODECS))
            else lines[i]
  {
  }

  lemma OfferReordered(a: string, b: string, p: string, q: string)
    requires FourPts(a, b, p, q)
    ensures var table := RtpTable(FullOffer(a, b, p, q));
            && ReorderLine(AudioLine(a, b), Preference(table, AUDIO_CODECS)) == AudioLine(b, a)
            && ReorderLine(VideoLine(p, q), Preference(table, VIDEO_CODECS)) == VideoLine(q, p)
  {
    var table := RtpTable(FullOffer(a, b, p, q));
    OfferTable(a, b, p, q);
    PcmuRank(table, a);
    OpusRank(table, b);
    Vp8Rank(table, p);
    Vp9Rank(table, q);
    TwoReordered("m=audio", a, b, Preference(table, AUDIO_CODECS));
    TwoReordered("m=video", p, q, Preference(table, VIDEO_CODECS));
  }

  lemma OfferResult(a: string, b: string, p: string, q: string, lowLatency: bool, i: nat)
    requires FourPts(a, b, p, q) && i < 7
    ensures ResultLine(FullOffer(a, b, p, q), i, true, lowLatency) ==
            if i == 0 then AudioLine(b, a) else if i == 3 then Written(b, lowLatency)
            else if i == 4 then VideoLine(q, p) else FullOffer(a, b, p, q)[i]
  {
    var lines := FullOffer(a, b, p, q);
    OfferIsReady(a, b, p, q);
    IndexesInOffer(a, b, p, q);
    NoOtherParameters(a, b, p, q);
    OfferReordered(a, b, p, q);
    if i == 3 {
      ResultOfParameters(lines, b, i, lowLatency);
    } else {
      ResultOfOther(lines, b, i, lowLatency);
    }
  }

  lemma ByResultLines(sdp: string, lowLatency: bool, result: seq<string>)
    requires Tidy(sdp) && OpusReady(Split(sdp, CRLF)) && |result| == |Split(sdp, CRLF)| > 0
    requires forall i :: 0 <= i < |result| ==> ResultLine(Split(sdp, CRLF), i, true, lowLatency) == result[i]
    ensures Split(TransformSdp(sdp, true, lowLatency), CRLF) == result
  {
    TransformedLine(sdp, true, lowLatency, 0);
    forall i | 0 <= i < |result| ensures Split(TransformSdp(sdp, true, lowLatency), CRLF)[i] == result[i] {
      TransformedLine(sdp, true, lowLatency, i);
    }
  }

  /** What is to come out. */
  function FullAnswer(a: string, b: string, p: string, q: string, lowLatency: bool): seq<string> {
    [AudioLine(b, a), PcmuLine(a), OpusText(b), Written(b, lowLatency), VideoLine(q, p), Vp8Line(p), Vp9Line(q)]
  }

  lemma AnswerAt(a: string, b: string, p: string, q: string, lowLatency: bool, i: nat)
    requires i < 7
    ensures FullAnswer(a, b, p, q, lowLatency)[i] ==
            if i == 0 then AudioLine(b, a) else if i == 3 then Written(b, lowLatency)
            else if i == 4 then VideoLine(q, p) else FullOffer(a, b, p, q)[i]
  {
  }

  lemma OfferAnswered(a: string, b: string, p: string, q: string, lowLatency: bool)
    requires FourPts(a, b, p, q)
    ensures Split(TransformSdp(Join(FullOffer(a, b, p, q), CRLF), true, lowLatency), CRLF) ==
            FullAnswer(a, b, p, q, lowLatency)
  {
    var lines := FullOffer(a, b, p, q);
    OfferTable(a, b, p, q);
    TidySplitJoin(lines);
    OfferIsReady(a, b, p, q);
    forall i | 0 <= i < 7 ensures ResultLine(lines, i, true, lowLatency) == FullAnswer(a, b, p, q, lowLatency)[i] {
      OfferResult(a, b, p, q, lowLatency, i);
      AnswerAt(a, b, p, q, lowLatency, i);
    }
    ByResultLines(Join(lines, CRLF), lowLatency, FullAnswer(a, b, p, q, lowLatency));
  }

  /** Any four payload types: Opus comes before PCMU and VP9 before VP8, the parameters of Opus
      are the ones written, and nothing else has changed. */
  lemma FullOfferTransformed(a: string, b: string, p: string, q: string, lowLatency: bool)
    requires FourPts(a, b, p, q)
    ensures Split(TransformSdp(Join(FullOffer(a, b, p, q), CRLF), true, lowLatency), CRLF) ==
            [AudioLine(b, a), PcmuLine(a), OpusText(b),
             "a=fmtp:" + b + " " +
               (if lowLatency then "useinbandfec=1;usedtx=1;minptime=10;maxaveragebitrate=96000"
                else "useinbandfec=1;usedtx=0;minptime=20;maxaveragebitrate=64000"),
             VideoLine(q, p), Vp8Line(p), Vp9Line(q)]
  {
    OfferAnswered(a, b, p, q, lowLatency);
  }

  lemma AppendNext(line: string, more: seq<string>, text: string, fmtp: string)
    ensures AppendLines([line] + more, text, fmtp) ==
            (if text <= line then ["$1", fmtp + line[|text|..]] else [line]) + AppendLines(more, text, fmtp)
  {
    assert ([line] + more)[1..] == more;
  }

  lemma AppendToPlainOffer(pt: string, fmtp: string)
    ensures AppendLines(PlainOffer(pt), OpusText(pt), fmtp) == [AUDIO + pt, "$1", fmtp]
  {
    var audio, text := AUDIO + pt, OpusText(pt);
    AppendNext(audio, [text], text, fmtp);
    AppendNext(text, [], text, fmtp);
    assert audio[0] == 'm' && text[0] == 'a';
    assert PlainOffer(pt) == [audio] + [text] && [text] == [text] + [];
    assert text[|text|..] == "" && fmtp + "" == fmtp;
    assert AppendLines([], text, fmtp) == [];
  }

  /** And an offer of Opus alone, with no parameters: the replacement text is written where the
      Opus line stood, and the parameters behind it. */
  lemma PlainOfferOverwritten(pt: string, lowLatency: bool)
    requires IsPt(pt)
    ensures Split(InjectOpusFmtp(Join(PlainOffer(pt), CRLF), lowLatency), CRLF) ==
            [AUDIO + pt, "$1",
             "a=fmtp:" + pt + " " +
               (if lowLatency then "useinbandfec=1;usedtx=1;minptime=10;maxaveragebitrate=96000"
                else "useinbandfec=1;usedtx=0;minptime=20;maxaveragebitrate=64000")]
  {
    PlainOfferIs(pt);
    TidySplitJoin(PlainOffer(pt));
    PlainIsUnready(pt);
    OverwrittenLines(Join(PlainOffer(pt), CRLF), pt, lowLatency);
    AppendToPlainOffer(pt, Written(pt, lowLatency));
  }

  lemma PlainIsUnready(pt: string)
    requires OpusOf(PlainOffer(pt)) == Some(pt) && !SomeFmtp(PlainOffer(pt), FmtpHead(pt))
    ensures !OpusReady(PlainOffer(pt))
  {
    assert OpusText(pt) in PlainOffer(pt);
  }

  // ------------------------------------------------------------------- preferring one codec

  /** Opus first, then the video part: a search for the first rtpmap of any codec finds Opus. */
  function MixedOffer(o: string, p: string, q: string): seq<string> {
    [OpusText(o), VideoLine(p, q), Vp8Line(p), Vp9Line(q)]
  }

  /** A line whose only equals sign is its second character has an attribute only at its start. */
  lemma OnlyAtTheStart(line: string, codec: string)
    requires forall i :: 0 <= i < |line| ==> (line[i] == '=' ==> i == 1)
    ensures forall k: nat, pt :: k > 0 ==> !NamesAt(line, k, pt, codec)
  {
    forall k: nat, pt | k > 0 ensures !NamesAt(line, k, pt, codec) {
      AtChars(Lower(line), "a=rtpmap:" + pt + " " + Lower(codec), k, 1);
      assert k + 1 < |line| ==> Lower(line)[k + 1] == LowerChar(line[k + 1]);
    }
  }

  lemma CodecLineEquals(pt: string, codec: string)
    requires IsPt(pt) && forall c :: c in codec ==> c != '='
    ensures var line := CodecLine(pt, codec); forall i :: 0 <= i < |line| ==> (line[i] == '=' ==> i == 1)
  {
    var line, tail := CodecLine(pt, codec), " " + codec;
    LiteralsHaveOneEquals();
    assert line == RTPMAP + pt + tail;
    forall i | 0 <= i < |line| ensures line[i] == '=' ==> i == 1 {
      if i < |RTPMAP| {
        assert line[i] == RTPMAP[i];
      } else if i < |RTPMAP| + |pt| {
        assert line[i] == pt[i - |RTPMAP|] && pt[i - |RTPMAP|] in pt;
      } else {
        var k := i - |RTPMAP| - |pt|;
        assert line[i] == tail[k];
        assert tail[k] == ' ' || (k > 0 && tail[k] == codec[k - 1] && codec[k - 1] in codec);
      }
    }
  }

  /** A codec line names the codecs that its codec starts with. */
  lemma CodecLineNames(pt: string, line: string, codec: string, name: string)
    requires IsPt(pt) && line == CodecLine(pt, codec) && forall c :: c in codec ==> c != '='
    ensures if Lower(name) <= Lower(codec) then FirstNamed(line, pt, name) else NotNamed(line, name)
  {
    CodecLineEquals(pt, codec);
    OnlyAtTheStart(line, name);
    forall p ensures NamesAt(line, 0, p, name) <==> p == pt && Lower(name) <= Lower(codec) {
      CodecLineAtStart(pt, codec, p, name);
    }
    if Lower(name) <= Lower(codec) {
      OnlyTheFirst(line, pt, pt, name);
    }
  }

  lemma CodecLineHere(pt: string, codec: string, name: string)
    requires IsPt(pt)
    ensures CodecHere(CodecLine(pt, codec), name) ==
            if StartsWithIgnoreCase(" " + codec, Lower(SPACE + name)) then Some(pt) else None
  {
    var line := CodecLine(pt, codec);
    var rest := line[|RTPMAP|..];
    LiteralsAreLower();
    assert line[..|RTPMAP|] == RTPMAP && rest == pt + (" " + codec);
    DigitsThenSpace(pt, " " + codec);
    assert rest[..|pt|] == pt && rest[|pt|..] == " " + codec;
  }

  lemma CodecLineAtStart(pt: string, codec: string, p: string, name: string)
    requires IsPt(pt)
    ensures NamesAt(CodecLine(pt, codec), 0, p, name) <==> p == pt && Lower(name) <= Lower(codec)
  {
    CodecHereIff(CodecLine(pt, codec), p, name);
    CodecLineHere(pt, codec, name);
    NameStarts(codec, name);
  }

  lemma NameStarts(codec: string, name: string)
    ensures StartsWithIgnoreCase(" " + codec, Lower(SPACE + name)) <==> Lower(name) <= Lower(codec)
  {
    var s, t := " " + codec, SPACE + name;
    LowerConcat(SPACE, name);
    LowerConcat(SPACE, codec);
    CutPrefixOne(Lower(name), Lower(codec));
    assert Lower(SPACE) == SPACE;
    if |t| <= |s| {
      assert Lower(s[..|t|]) == Lower(s)[..|t|];
      assert Lower(t) <= Lower(s) <==> Lower(s)[..|t|] == Lower(t);
    }
  }

  lemma CutPrefixOne(x: string, y: string)
    ensures SPACE + x <= SPACE + y <==> x <= y
  {
    assert (SPACE + x)[1..] == x && (SPACE + y)[1..] == y;
    if x <= y {
      assert SPACE + y == (SPACE + x) + y[|x|..];
    }
    if SPACE + x <= SPACE + y {
      assert (SPACE + y)[..|x| + 1] == SPACE + x;
      assert y[..|x|] == (SPACE + y)[1..|x| + 1];
    }
  }

  lemma MLineNamesNothing(p: string, q: string, codec: string)
    requires IsPt(p) && IsPt(q)
    ensures NotNamed(VideoLine(p, q), codec)
  {
    MLineIsTidy("m=video", p, q);
    VideoStarts(p, q);
    MLinesHaveNoAttribute(VideoLine(p, q));
    NoRtpMapNoCodec(VideoLine(p, q), codec);
    CodecInIff(VideoLine(p, q), codec);
  }

  lemma Vp9Starts()
    ensures Lower("VP9") <= Lower("VP9/90000")
    ensures !(Lower("VP9") <= Lower("VP8/90000")) && !(Lower("VP9") <= Lower("opus/48000/2"))
  {
    assert Lower("VP9")[0] == 'v' && Lower("opus/48000/2")[0] == 'o';
    assert Lower("VP9")[2] == '9' && Lower("VP8/90000")[2] == '8';
  }

  lemma CodecsHaveNoEquals()
    ensures forall c :: c in "opus/48000/2" || c in "VP8/90000" || c in "VP9/90000" ==> c != '='
  {
  }

  lemma MixedPrefersVp9(o: string, p: string, q: string)
    requires IsPt(o) && IsPt(p) && IsPt(q)
    ensures PreferredPt(MixedOffer(o, p, q), "VP9") == Some(q)
  {
    var lines := MixedOffer(o, p, q);
    Vp9Starts();
    CodecsHaveNoEquals();
    OpusTextIsLine(o);
    CodecLineNames(o, OpusText(o), "opus/48000/2", "VP9");
    MLineNamesNothing(p, q, "VP9");
    CodecLineNames(p, Vp8Line(p), "VP8/90000", "VP9");
    CodecLineNames(q, Vp9Line(q), "VP9/90000", "VP9");
    assert FirstNamed(lines[3], q, "VP9");
    PreferredPtIff(lines, "VP9");
  }

  lemma LastToFront(p: string, q: string)
    requires p != q
    ensures MoveToFront([p, q], q) == [q, p]
  {
    RemoveFirstCons(p, [q], q);
    RemoveFirstCons(q, [], q);
    assert [p] + [q] == [p, q] && [q] + [] == [q];
  }

  lemma VideoLinePreferred(p: string, q: string)
    requires IsPt(p) && IsPt(q) && p != q
    ensures PreferLine(VideoLine(p, q), q) == VideoLine(q, p)
  {
    MLineParts("m=video", p, q);
    LastToFront(p, q);
    assert q in [p, q];
  }

  lemma SecondOfTwo(lines: seq<string>, i: nat, p: string, q: string, codec: string)
    requires LineIndex(lines, "m=video") == Some(i) && lines[i] == VideoLine(p, q)
    requires IsPt(p) && IsPt(q) && p != q && PreferredPt(lines, codec) == Some(q)
    ensures PreferLines(lines, codec) == lines[i := VideoLine(q, p)]
  {
    VideoLinePreferred(p, q);
  }

  lemma MixedIndex(o: string, p: string, q: string)
    ensures LineIndex(MixedOffer(o, p, q), "m=video") == Some(1)
  {
    var lines := MixedOffer(o, p, q);
    MLineIs("m=video", p, q);
    WordStarts("m=video", lines[1]);
    assert lines[0][0] == 'a';
    IndexIs(lines, "m=video", 1);
  }

  lemma WordStarts(word: string, line: string)
    requires word + SPACE <= line
    ensures word <= line
  {
    assert word == (word + SPACE)[..|word|];
  }

  lemma MixedIsTidy(o: string, p: string, q: string)
    requires IsPt(o) && IsPt(p) && IsPt(q)
    ensures TidyLines(MixedOffer(o, p, q))
  {
    OpusTextIsTidy(o);
    VideoPartIs(p, q);
    assert MixedOffer(o, p, q) == [OpusText(o)] + VideoPart(p, q);
  }

  /** Preferring VP9 puts its payload type in front on the video line, whatever comes first. */
  lemma Vp9Preferred(o: string, p: string, q: string)
    requires IsPt(o) && IsPt(p) && IsPt(q) && p != q
    ensures Split(Prefer(Join(MixedOffer(o, p, q), CRLF), "VP9"), CRLF) ==
            [OpusText(o), VideoLine(q, p), Vp8Line(p), Vp9Line(q)]
  {
    var lines := MixedOffer(o, p, q);
    MixedIsTidy(o, p, q);
    TidySplitJoin(lines);
    SplitPrefer(Join(lines, CRLF), "VP9");
    MixedPrefersVp9(o, p, q);
    MixedIndex(o, p, q);
    SecondOfTwo(lines, 1, p, q, "VP9");
    assert lines[1 := VideoLine(q, p)] == [OpusText(o), VideoLine(q, p), Vp8Line(p), Vp9Line(q)];
  }
}
