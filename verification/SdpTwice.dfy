/** A text that transformSdp does not leave alone the second time: an offer of two audio codecs,
    with no parameters for Opus, whose second transformation undoes the order of the first. */
module SdpTwice {
  import opened Wrappers
  import opened Text
  import opened CodecPreference
  import opened SdpModel
  import opened SdpLines
  import opened SdpBridge
  import opened SdpAppendLines
  import opened SdpTransform
  import opened SdpAppend
  import opened SdpRest
  import opened SdpSamples

  // ----------------------------------------------------------------- the two passes

  function Offer(p: string, q: string): seq<string> {
    [AudioLine(p, q), PcmuLine(p), OpusText(q)]
  }

  /** What the first pass leaves: Opus in front, and its rtpmap line gone. */
  function Once(p: string, q: string, lowLatency: bool): seq<string> {
    [AudioLine(q, p), PcmuLine(p), "$1", FmtpLine(q, lowLatency)]
  }

  lemma TableOfOffer(first: string, p: string, q: string)
    requires IsPt(p) && IsPt(q) && first != "" && first[0] == 'm'
    ensures RtpTable([first, PcmuLine(p), OpusText(q)]) == map[p := "pcmu/8000"][q := "opus/48000/2"]
  {
    var lines := [first, PcmuLine(p), OpusText(q)];
    NotAnRtpMap(first);
    CodecLines(p, q);
    assert lines[..2] == [first, PcmuLine(p)] && lines[..2][..1] == [first] && [first][..0] == [];
    assert RtpTable([first]) == map[] && RtpTable(lines[..2]) == map[p := "pcmu/8000"];
  }

  lemma TableOfOnce(p: string, q: string, lowLatency: bool)
    requires IsPt(p) && IsPt(q)
    ensures RtpTable(Once(p, q, lowLatency)) == map[p := "pcmu/8000"]
  {
    var lines, fmtp := Once(p, q, lowLatency), FmtpLine(q, lowLatency);
    AudioStarts(q, p);
    NotAnRtpMap(AudioLine(q, p));
    CodecLines(p, q);
    NotAnRtpMap("$1");
    FmtpHeadStarts(fmtp, q);
    NotAnRtpMap(fmtp);
    assert lines[..3] == [AudioLine(q, p), PcmuLine(p), "$1"] && lines[..3][..2] == [AudioLine(q, p), PcmuLine(p)];
    assert lines[..3][..2][..1] == [AudioLine(q, p)] && [AudioLine(q, p)][..0] == [];
    assert RtpTable([AudioLine(q, p)]) == map[] && RtpTable(lines[..3][..2]) == map[p := "pcmu/8000"];
    assert RtpTable(lines[..3]) == map[p := "pcmu/8000"];
  }

  lemma FirstReorder(p: string, q: string)
    requires IsPt(p) && IsPt(q) && p != q
    ensures ReorderLines(Offer(p, q), "audio", AUDIO_CODECS) == [AudioLine(q, p), PcmuLine(p), OpusText(q)]
  {
    var lines, table := Offer(p, q), map[p := "pcmu/8000"][q := "opus/48000/2"];
    AudioStarts(p, q);
    MLineParts("m=audio", p, q);
    TableOfOffer(AudioLine(p, q), p, q);
    PcmuRank(table, p);
    OpusRank(table, q);
    PreferredOfTwo(Preference(table, AUDIO_CODECS), p, q);
    assert LineIndex(lines, MediaPrefix("audio")) == Some(0);
    assert lines[0 := AudioLine(q, p)] == [AudioLine(q, p), PcmuLine(p), OpusText(q)];
  }

  lemma SecondReorder(p: string, q: string, lowLatency: bool)
    requires IsPt(p) && IsPt(q) && p != q
    ensures ReorderLines(Once(p, q, lowLatency), "audio", AUDIO_CODECS)[0] == AudioLine(p, q)
  {
    var lines, table := Once(p, q, lowLatency), map[p := "pcmu/8000"];
    AudioStarts(q, p);
    MLineParts("m=audio", q, p);
    TableOfOnce(p, q, lowLatency);
    PcmuRank(table, p);
    NoRank(table, q);
    PreferredOfTwo(Preference(table, AUDIO_CODECS), q, p);
    assert LineIndex(lines, MediaPrefix("audio")) == Some(0);
  }

  lemma OfferIsTidy(p: string, q: string)
    requires IsPt(p) && IsPt(q)
    ensures TidyLines([AudioLine(q, p), PcmuLine(p), OpusText(q)]) && TidyLines(Offer(p, q))
  {
    MLineIsTidy("m=audio", p, q);
    MLineIsTidy("m=audio", q, p);
    PcmuLineIs(p);
    OpusTextIsTidy(q);
  }

  /** Injecting into the reordered offer loses the Opus line. */
  lemma InjectedOnce(p: string, q: string, lowLatency: bool)
    requires IsPt(p) && IsPt(q)
    ensures var sdp := Join([AudioLine(q, p), PcmuLine(p), OpusText(q)], CRLF);
            Split(InjectOpusFmtp(sdp, lowLatency), CRLF) == Once(p, q, lowLatency)
  {
    var lines := [AudioLine(q, p), PcmuLine(p), OpusText(q)];
    var sdp, fmtp := Join(lines, CRLF), FmtpLine(q, lowLatency);
    OfferIsTidy(p, q);
    FirstOpusIsOpusOf(lines);
    OpusInOffer(p, q);
    OpusIsDigits(lines);
    OpusTextIs(q);
    ReplaceFmtpByLine(lines, FmtpHead(q), fmtp);
    AppendByLine(lines, OpusText(q), fmtp);
    AppendedLinesSplit(lines, q, lowLatency);
    AppendedOffer(p, q, fmtp);
  }

  lemma OpusThird(x: string, y: string, z: string)
    requires OpusHere(x) == None && OpusHere(y) == None && OpusHere(z).Some?
    ensures OpusOf([x, y, z]) == OpusHere(z)
  {
    OpusNext(x, [y, z]);
    OpusNext(y, [z]);
    assert [x, y, z] == [x] + [y, z] && [y, z] == [y] + [z];
  }

  lemma OpusInOffer(p: string, q: string)
    requires IsPt(p) && IsPt(q)
    ensures var lines := [AudioLine(q, p), PcmuLine(p), OpusText(q)];
            OpusOf(lines) == Some(q) && !SomeFmtp(lines, FmtpHead(q))
  {
    AudioStarts(q, p);
    NotAnRtpMap(AudioLine(q, p));
    NotFmtp(AudioLine(q, p), q);
    PcmuLineIs(p);
    OpusTextIsOpus(q);
    OpusThird(AudioLine(q, p), PcmuLine(p), OpusText(q));
    assert PcmuLine(p)[2] == 'r' && OpusText(q)[2] == 'r' && FmtpHead(q)[2] == 'f';
  }

  lemma AppendedOffer(p: string, q: string, fmtp: string)
    requires IsPt(p) && IsPt(q)
    ensures AppendLines([AudioLine(q, p), PcmuLine(p), OpusText(q)], OpusText(q), fmtp)
         == [AudioLine(q, p), PcmuLine(p), "$1", fmtp]
  {
    var lines, text := [AudioLine(q, p), PcmuLine(p), OpusText(q)], OpusText(q);
    AudioStarts(q, p);
    assert text[0] == 'a';
    PcmuIsNotText(p, q);
    assert lines[1..] == [PcmuLine(p), text] && lines[1..][1..] == [text] && [text][1..] == [];
    assert text[|text|..] == "" && fmtp + "" == fmtp;
    assert AppendLines([text], text, fmtp) == ["$1", fmtp] + [];
    assert AppendLines(lines[1..], text, fmtp) == [PcmuLine(p)] + ["$1", fmtp];
  }

  lemma OpusTextStarts(line: string, q: string)
    requires IsPt(q)
    ensures OpusText(q) <= line ==> OpusHere(line) == Some(q)
  {
    if OpusText(q) <= line {
      var tail := line[|OpusText(q)|..];
      var rest := line[|RTPMAP|..];
      assert line == OpusText(q) + tail && line[..|RTPMAP|] == RTPMAP && rest == q + (OPUS + tail);
      LiteralsAreLower();
      DigitsThenSpace(q, OPUS + tail);
      assert rest[..|q|] == q && rest[|q|..] == OPUS + tail && (OPUS + tail)[..|OPUS|] == OPUS;
    }
  }

  lemma PcmuIsNotText(p: string, q: string)
    requires IsPt(p) && IsPt(q)
    ensures !(OpusText(q) <= PcmuLine(p))
  {
    PcmuLineIs(p);
    OpusTextStarts(PcmuLine(p), q);
  }

  /** Transforming this offer twice is not transforming it once: the first pass puts Opus in
      front and loses its line, so the second puts it behind PCMU again. */
  lemma TransformTwiceUndoesTheOrder(p: string, q: string, lowLatency: bool)
    requires IsPt(p) && IsPt(q) && p != q
    ensures var sdp := Join(Offer(p, q), CRLF);
            var once := TransformSdp(sdp, false, lowLatency);
            && Tidy(sdp) && Split(once, CRLF)[0] == AudioLine(q, p)
            && Split(TransformSdp(once, false, lowLatency), CRLF)[0] == AudioLine(p, q) != AudioLine(q, p)
  {
    var sdp := Join(Offer(p, q), CRLF);
    var once := TransformSdp(sdp, false, lowLatency);
    OfferIsTidy(p, q);
    TidySplitJoin(Offer(p, q));
    FirstReorder(p, q);
    InjectedOnce(p, q, lowLatency);
    assert Split(once, CRLF) == Once(p, q, lowLatency);
    SecondPass(once, p, q, lowLatency);
    MLineParts("m=audio", p, q);
    MLineParts("m=audio", q, p);
  }

  lemma SecondPass(once: string, p: string, q: string, lowLatency: bool)
    requires IsPt(p) && IsPt(q) && p != q && Split(once, CRLF) == Once(p, q, lowLatency)
    ensures Split(TransformSdp(once, false, lowLatency), CRLF)[0] == AudioLine(p, q)
  {
    var again := Reorder(once, "audio", AUDIO_CODECS);
    SplitReorder(once, "audio", AUDIO_CODECS);
    SecondReorder(p, q, lowLatency);
    OnceHasNoOpus(p, q, lowLatency);
    OnceIsTidy(p, q, lowLatency);
    AudioAndVideoAreMedia();
    ReorderKeepsOpus(Once(p, q, lowLatency), "audio", AUDIO_CODECS);
    ReorderedLinesAreTidy(Once(p, q, lowLatency), "audio", AUDIO_CODECS);
    FirstOpusIsOpusOf(Split(again, CRLF));
    JoinSplit(again, CRLF);
  }

  lemma {:induction false} NoneIsOpus(lines: seq<string>)
    requires forall l :: l in lines ==> OpusHere(l) == None
    ensures OpusOf(lines) == None
  {
    if lines != [] {
      assert forall l :: l in lines[1..] ==> l in lines;
      NoneIsOpus(lines[1..]);
    }
  }

  lemma OnceHasNoOpus(p: string, q: string, lowLatency: bool)
    requires IsPt(p) && IsPt(q)
    ensures OpusOf(Once(p, q, lowLatency)) == None
  {
    AudioStarts(q, p);
    NotAnRtpMap(AudioLine(q, p));
    PcmuLineIs(p);
    NotAnRtpMap("$1");
    FmtpHeadStarts(FmtpLine(q, lowLatency), q);
    NotAnRtpMap(FmtpLine(q, lowLatency));
    NoneIsOpus(Once(p, q, lowLatency));
  }

  lemma FourTidyLines(a: string, b: string, c: string, d: string)
    requires TidyLine(a) && TidyLine(b) && TidyLine(c) && TidyLine(d)
    ensures TidyLines([a, b, c, d])
  {
  }

  lemma DollarIsTidy()
    ensures TidyLine("$1")
  {
    EqualsOnlyAtOne("$1");
  }

  lemma OnceIsTidy(p: string, q: string, lowLatency: bool)
    requires IsPt(p) && IsPt(q)
    ensures TidyLines(Once(p, q, lowLatency))
  {
    MLineIsTidy("m=audio", q, p);
    PcmuLineIs(p);
    DollarIsTidy();
    FmtpLineIsTidy(q, lowLatency);
    FourTidyLines(AudioLine(q, p), PcmuLine(p), "$1", FmtpLine(q, lowLatency));
  }
}
