/** What transformSdp returns, line by line and in so many words. */
module SdpResult {
  import opened Wrappers
  import opened Text
  import opened CodecPreference
  import opened SdpModel
  import opened SdpLines
  import opened SdpBridge
  import opened SdpAppendLines
  import opened SdpTransform
  import opened SdpIdempotence

  // ------------------------------------------------------------------- the parameters

  lemma LowStart()
    ensures "useinbandfec=1;" + "usedtx=1;" + "minptime=10;" == "useinbandfec=1;usedtx=1;minptime=10;"
  {
    assert "useinbandfec=1;" + "usedtx=1;" == "useinbandfec=1;usedtx=1;";
  }

  lemma LowLiteral()
    ensures OpusParameters(true) == "useinbandfec=1;usedtx=1;minptime=10;maxaveragebitrate=96000"
  {
    LowStart();
  }

  lemma HighStart()
    ensures "useinbandfec=1;" + "usedtx=0;" + "minptime=20;" == "useinbandfec=1;usedtx=0;minptime=20;"
  {
    assert "useinbandfec=1;" + "usedtx=0;" == "useinbandfec=1;usedtx=0;";
  }

  lemma HighLiteral()
    ensures OpusParameters(false) == "useinbandfec=1;usedtx=0;minptime=20;maxaveragebitrate=64000"
  {
    HighStart();
  }

  /** The line that is written for a payload type. */
  function Written(pt: string, lowLatency: bool): string {
    "a=fmtp:" + pt + " " +
    (if lowLatency then "useinbandfec=1;usedtx=1;minptime=10;maxaveragebitrate=96000"
     else "useinbandfec=1;usedtx=0;minptime=20;maxaveragebitrate=64000")
  }

  lemma FmtpLineIsWritten(pt: string, lowLatency: bool)
    ensures FmtpLine(pt, lowLatency) == Written(pt, lowLatency)
  {
    if lowLatency { LowLiteral(); } else { HighLiteral(); }
  }

  lemma Prefixes()
    ensures MediaPrefix("audio") == "m=audio " && MediaPrefix("video") == "m=video "
  {
  }

  // --------------------------------------------------------------------- line by line

  /** What becomes of line i: the parameters of Opus are replaced, the two m-lines get their
      payload types sorted, and the rest is kept. */
  function ResultLine(lines: seq<string>, i: nat, hasVideo: bool, lowLatency: bool): string
    requires i < |lines|
  {
    if OpusOf(lines).Some? && "a=fmtp:" + OpusOf(lines).value + " " < lines[i] then
      Written(OpusOf(lines).value, lowLatency)
    else if LineIndex(lines, "m=audio ") == Some(i) then
      ReorderLine(lines[i], Preference(RtpTable(lines), ["opus/48000/2", "PCMU/8000", "PCMA/8000"]))
    else if hasVideo && LineIndex(lines, "m=video ") == Some(i) then
      ReorderLine(lines[i], Preference(RtpTable(lines), ["VP9/90000", "VP8/90000", "H264/90000", "AV1/90000"]))
    else lines[i]
  }

  lemma AudioLineStays(lines: seq<string>, i: nat, head: string)
    requires i < |lines| && head != "" && head[0] == 'a'
    ensures var a := ReorderLines(lines, "audio", AUDIO_CODECS);
            && (IsFmtp(a[i], head) <==> IsFmtp(lines[i], head))
            && (IsFmtp(lines[i], head) ==> a[i] == lines[i] && LineIndex(lines, MediaPrefix("audio")) != Some(i))
  {
    AudioAndVideoAreMedia();
    ReorderTouchesOneLine(lines, "audio", AUDIO_CODECS, i);
    var a := ReorderLines(lines, "audio", AUDIO_CODECS);
    if a[i] != lines[i] {
      MLinesStartWithM(lines[i], "audio");
      MLinesStartWithM(a[i], "audio");
    }
  }

  lemma HeadIs(pt: string, line: string)
    ensures IsFmtp(line, FmtpHead(pt)) <==> "a=fmtp:" + pt + " " < line
  {
  }

  lemma ReorderedAt(lines: seq<string>, media: string, codecs: seq<string>, i: nat)
    requires i < |lines|
    ensures ReorderLines(lines, media, codecs)[i] ==
            if LineIndex(lines, MediaPrefix(media)) == Some(i) then ReorderLine(lines[i], Preference(RtpTable(lines), codecs))
            else lines[i]
  {
  }

  lemma InjectedAt(lines: seq<string>, lowLatency: bool, i: nat)
    requires i < |lines|
    ensures InjectLines(lines, lowLatency)[i] ==
            if OpusOf(lines).Some? && IsFmtp(lines[i], FmtpHead(OpusOf(lines).value))
            then FmtpLine(OpusOf(lines).value, lowLatency) else lines[i]
  {
  }

  lemma InjectedLine(lines: seq<string>, lowLatency: bool, i: nat)
    requires i < |lines|
    ensures InjectLines(ReorderLines(lines, "audio", AUDIO_CODECS), lowLatency)[i] == ResultLine(lines, i, false, lowLatency)
  {
    var a := ReorderLines(lines, "audio", AUDIO_CODECS);
    AudioAndVideoAreMedia();
    Prefixes();
    ReorderKeepsOpus(lines, "audio", AUDIO_CODECS);
    InjectedAt(a, lowLatency, i);
    ReorderedAt(lines, "audio", AUDIO_CODECS, i);
    if OpusOf(lines).Some? {
      var pt := OpusOf(lines).value;
      AudioLineStays(lines, i, FmtpHead(pt));
      HeadIs(pt, lines[i]);
      FmtpLineIsWritten(pt, lowLatency);
    }
  }

  lemma InjectedKeeps(lines: seq<string>, lowLatency: bool)
    ensures var b := InjectLines(ReorderLines(lines, "audio", AUDIO_CODECS), lowLatency);
            RtpTable(b) == RtpTable(lines) && LineIndex(b, MediaPrefix("video")) == LineIndex(lines, MediaPrefix("video"))
  {
    AudioAndVideoAreMedia();
    var a := ReorderLines(lines, "audio", AUDIO_CODECS);
    ReorderKeepsOther(lines, "audio", AUDIO_CODECS, "video");
    if OpusOf(a).Some? {
      ReplaceFmtpKeeps(a, OpusOf(a).value, lowLatency, "video");
    }
  }

  lemma VideoIsNeither(lines: seq<string>, i: nat)
    requires LineIndex(lines, MediaPrefix("video")) == Some(i)
    ensures LineIndex(lines, MediaPrefix("audio")) != Some(i)
    ensures forall pt :: !("a=fmtp:" + pt + " " < lines[i])
  {
    AudioAndVideoAreMedia();
    NotBoth(lines[i], "video", "audio");
    MLinesStartWithM(lines[i], "video");
  }

  lemma WithVideo(lines: seq<string>, lowLatency: bool, i: nat)
    requires i < |lines|
    ensures var b := InjectLines(ReorderLines(lines, "audio", AUDIO_CODECS), lowLatency);
            ReorderLines(b, "video", VIDEO_CODECS)[i] == ResultLine(lines, i, true, lowLatency)
  {
    var b := InjectLines(ReorderLines(lines, "audio", AUDIO_CODECS), lowLatency);
    InjectedLine(lines, lowLatency, i);
    InjectedKeeps(lines, lowLatency);
    ReorderedAt(b, "video", VIDEO_CODECS, i);
    Prefixes();
    if LineIndex(lines, MediaPrefix("video")) == Some(i) {
      VideoIsNeither(lines, i);
    }
  }

  /** For every tidy text in which no Opus line is overwritten. */
  lemma TransformedLine(sdp: string, hasVideo: bool, lowLatency: bool, i: nat)
    requires Tidy(sdp) && OpusReady(Split(sdp, CRLF)) && i < |Split(sdp, CRLF)|
    ensures |Split(TransformSdp(sdp, hasVideo, lowLatency), CRLF)| == |Split(sdp, CRLF)|
    ensures Split(TransformSdp(sdp, hasVideo, lowLatency), CRLF)[i] == ResultLine(Split(sdp, CRLF), i, hasVideo, lowLatency)
  {
    TransformByLine(sdp, hasVideo, lowLatency);
    if hasVideo {
      WithVideo(Split(sdp, CRLF), lowLatency, i);
    } else {
      InjectedLine(Split(sdp, CRLF), lowLatency, i);
    }
  }

  lemma TransformedLines(sdp: string, hasVideo: bool, lowLatency: bool)
    requires Tidy(sdp) && OpusReady(Split(sdp, CRLF))
    ensures var lines, result := Split(sdp, CRLF), Split(TransformSdp(sdp, hasVideo, lowLatency), CRLF);
            |result| == |lines| && forall i :: 0 <= i < |lines| ==> result[i] == ResultLine(lines, i, hasVideo, lowLatency)
  {
    TransformedLine(sdp, hasVideo, lowLatency, 0);
    forall i | 0 <= i < |Split(sdp, CRLF)|
      ensures Split(TransformSdp(sdp, hasVideo, lowLatency), CRLF)[i] == ResultLine(Split(sdp, CRLF), i, hasVideo, lowLatency)
    {
      TransformedLine(sdp, hasVideo, lowLatency, i);
    }
  }

  lemma MLineHasNoFmtp(line: string, media: string, pref: Preference, pt: string)
    requires IsMedia(media) && MediaPrefix(media) <= line
    ensures !("a=fmtp:" + pt + " " < ReorderLine(line, pref))
  {
    MediaPrefixStays(line, media, pref);
    MLinesStartWithM(ReorderLine(line, pref), media);
  }

  /** So the parameter lines of Opus in the result read thus, one for each there was, and the
      rest of its lines are others. */
  lemma OpusParametersAre(sdp: string, hasVideo: bool, lowLatency: bool, pt: string, i: nat)
    requires Tidy(sdp) && OpusReady(Split(sdp, CRLF)) && OpusOf(Split(sdp, CRLF)) == Some(pt) && i < |Split(sdp, CRLF)|
    ensures |Split(TransformSdp(sdp, hasVideo, lowLatency), CRLF)| == |Split(sdp, CRLF)|
    ensures var before, after := Split(sdp, CRLF)[i], Split(TransformSdp(sdp, hasVideo, lowLatency), CRLF)[i];
            && ("a=fmtp:" + pt + " " < after <==> "a=fmtp:" + pt + " " < before)
            && ("a=fmtp:" + pt + " " < after ==>
                  after == "a=fmtp:" + pt + " " +
                           if lowLatency then "useinbandfec=1;usedtx=1;minptime=10;maxaveragebitrate=96000"
                           else "useinbandfec=1;usedtx=0;minptime=20;maxaveragebitrate=64000")
  {
    var lines := Split(sdp, CRLF);
    AudioAndVideoAreMedia();
    Prefixes();
    TransformedLine(sdp, hasVideo, lowLatency, i);
    if LineIndex(lines, "m=audio ") == Some(i) {
      MLineHasNoFmtp(lines[i], "audio", Preference(RtpTable(lines), AUDIO_CODECS), pt);
    }
    if LineIndex(lines, "m=video ") == Some(i) {
      MLineHasNoFmtp(lines[i], "video", Preference(RtpTable(lines), VIDEO_CODECS), pt);
    }
    FmtpLineIsWritten(pt, lowLatency);
    FmtpLineIsFmtp(pt, lowLatency);
  }

  /** For every tidy text with an Opus line that is overwritten, where it stood there are two
      lines: the replacement text and the parameters with what followed. */
  lemma OverwrittenLines(sdp: string, pt: string, lowLatency: bool)
    requires Tidy(sdp) && OpusOf(Split(sdp, CRLF)) == Some(pt) && !OpusReady(Split(sdp, CRLF))
    ensures Split(InjectOpusFmtp(sdp, lowLatency), CRLF) ==
            AppendLines(Split(sdp, CRLF), "a=rtpmap:" + pt + " opus/48000/2", Written(pt, lowLatency))
  {
    InjectAppends(sdp, pt, lowLatency);
    FmtpLineIsWritten(pt, lowLatency);
  }
}
