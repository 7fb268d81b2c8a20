/** The rewriting functions as they run: loops over the lines and edits of local lists,
    each tied to the function it computes. */
module SdpRewriter {
  import opened Wrappers
  import opened Text
  import opened CodecPreference
  import opened SdpModel
  import opened SdpBridge
  import opened SdpTransform
  import opened SdpResult
  import opened PreferCodec
  import opened SdpSearch

  method FindLine(lines: seq<string>, prefix: string) returns (index: Option<nat>)
    ensures index == LineIndex(lines, prefix)
  {
    for i := 0 to |lines|
      invariant forall k :: 0 <= k < i ==> !(prefix <= lines[k])
    {
      if prefix <= lines[i] {
        return Some(i);
      }
    }
    return None;
  }

  method BuildRtpTable(lines: seq<string>) returns (ptToCodec: map<string, string>)
    ensures ptToCodec == RtpTable(lines)
  {
    ptToCodec := map[];
    var i := 0;
    while i < |lines|
      invariant 0 <= i <= |lines|
      invariant ptToCodec == RtpTable(lines[..i])
    {
      assert lines[..i + 1][..i] == lines[..i];
      match ParseRtpMap(lines[i]) {
        case Some(m) => ptToCodec := ptToCodec[m.0 := m.1];
        case None =>
      }
      i := i + 1;
    }
    assert lines[..|lines|] == lines;
  }

  method ReorderCodecs(sdp: string, mediaType: string, preferredCodecs: seq<string>) returns (out: string)
    ensures out == Reorder(sdp, mediaType, preferredCodecs)
  {
    var lines := Split(sdp, CRLF);
    JoinSplit(sdp, CRLF);
    var mLineIndex := FindLine(lines, MediaPrefix(mediaType));
    if mLineIndex.None? {
      return sdp;
    }
    var i := mLineIndex.value;
    var ptToCodec := BuildRtpTable(lines);
    var mParts := Split(lines[i], SPACE);
    if |mParts| < 4 {
      assert lines[i := lines[i]] == lines;
      return sdp;
    }
    var header, currentPts := mParts[..3], mParts[3..];
    var reordered := OrderPayloadTypes(Preference(ptToCodec, preferredCodecs), currentPts);
    lines := lines[i := Join(header + reordered, SPACE)];
    return Join(lines, CRLF);
  }

  method TransformSdpText(sdp: string, hasVideo: bool, lowLatency: bool) returns (out: string)
    ensures out == TransformSdp(sdp, hasVideo, lowLatency)
    ensures Tidy(sdp) && OpusReady(Split(sdp, CRLF)) ==>
              |Split(out, CRLF)| == |Split(sdp, CRLF)| &&
              forall i :: 0 <= i < |Split(sdp, CRLF)| ==>
                Split(out, CRLF)[i] == ResultLine(Split(sdp, CRLF), i, hasVideo, lowLatency)
  {
    if Tidy(sdp) && OpusReady(Split(sdp, CRLF)) {
      TransformedLines(sdp, hasVideo, lowLatency);
    }
    out := sdp;
    out := ReorderCodecs(out, "audio", AUDIO_CODECS);
    out := InjectOpusFmtp(out, lowLatency);
    if hasVideo {
      out := ReorderCodecs(out, "video", VIDEO_CODECS);
    }
  }

  method FindPayloadType(lines: seq<string>, codec: string) returns (pt: Option<string>)
    ensures pt == PreferredPt(lines, codec)
    ensures forall p :: pt == Some(p) <==> FirstLineNames(lines, p, codec)
    ensures pt == None <==> NoLineNames(lines, codec)
  {
    PreferredPtIff(lines, codec);
    var i := 0;
    assert lines[0..] == lines;
    while i < |lines|
      invariant 0 <= i <= |lines|
      invariant PreferredPt(lines, codec) == PreferredPt(lines[i..], codec)
    {
      assert lines[i..][1..] == lines[i + 1..];
      var m := CodecIn(lines[i], codec);
      if m.Some? {
        return m;
      }
      i := i + 1;
    }
    return None;
  }

  method PreferCodecText(sdp: string, preferred: string) returns (out: string)
    ensures out == Prefer(sdp, preferred)
  {
    var lines := Split(sdp, CRLF);
    JoinSplit(sdp, CRLF);
    var mVideoLineIndex := FindLine(lines, VIDEO);
    if mVideoLineIndex.None? {
      return sdp;
    }
    var i := mVideoLineIndex.value;
    var preferredPt := FindPayloadType(lines, preferred);
    if preferredPt.None? {
      return sdp;
    }
    assert lines[i := lines[i]] == lines;
    var parts := Split(lines[i], SPACE);
    if |parts| < 4 {
      return sdp;
    }
    var pts := parts[3..];
    if preferredPt.value !in pts {
      return sdp;
    }
    pts := RemoveFirst(pts, preferredPt.value);
    pts := [preferredPt.value] + pts;
    lines := lines[i := Join([parts[0], parts[1], parts[2]] + pts, SPACE)];
    assert [parts[0], parts[1], parts[2]] == parts[..3];
    return Join(lines, CRLF);
  }
}
