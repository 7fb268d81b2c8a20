/** _preferCodec of lib/services/video_call_service.dart: move one payload type to the
    front of the m=video line. */
module PreferCodec {
  import opened Wrappers
  import opened Text
  import opened CodecPreference
  import opened SdpModel
  import opened SdpLines
  import opened SdpTransform

  const VIDEO := "m=video"

  /** a=rtpmap:(\d+) followed by the codec's name, ignoring case, at the start of `s`. */
  function CodecHere(s: string, codec: string): Option<string> {
    if !StartsWithIgnoreCase(s, RTPMAP) then None
    else
      var rest := s[|RTPMAP|..];
      var d := DigitCount(rest);
      if d > 0 && StartsWithIgnoreCase(rest[d..], Lower(SPACE + codec)) then Some(rest[..d]) else None
  }

  /** firstMatch within one line. */
  function CodecIn(s: string, codec: string): Option<string> {
    if CodecHere(s, codec).Some? then CodecHere(s, codec)
    else if s == "" then None
    else CodecIn(s[1..], codec)
  }

  function PreferredPt(lines: seq<string>, codec: string): Option<string> {
    if lines == [] then None
    else if CodecIn(lines[0], codec).Some? then CodecIn(lines[0], codec)
    else PreferredPt(lines[1..], codec)
  }

  function MoveToFront(pts: seq<string>, pt: string): seq<string> {
    [pt] + RemoveFirst(pts, pt)
  }

  function PreferLine(line: string, pt: string): string {
    if HasPayload(line) && pt in Payload(line) then WithPayload(line, MoveToFront(Payload(line), pt)) else line
  }

  function PreferLines(lines: seq<string>, codec: string): seq<string> {
    match (LineIndex(lines, VIDEO), PreferredPt(lines, codec))
    case (Some(i), Some(pt)) => lines[i := PreferLine(lines[i], pt)]
    case _ => lines
  }

  function Prefer(sdp: string, codec: string): string {
    Join(PreferLines(Split(sdp, CRLF), codec), CRLF)
  }

  /** The m=video line carries no rtpmap text of its own. */
  predicate PlainVideoLine(lines: seq<string>) {
    LineIndex(lines, VIDEO).Some? ==> Free(Lower(lines[LineIndex(lines, VIDEO).value]), RTPMAP)
  }

  // ------------------------------------------------------------------ move to front

  lemma {:induction false} RemoveFirstCount(xs: seq<string>, v: string)
    requires v in xs
    ensures multiset(RemoveFirst(xs, v)) == multiset(xs) - multiset{v}
  {
    assert xs == [xs[0]] + xs[1..];
    if xs[0] != v {
      RemoveFirstCount(xs[1..], v);
    }
  }

  /** Moving to the front permutes, and doing it twice is doing it once. */
  lemma MoveToFrontPermutes(pts: seq<string>, pt: string)
    requires pt in pts
    ensures multiset(MoveToFront(pts, pt)) == multiset(pts)
    ensures MoveToFront(pts, pt)[0] == pt
    ensures MoveToFront(MoveToFront(pts, pt), pt) == MoveToFront(pts, pt)
  {
    RemoveFirstCount(pts, pt);
    RemoveFirstCons(pt, RemoveFirst(pts, pt), pt);
  }

  lemma PreferLineIdempotent(line: string, pt: string)
    ensures PreferLine(PreferLine(line, pt), pt) == PreferLine(line, pt)
  {
    if HasPayload(line) && pt in Payload(line) {
      MoveToFrontPermutes(Payload(line), pt);
      PartsOfRearranged(line, MoveToFront(Payload(line), pt));
    }
  }

  // ----------------------------------------------------------------- which codec it is

  lemma {:induction false} NoRtpMapNoCodec(line: string, codec: string)
    requires Free(Lower(line), RTPMAP)
    ensures CodecIn(line, codec).None?
  {
    FreeMeans(Lower(line), RTPMAP);
    SdpStartsAt(line);
    if line != "" {
      assert Lower(line[1..]) == Lower(line)[1..|line|];
      FreeSlice(Lower(line), RTPMAP, 1, |line|);
      NoRtpMapNoCodec(line[1..], codec);
    }
  }

  lemma SdpStartsAt(line: string)
    ensures StartsWithIgnoreCase(line, RTPMAP) <==> At(Lower(line), RTPMAP, 0)
  {
    if |RTPMAP| <= |line| {
      assert Lower(line[..|RTPMAP|]) == Lower(line)[0..0 + |RTPMAP|];
    }
  }

  lemma {:induction false} PreferredPtUnaffected(lines: seq<string>, other: seq<string>, codec: string)
    requires |lines| == |other| && forall i :: 0 <= i < |lines| ==> CodecIn(other[i], codec) == CodecIn(lines[i], codec)
    ensures PreferredPt(other, codec) == PreferredPt(lines, codec)
  {
    if lines != [] {
      PreferredPtUnaffected(lines[1..], other[1..], codec);
    }
  }

  lemma VideoIsOneWord()
    ensures Free(VIDEO, SPACE)
  {
    FreeMeans(VIDEO, SPACE);
    forall i: nat ensures !At(VIDEO, SPACE, i) {
      if i < 7 { assert VIDEO[i..i + 1][0] != ' '; }
    }
  }

  lemma PreferLineStaysVideo(line: string, pt: string, t: string)
    requires t != "" && ' ' !in t
    ensures VIDEO <= line ==> VIDEO <= PreferLine(line, pt)
    ensures Free(line, t) ==> Free(PreferLine(line, pt), t)
    ensures Free(Lower(line), t) ==> Free(Lower(PreferLine(line, pt)), t)
  {
    if HasPayload(line) && pt in Payload(line) {
      MoveToFrontPermutes(Payload(line), pt);
      var pts := MoveToFront(Payload(line), pt);
      RearrangedIsFree(line, pts, t);
      VideoIsOneWord();
      if VIDEO <= line { StartStays(line, VIDEO, pts); }
    }
  }

  lemma PreferLinesKeeps(lines: seq<string>, codec: string)
    requires PlainVideoLine(lines)
    ensures LineIndex(PreferLines(lines, codec), VIDEO) == LineIndex(lines, VIDEO)
    ensures PreferredPt(PreferLines(lines, codec), codec) == PreferredPt(lines, codec)
    ensures PlainVideoLine(PreferLines(lines, codec))
  {
    var r := PreferLines(lines, codec);
    if LineIndex(lines, VIDEO).Some? && PreferredPt(lines, codec).Some? {
      var i, pt := LineIndex(lines, VIDEO).value, PreferredPt(lines, codec).value;
      PreferLineStaysVideo(lines[i], pt, RTPMAP);
      NoRtpMapNoCodec(lines[i], codec);
      NoRtpMapNoCodec(r[i], codec);
      LineIndexUnaffected(lines, r, VIDEO);
      PreferredPtUnaffected(lines, r, codec);
    }
  }

  lemma SplitPrefer(sdp: string, codec: string)
    ensures Split(Prefer(sdp, codec), CRLF) == PreferLines(Split(sdp, CRLF), codec)
  {
    var lines := Split(sdp, CRLF);
    var r := PreferLines(lines, codec);
    forall p | p in r ensures Free(p, CRLF) {
      var i :| 0 <= i < |r| && r[i] == p;
      assert lines[i] in lines;
      PartsAreFree(sdp, CRLF, lines[i]);
      if r[i] != lines[i] {
        PreferLineStaysVideo(lines[i], PreferredPt(lines, codec).value, CRLF);
      }
    }
    SeparatorsAreBorderFree();
    SplitJoin(r, CRLF);
  }

  lemma PreferLinesIdempotent(lines: seq<string>, codec: string)
    requires PlainVideoLine(lines)
    ensures PreferLines(PreferLines(lines, codec), codec) == PreferLines(lines, codec)
  {
    PreferLinesKeeps(lines, codec);
    if LineIndex(lines, VIDEO).Some? && PreferredPt(lines, codec).Some? {
      var i, pt := LineIndex(lines, VIDEO).value, PreferredPt(lines, codec).value;
      PreferLineIdempotent(lines[i], pt);
      assert PreferLines(lines, codec)[i] == PreferLine(lines[i], pt);
    }
  }

  lemma PreferIdempotent(sdp: string, codec: string)
    requires PlainVideoLine(Split(sdp, CRLF))
    ensures Prefer(Prefer(sdp, codec), codec) == Prefer(sdp, codec)
  {
    SplitPrefer(sdp, codec);
    PreferLinesIdempotent(Split(sdp, CRLF), codec);
  }

  /** Only the m=video line can change; its first three fields stay, its payload types are
      permuted, and the preferred one leads if it was there at all. */
  lemma PreferMovesToFront(sdp: string, codec: string, i: nat)
    requires i < |Split(sdp, CRLF)|
    ensures |Split(Prefer(sdp, codec), CRLF)| == |Split(sdp, CRLF)|
    ensures var before, after := Split(sdp, CRLF)[i], Split(Prefer(sdp, codec), CRLF)[i];
            var pt := PreferredPt(Split(sdp, CRLF), codec);
            if LineIndex(Split(sdp, CRLF), VIDEO) == Some(i) && HasPayload(before) && pt.Some? && pt.value in Payload(before)
            then HasPayload(after) && Split(after, SPACE)[..3] == Split(before, SPACE)[..3] &&
                 Payload(after)[0] == pt.value && multiset(Payload(after)) == multiset(Payload(before)) &&
                 Payload(after)[1..] == RemoveFirst(Payload(before), pt.value)
            else after == before
  {
    SplitPrefer(sdp, codec);
    var line, pt := Split(sdp, CRLF)[i], PreferredPt(Split(sdp, CRLF), codec);
    if HasPayload(line) && pt.Some? && pt.value in Payload(line) {
      MoveToFrontPermutes(Payload(line), pt.value);
      PartsOfRearranged(line, MoveToFront(Payload(line), pt.value));
    }
  }
}
