/** The rewriting steps line by line: each changes few lines, none changes the rtpmap
    table, each is idempotent, and they commute. */
module SdpLines {
  import opened Wrappers
  import opened Text
  import opened CodecPreference
  import opened SdpModel

  // --------------------------------------------------------------- the rtpmap table

  lemma {:induction false} RtpTableUnaffected(lines: seq<string>, other: seq<string>)
    requires |lines| == |other|
    requires forall i :: 0 <= i < |lines| ==> ParseRtpMap(other[i]) == ParseRtpMap(lines[i])
    ensures RtpTable(other) == RtpTable(lines)
  {
    if lines != [] {
      RtpTableUnaffected(lines[..|lines| - 1], other[..|other| - 1]);
    }
  }

  lemma NotAnRtpMap(line: string)
    requires line == "" || (line[0] != 'a' && line[0] != 'A') || FMTP <= line
    ensures ParseRtpMap(line).None? && OpusHere(line).None?
  {
    RtpMapLetters(line);
  }

  lemma RtpMapLetters(line: string)
    ensures StartsWithIgnoreCase(line, RTPMAP) ==>
              |line| > 2 && (line[0] == 'a' || line[0] == 'A') && (line[2] == 'r' || line[2] == 'R')
  {
    if StartsWithIgnoreCase(line, RTPMAP) {
      assert Lower(line[..|RTPMAP|])[0] == 'a' && Lower(line[..|RTPMAP|])[2] == 'r';
    }
  }

  // ---------------------------------------------------------------- one m-line

  ghost predicate SamePayload(line: string, pts: seq<string>) {
    HasPayload(line) && multiset(pts) == multiset(Payload(line))
  }

  lemma MovedParts(line: string, pts: seq<string>)
    requires SamePayload(line, pts)
    ensures |pts| == |Payload(line)|
    ensures forall p :: p in Split(line, SPACE)[..3] + pts ==> p in Split(line, SPACE)
  {
    assert |multiset(pts)| == |multiset(Payload(line))|;
    forall p | p in pts ensures p in Split(line, SPACE) {
      assert p in multiset(pts);
      assert p in Payload(line);
    }
  }

  /** Rearranging the payload types changes the parts accordingly and nothing else. */
  lemma PartsOfRearranged(line: string, pts: seq<string>)
    requires SamePayload(line, pts)
    ensures Split(WithPayload(line, pts), SPACE) == Split(line, SPACE)[..3] + pts
    ensures HasPayload(WithPayload(line, pts)) && Payload(WithPayload(line, pts)) == pts
    ensures forall qs :: WithPayload(WithPayload(line, pts), qs) == WithPayload(line, qs)
  {
    var moved := Split(line, SPACE)[..3] + pts;
    MovedParts(line, pts);
    forall p | p in moved ensures Free(p, SPACE) {
      PartsAreFree(line, SPACE, p);
    }
    SeparatorsAreBorderFree();
    SplitJoin(moved, SPACE);
    assert moved[..3] == Split(line, SPACE)[..3];
  }

  lemma ReorderLineIsRearranged(line: string, pref: Preference)
    requires HasPayload(line)
    ensures SamePayload(line, Preferred(pref, Payload(line)))
  {
    PreferredIsPermutation(pref, Payload(line));
  }

  lemma ReorderLineIdempotent(line: string, pref: Preference)
    ensures ReorderLine(ReorderLine(line, pref), pref) == ReorderLine(line, pref)
  {
    if HasPayload(line) {
      ReorderLineIsRearranged(line, pref);
      PartsOfRearranged(line, Preferred(pref, Payload(line)));
      PreferredIdempotent(pref, Payload(line));
    }
  }

  lemma NoSpaces(word: string)
    requires Free(word, SPACE)
    ensures forall i :: 0 <= i < |word| ==> word[i] != ' '
  {
    FreeMeans(word, SPACE);
    forall i | 0 <= i < |word| ensures word[i] != ' ' {
      assert !At(word, SPACE, i) && word[i..i + 1] == [word[i]];
    }
  }

  /** Text without a space at the start of the line stays there. */
  lemma StartStays(line: string, word: string, pts: seq<string>)
    requires Free(word, SPACE) && word <= line && SamePayload(line, pts)
    ensures word <= WithPayload(line, pts)
    ensures word + SPACE <= line ==> word + SPACE <= WithPayload(line, pts)
  {
    var parts := Split(line, SPACE);
    MovedParts(line, pts);
    JoinCons(parts[0], parts[1..3] + pts, SPACE);
    assert parts[..3] + pts == [parts[0]] + (parts[1..3] + pts);
    FindIsFirst(line, SPACE);
    var n := Find(line, SPACE).value;
    assert parts[0] == line[..n] && line[n] == ' ';
    NoSpaces(word);
    assert forall i :: 0 <= i < |word| ==> line[i] == word[i];
    assert word <= parts[0];
    if word + SPACE <= line {
      assert line[|word|..|word| + 1] == SPACE;
      assert At(line, SPACE, |word|);
      assert parts[0] == word;
    }
  }

  // --------------------------------------------------------------- reordering lines

  /** A media type without spaces, as in every m-line. */
  ghost predicate IsMedia(media: string) {
    Free(media, SPACE)
  }

  lemma MediaWord(media: string)
    requires IsMedia(media)
    ensures Free("m=" + media, SPACE) && MediaPrefix(media) == ("m=" + media) + SPACE
  {
    FreeMeans(media, SPACE);
    FreeMeans("m=" + media, SPACE);
    forall i: nat ensures !At("m=" + media, SPACE, i) {
      if At("m=" + media, SPACE, i) {
        assert ("m=" + media)[i..i + 1][0] == ' ';
        assert i >= 2 && media[i - 2..i - 1] == SPACE;
        assert At(media, SPACE, i - 2);
      }
    }
  }

  lemma MediaPrefixStays(line: string, media: string, pref: Preference)
    requires IsMedia(media) && MediaPrefix(media) <= line
    ensures MediaPrefix(media) <= ReorderLine(line, pref)
  {
    MediaWord(media);
    if HasPayload(line) {
      ReorderLineIsRearranged(line, pref);
      assert "m=" + media == line[..|"m=" + media|];
      StartStays(line, "m=" + media, Preferred(pref, Payload(line)));
    }
  }

  /** Reordering touches one line, which stays an m-line of the same medium. */
  lemma ReorderTouchesOneLine(lines: seq<string>, media: string, codecs: seq<string>, i: nat)
    requires IsMedia(media) && i < |lines|
    ensures ReorderLines(lines, media, codecs)[i] != lines[i] ==> LineIndex(lines, MediaPrefix(media)) == Some(i)
    ensures MediaPrefix(media) <= ReorderLines(lines, media, codecs)[i] <==> MediaPrefix(media) <= lines[i]
    ensures ReorderLines(lines, media, codecs)[i] != lines[i] ==> MediaPrefix(media) <= lines[i]
  {
    if MediaPrefix(media) <= lines[i] {
      MediaPrefixStays(lines[i], media, Preference(RtpTable(lines), codecs));
    }
  }

  lemma ReorderKeepsTable(lines: seq<string>, media: string, codecs: seq<string>)
    requires IsMedia(media)
    ensures RtpTable(ReorderLines(lines, media, codecs)) == RtpTable(lines)
  {
    var r := ReorderLines(lines, media, codecs);
    forall i | 0 <= i < |lines| ensures ParseRtpMap(r[i]) == ParseRtpMap(lines[i]) {
      ReorderTouchesOneLine(lines, media, codecs, i);
      if r[i] != lines[i] {
        MLinesStartWithM(lines[i], media);
        MLinesStartWithM(r[i], media);
        NotAnRtpMap(lines[i]);
        NotAnRtpMap(r[i]);
      }
    }
    RtpTableUnaffected(lines, r);
  }

  lemma MLinesStartWithM(line: string, media: string)
    requires MediaPrefix(media) <= line
    ensures |line| > 0 && line[0] == 'm'
  {
  }

  /** If the same lines carry the prefix, the first of them is the same. */
  lemma LineIndexUnaffected(lines: seq<string>, other: seq<string>, prefix: string)
    requires |lines| == |other| && forall i :: 0 <= i < |lines| ==> (prefix <= other[i] <==> prefix <= lines[i])
    ensures LineIndex(other, prefix) == LineIndex(lines, prefix)
  {
  }

  lemma ReorderLinesIdempotent(lines: seq<string>, media: string, codecs: seq<string>)
    requires IsMedia(media)
    ensures ReorderLines(ReorderLines(lines, media, codecs), media, codecs) == ReorderLines(lines, media, codecs)
  {
    var r, prefix := ReorderLines(lines, media, codecs), MediaPrefix(media);
    ReorderKeepsTable(lines, media, codecs);
    forall i | 0 <= i < |lines| ensures prefix <= r[i] <==> prefix <= lines[i] {
      ReorderTouchesOneLine(lines, media, codecs, i);
    }
    LineIndexUnaffected(lines, r, prefix);
    if LineIndex(lines, prefix).Some? {
      ReorderLineIdempotent(lines[LineIndex(lines, prefix).value], Preference(RtpTable(lines), codecs));
    }
  }

  /** Neither prefix starts the other, so no line is an m-line of both media. */
  ghost predicate Distinct(one: string, other: string) {
    !(MediaPrefix(one) <= MediaPrefix(other)) && !(MediaPrefix(other) <= MediaPrefix(one))
  }

  lemma NotBoth(line: string, one: string, other: string)
    requires Distinct(one, other) && MediaPrefix(one) <= line
    ensures !(MediaPrefix(other) <= line)
  {
    PrefixesNest(MediaPrefix(one), MediaPrefix(other), line);
  }

  lemma PrefixesNest(p: string, q: string, line: string)
    requires p <= line
    ensures q <= line ==> p <= q || q <= p
  {
    if q <= line {
      if |p| <= |q| { assert p == line[..|p|] == q[..|p|]; } else { assert q == line[..|q|] == p[..|q|]; }
    }
  }

  /** Reordering one medium does not disturb where the other's m-line is, or its ranks. */
  lemma ReorderKeepsOther(lines: seq<string>, one: string, codecs: seq<string>, other: string)
    requires IsMedia(one) && Distinct(one, other)
    ensures LineIndex(ReorderLines(lines, one, codecs), MediaPrefix(other)) == LineIndex(lines, MediaPrefix(other))
    ensures RtpTable(ReorderLines(lines, one, codecs)) == RtpTable(lines)
  {
    var r := ReorderLines(lines, one, codecs);
    forall i | 0 <= i < |lines| ensures MediaPrefix(other) <= r[i] <==> MediaPrefix(other) <= lines[i] {
      ReorderTouchesOneLine(lines, one, codecs, i);
      if r[i] != lines[i] {
        NotBoth(lines[i], one, other);
        NotBoth(r[i], one, other);
      }
    }
    LineIndexUnaffected(lines, r, MediaPrefix(other));
    ReorderKeepsTable(lines, one, codecs);
  }

  /** Audio and video reordering commute. */
  lemma ReordersCommute(lines: seq<string>, one: string, p: seq<string>, other: string, q: seq<string>)
    requires IsMedia(one) && IsMedia(other) && Distinct(one, other)
    ensures ReorderLines(ReorderLines(lines, one, p), other, q) == ReorderLines(ReorderLines(lines, other, q), one, p)
  {
    ReorderKeepsOther(lines, one, p, other);
    ReorderKeepsOther(lines, other, q, one);
    var i, j := LineIndex(lines, MediaPrefix(one)), LineIndex(lines, MediaPrefix(other));
    if i.Some? && j.Some? {
      NotBoth(lines[i.value], one, other);
      var table := RtpTable(lines);
      TwoUpdates(lines, i.value, ReorderLine(lines[i.value], Preference(table, p)),
                 j.value, ReorderLine(lines[j.value], Preference(table, q)));
    }
  }

  lemma TwoUpdates(lines: seq<string>, i: nat, x: string, j: nat, y: string)
    requires i < |lines| && j < |lines| && i != j
    ensures lines[i := x][j := y] == lines[j := y][i := x]
  {
  }

  // ------------------------------------------------------------------ the fmtp lines

  predicate IsFmtp(line: string, head: string) {
    head <= line && |head| < |line|
  }

  /** The replacing branch of injectOpusFmtp, on lines. */
  function ReplaceFmtpLines(lines: seq<string>, head: string, fmtp: string): (r: seq<string>)
    ensures |r| == |lines|
  {
    seq(|lines|, i requires 0 <= i < |lines| => if IsFmtp(lines[i], head) then fmtp else lines[i])
  }

  lemma FmtpHeadStarts(line: string, pt: string)
    requires FmtpHead(pt) <= line
    ensures FMTP <= line && |line| > 0 && line[0] == 'a'
  {
    assert FmtpHead(pt)[..|FMTP|] == FMTP;
    assert line[..|FMTP|] == FmtpHead(pt)[..|FMTP|];
  }

  lemma FmtpLineIsFmtp(pt: string, lowLatency: bool)
    ensures IsFmtp(FmtpLine(pt, lowLatency), FmtpHead(pt))
  {
  }

  lemma ReplaceFmtpIdempotent(lines: seq<string>, pt: string, lowLatency: bool)
    ensures var head, fmtp := FmtpHead(pt), FmtpLine(pt, lowLatency);
            ReplaceFmtpLines(ReplaceFmtpLines(lines, head, fmtp), head, fmtp) == ReplaceFmtpLines(lines, head, fmtp)
  {
    FmtpLineIsFmtp(pt, lowLatency);
  }

  /** Replacing fmtp lines disturbs neither the rtpmap table nor any m-line. */
  lemma ReplaceFmtpKeeps(lines: seq<string>, pt: string, lowLatency: bool, media: string)
    ensures var r := ReplaceFmtpLines(lines, FmtpHead(pt), FmtpLine(pt, lowLatency));
            RtpTable(r) == RtpTable(lines) &&
            LineIndex(r, MediaPrefix(media)) == LineIndex(lines, MediaPrefix(media))
  {
    var r := ReplaceFmtpLines(lines, FmtpHead(pt), FmtpLine(pt, lowLatency));
    FmtpLineIsFmtp(pt, lowLatency);
    forall i | 0 <= i < |lines|
      ensures ParseRtpMap(r[i]) == ParseRtpMap(lines[i])
      ensures MediaPrefix(media) <= r[i] <==> MediaPrefix(media) <= lines[i]
    {
      if IsFmtp(lines[i], FmtpHead(pt)) {
        FmtpHeadStarts(lines[i], pt);
        FmtpHeadStarts(r[i], pt);
        NotAnRtpMap(lines[i]);
        NotAnRtpMap(r[i]);
      }
    }
    RtpTableUnaffected(lines, r);
    LineIndexUnaffected(lines, r, MediaPrefix(media));
  }

  lemma ReplaceFmtpCommutes(lines: seq<string>, pt: string, lowLatency: bool, media: string, codecs: seq<string>)
    requires IsMedia(media)
    ensures ReplaceFmtpLines(ReorderLines(lines, media, codecs), FmtpHead(pt), FmtpLine(pt, lowLatency))
         == ReorderLines(ReplaceFmtpLines(lines, FmtpHead(pt), FmtpLine(pt, lowLatency)), media, codecs)
  {
    var head, fmtp := FmtpHead(pt), FmtpLine(pt, lowLatency);
    ReplaceFmtpKeeps(lines, pt, lowLatency, media);
    var index := LineIndex(lines, MediaPrefix(media));
    if index.Some? {
      var i := index.value;
      ReorderTouchesOneLine(lines, media, codecs, i);
      var r := ReorderLines(lines, media, codecs);
      MLinesStartWithM(lines[i], media);
      MLinesStartWithM(r[i], media);
      NotFmtp(lines[i], pt);
      NotFmtp(r[i], pt);
    }
  }

  lemma NotFmtp(line: string, pt: string)
    requires |line| > 0 && line[0] == 'm'
    ensures !IsFmtp(line, FmtpHead(pt))
  {
  }
}
