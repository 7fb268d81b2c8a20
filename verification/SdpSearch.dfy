/** What the scanners that stand for the regular expressions find, said of the text alone: the
    first place where the lower-cased text has an rtpmap attribute of some digits for a codec. */
module SdpSearch {
  import opened Wrappers
  import opened Text
  import opened CodecPreference
  import opened SdpModel
  import opened SdpBridge
  import opened SdpAppend
  import opened PreferCodec

  /** The text at `k`, whatever its case, gives the payload type to a codec of this name. */
  predicate NamesAt(s: string, k: nat, pt: string, codec: string) {
    pt != "" && Digits(pt) && At(Lower(s), "a=rtpmap:" + pt + " " + Lower(codec), k)
  }

  /** The first such place is for this payload type. */
  ghost predicate FirstNamed(s: string, pt: string, codec: string) {
    exists k: nat :: NamesAt(s, k, pt, codec) && forall j: nat, p: string :: j < k ==> !NamesAt(s, j, p, codec)
  }

  /** There is no such place. */
  ghost predicate NotNamed(s: string, codec: string) {
    forall k: nat, p: string :: !NamesAt(s, k, p, codec)
  }

  // ---------------------------------------------------------------------- at one place

  lemma LowerDigits(x: string, pt: string)
    requires Digits(pt)
    ensures Lower(x) == pt <==> x == pt
  {
    assert forall c :: c in pt ==> IsDigit(c) && LowerChar(c) == c;
    if Lower(x) == pt {
      forall i | 0 <= i < |x| ensures x[i] == pt[i] {
        assert Lower(x)[i] == LowerChar(x[i]) && pt[i] in pt;
      }
    }
  }

  lemma LowerParts(x: string, y: string, z: string)
    ensures Lower(x + y + z) == Lower(x) + Lower(y) + Lower(z)
  {
    LowerConcat(x + y, z);
    LowerConcat(x, y);
  }

  lemma PrefixIsAt(s: string, t: string)
    ensures At(s, t, 0) <==> t <= s
  {
  }

  lemma HereIsNamed(s: string, codec: string)
    requires CodecHere(s, codec).Some?
    ensures NamesAt(s, 0, CodecHere(s, codec).value, codec)
  {
    var rest := s[|RTPMAP|..];
    var pt, tail := rest[..DigitCount(rest)], rest[DigitCount(rest)..];
    LowerConcat(SPACE, codec);
    StartsInLower(s[..|RTPMAP|], pt, tail, SPACE + Lower(codec));
    assert s == s[..|RTPMAP|] + pt + tail;
    Associate3(RTPMAP, pt, Lower(codec));
    PrefixIsAt(Lower(s), "a=rtpmap:" + pt + " " + Lower(codec));
  }

  lemma StartsInLower(head: string, pt: string, tail: string, name: string)
    requires Digits(pt) && |name| <= |tail| && Lower(tail[..|name|]) == name
    ensures Lower(head) + pt + name <= Lower(head + pt + tail)
  {
    LowerDigits(pt, pt);
    LowerParts(head, pt, tail);
    assert Lower(tail)[..|name|] == Lower(tail[..|name|]);
    assert Lower(tail) == name + Lower(tail)[|name|..];
  }

  lemma Associate3(x: string, y: string, z: string)
    ensures x + y + (SPACE + z) == x + y + SPACE + z
  {
  }

  lemma CutInThree(s: string, x: string, y: string, z: string)
    requires x + y + z <= Lower(s)
    ensures |x| + |y| + |z| <= |s| && Lower(s[..|x|]) == x && Lower(s[|x|..|x| + |y|]) == y
    ensures z <= Lower(s[|x| + |y|..])
  {
    var low := Lower(s);
    assert low[..|x|] == x by { assert low[..|x|] == (x + y + z)[..|x|]; }
    assert low[|x|..|x| + |y|] == y by { assert low[|x|..|x| + |y|] == (x + y + z)[|x|..|x| + |y|]; }
    assert low[|x| + |y|..][..|z|] == z by {
      assert low[|x| + |y|..][..|z|] == (x + y + z)[|x| + |y|..];
    }
    assert Lower(s[..|x|]) == low[..|x|] && Lower(s[|x|..|x| + |y|]) == low[|x|..|x| + |y|];
    assert Lower(s[|x| + |y|..]) == low[|x| + |y|..];
  }

  /** Digits and what follows them, behind the attribute. */
  lemma DigitsThenName(rest: string, pt: string, name: string)
    requires Digits(pt) && |pt| + |name| <= |rest| && Lower(rest[..|pt|]) == pt
    requires name != "" && name[0] == ' ' && name <= Lower(rest[|pt|..])
    ensures DigitCount(rest) == |pt| && rest[..|pt|] == pt && rest[|pt|] == ' '
  {
    var tail := rest[|pt|..];
    LowerDigits(rest[..|pt|], pt);
    assert rest == pt + tail;
    assert LowerChar(tail[0]) == Lower(tail)[0] == ' ';
    DigitsThenSpace(pt, tail);
  }

  lemma CutRest(s: string, pt: string, name: string)
    requires RTPMAP + pt + name <= Lower(s)
    ensures StartsWithIgnoreCase(s, RTPMAP) && |RTPMAP| + |pt| + |name| <= |s|
    ensures var rest := s[|RTPMAP|..]; Lower(rest[..|pt|]) == pt && name <= Lower(rest[|pt|..])
  {
    CutInThree(s, RTPMAP, pt, name);
    assert s[|RTPMAP|..][..|pt|] == s[|RTPMAP|..|RTPMAP| + |pt|] && s[|RTPMAP|..][|pt|..] == s[|RTPMAP| + |pt|..];
  }

  lemma LowerStart(tail: string, name: string)
    requires name <= Lower(tail)
    ensures Lower(tail[..|name|]) == name
  {
    assert Lower(tail[..|name|]) == Lower(tail)[..|name|];
  }

  lemma HereWhen(s: string, pt: string, codec: string)
    requires StartsWithIgnoreCase(s, RTPMAP)
    requires var rest := s[|RTPMAP|..];
             pt != "" && DigitCount(rest) == |pt| && rest[..|pt|] == pt && SPACE + Lower(codec) <= Lower(rest[|pt|..])
    ensures CodecHere(s, codec) == Some(pt)
  {
    LowerConcat(SPACE, codec);
    LowerStart(s[|RTPMAP|..][|pt|..], SPACE + Lower(codec));
  }

  lemma NamedParts(s: string, pt: string, codec: string)
    requires NamesAt(s, 0, pt, codec)
    ensures RTPMAP + pt + (SPACE + Lower(codec)) <= Lower(s)
  {
    PrefixIsAt(Lower(s), "a=rtpmap:" + pt + " " + Lower(codec));
    Associate3(RTPMAP, pt, Lower(codec));
  }

  lemma NamedIsHere(s: string, pt: string, codec: string)
    requires NamesAt(s, 0, pt, codec)
    ensures CodecHere(s, codec) == Some(pt)
  {
    NamedParts(s, pt, codec);
    CutRest(s, pt, SPACE + Lower(codec));
    DigitsThenName(s[|RTPMAP|..], pt, SPACE + Lower(codec));
    HereWhen(s, pt, codec);
  }

  lemma CodecHereIff(s: string, pt: string, codec: string)
    ensures CodecHere(s, codec) == Some(pt) <==> NamesAt(s, 0, pt, codec)
  {
    if CodecHere(s, codec).Some? {
      HereIsNamed(s, codec);
    }
    if NamesAt(s, 0, pt, codec) {
      NamedIsHere(s, pt, codec);
    }
  }

  // ------------------------------------------------------------------- the first place

  lemma NamesLater(s: string, k: nat, pt: string, codec: string)
    requires s != ""
    ensures NamesAt(s, k + 1, pt, codec) <==> NamesAt(s[1..], k, pt, codec)
  {
    AtTail(Lower(s), "a=rtpmap:" + pt + " " + Lower(codec));
    assert Lower(s)[1..] == Lower(s[1..]);
  }

  lemma NotNamedNext(s: string, codec: string)
    requires s != "" && CodecHere(s, codec).None?
    ensures NotNamed(s, codec) <==> NotNamed(s[1..], codec)
    ensures forall pt :: FirstNamed(s, pt, codec) <==> FirstNamed(s[1..], pt, codec)
  {
    forall p ensures !NamesAt(s, 0, p, codec) {
      CodecHereIff(s, p, codec);
    }
    forall k: nat, p ensures NamesAt(s, k + 1, p, codec) <==> NamesAt(s[1..], k, p, codec) {
      NamesLater(s, k, p, codec);
    }
    NextPlace(s, codec);
  }

  lemma NextPlace(s: string, codec: string)
    requires s != "" && (forall p :: !NamesAt(s, 0, p, codec))
    requires forall k: nat, p :: NamesAt(s, k + 1, p, codec) <==> NamesAt(s[1..], k, p, codec)
    ensures NotNamed(s, codec) <==> NotNamed(s[1..], codec)
    ensures forall pt :: FirstNamed(s, pt, codec) <==> FirstNamed(s[1..], pt, codec)
  {
    assert forall k: nat, p :: k > 0 ==> (NamesAt(s, k, p, codec) <==> NamesAt(s[1..], k - 1, p, codec));
    forall pt ensures FirstNamed(s, pt, codec) <==> FirstNamed(s[1..], pt, codec) {
      if FirstNamed(s, pt, codec) {
        var k: nat :| NamesAt(s, k, pt, codec) && forall j: nat, p: string :: j < k ==> !NamesAt(s, j, p, codec);
        assert NamesAt(s[1..], k - 1, pt, codec);
        forall j: nat, p: string | j < k - 1 ensures !NamesAt(s[1..], j, p, codec) {
          assert !NamesAt(s, j + 1, p, codec);
        }
      }
      if FirstNamed(s[1..], pt, codec) {
        var k: nat :| NamesAt(s[1..], k, pt, codec) &&
                      forall j: nat, p: string :: j < k ==> !NamesAt(s[1..], j, p, codec);
        assert NamesAt(s, k + 1, pt, codec);
      }
    }
  }

  /** A search through a text finds the first place, and nothing only if there is none. */
  lemma {:induction false} CodecInIff(s: string, codec: string)
    ensures forall pt :: CodecIn(s, codec) == Some(pt) <==> FirstNamed(s, pt, codec)
    ensures CodecIn(s, codec) == None <==> NotNamed(s, codec)
  {
    if CodecHere(s, codec).Some? {
      HereIsNamed(s, codec);
      forall pt ensures FirstNamed(s, pt, codec) <==> CodecHere(s, codec) == Some(pt) {
        CodecHereIff(s, pt, codec);
        OnlyTheFirst(s, pt, CodecHere(s, codec).value, codec);
      }
    } else if s == "" {
      forall k: nat, p ensures !NamesAt(s, k, p, codec) {
      }
    } else {
      NotNamedNext(s, codec);
      CodecInIff(s[1..], codec);
    }
  }

  lemma OnlyTheFirst(s: string, pt: string, here: string, codec: string)
    requires NamesAt(s, 0, here, codec)
    ensures FirstNamed(s, pt, codec) <==> NamesAt(s, 0, pt, codec)
  {
    if FirstNamed(s, pt, codec) {
      var k: nat :| NamesAt(s, k, pt, codec) && forall j: nat, p: string :: j < k ==> !NamesAt(s, j, p, codec);
      assert k == 0;
    }
  }

  lemma OpusIsACodec(s: string)
    ensures OpusHere(s) == CodecHere(s, "opus/48000/2")
  {
    LiteralsAreLower();
    assert SPACE + "opus/48000/2" == OPUS;
  }

  /** firstMatch of the Opus pattern. */
  lemma {:induction false} FirstOpusIff(s: string)
    ensures FirstOpus(s) == CodecIn(s, "opus/48000/2")
    ensures forall pt :: FirstOpus(s) == Some(pt) <==> FirstNamed(s, pt, "opus/48000/2")
    ensures FirstOpus(s) == None <==> NotNamed(s, "opus/48000/2")
  {
    OpusIsACodec(s);
    CodecInIff(s, "opus/48000/2");
    if s != "" {
      FirstOpusIff(s[1..]);
    }
  }

  // --------------------------------------------------------------------- line by line

  /** The first line with such a place has its first one for this payload type. */
  ghost predicate FirstLineNames(lines: seq<string>, pt: string, codec: string) {
    exists i :: 0 <= i < |lines| && FirstNamed(lines[i], pt, codec) &&
                forall j :: 0 <= j < i ==> NotNamed(lines[j], codec)
  }

  ghost predicate NoLineNames(lines: seq<string>, codec: string) {
    forall i :: 0 <= i < |lines| ==> NotNamed(lines[i], codec)
  }

  lemma FirstIsNamed(s: string, pt: string, codec: string)
    requires FirstNamed(s, pt, codec)
    ensures !NotNamed(s, codec)
  {
  }

  lemma LaterLines(line: string, more: seq<string>, pt: string, codec: string)
    requires NotNamed(line, codec)
    ensures FirstLineNames([line] + more, pt, codec) <==> FirstLineNames(more, pt, codec)
  {
    var lines := [line] + more;
    assert lines[0] == line && lines[1..] == more;
    if FirstLineNames(lines, pt, codec) {
      NotTheFirst(lines, more, pt, codec);
    }
    if FirstLineNames(more, pt, codec) {
      StillTheFirst(lines, more, pt, codec);
    }
  }

  lemma NoneLater(line: string, more: seq<string>, codec: string)
    requires NotNamed(line, codec)
    ensures NoLineNames([line] + more, codec) <==> NoLineNames(more, codec)
  {
    var lines := [line] + more;
    if NoLineNames(lines, codec) {
      forall i | 0 <= i < |more| ensures NotNamed(more[i], codec) {
        assert NotNamed(lines[i + 1], codec);
      }
    }
  }

  lemma StillTheFirst(lines: seq<string>, more: seq<string>, pt: string, codec: string)
    requires lines != [] && FirstLineNames(more, pt, codec) && NotNamed(lines[0], codec) && lines[1..] == more
    ensures FirstLineNames(lines, pt, codec)
  {
    var i :| 0 <= i < |more| && FirstNamed(more[i], pt, codec) && forall j :: 0 <= j < i ==> NotNamed(more[j], codec);
    assert FirstNamed(lines[i + 1], pt, codec);
    forall j | 0 <= j < i + 1 ensures NotNamed(lines[j], codec) {
      if j > 0 { assert NotNamed(more[j - 1], codec); }
    }
  }

  lemma NotTheFirst(lines: seq<string>, more: seq<string>, pt: string, codec: string)
    requires lines != [] && FirstLineNames(lines, pt, codec) && NotNamed(lines[0], codec) && lines[1..] == more
    ensures FirstLineNames(more, pt, codec)
  {
    var i :| 0 <= i < |lines| && FirstNamed(lines[i], pt, codec) && forall j :: 0 <= j < i ==> NotNamed(lines[j], codec);
    FirstIsNamed(lines[i], pt, codec);
    assert FirstNamed(more[i - 1], pt, codec);
    forall j | 0 <= j < i - 1 ensures NotNamed(more[j], codec) {
      assert NotNamed(lines[j + 1], codec);
    }
  }

  lemma AtTheFirstLine(line: string, more: seq<string>, pt: string, codec: string)
    requires !NotNamed(line, codec)
    ensures FirstLineNames([line] + more, pt, codec) <==> FirstNamed(line, pt, codec)
    ensures !NoLineNames([line] + more, codec)
  {
    var lines := [line] + more;
    assert lines[0] == line;
  }

  /** The payload type that is preferred is that of the first line that names the codec, at the
      first place where that line does; there is none if and only if no line does. */
  lemma {:induction false} PreferredPtIff(lines: seq<string>, codec: string)
    ensures forall pt :: PreferredPt(lines, codec) == Some(pt) <==> FirstLineNames(lines, pt, codec)
    ensures PreferredPt(lines, codec) == None <==> NoLineNames(lines, codec)
  {
    if lines != [] {
      var line, more := lines[0], lines[1..];
      assert lines == [line] + more;
      CodecInIff(line, codec);
      PreferredPtIff(more, codec);
      forall pt ensures PreferredPt(lines, codec) == Some(pt) <==> FirstLineNames(lines, pt, codec) {
        if NotNamed(line, codec) {
          LaterLines(line, more, pt, codec);
        } else {
          AtTheFirstLine(line, more, pt, codec);
        }
      }
      if NotNamed(line, codec) {
        NoneLater(line, more, codec);
      } else {
        AtTheFirstLine(line, more, "", codec);
      }
    }
  }

  /** Where the first line that names the codec does so for `pt`, only the first m=video line
      can change: if it offers `pt`, then `pt` is taken out at its first place and put in
      front, its first three fields and the order of the others being kept. */
  lemma PreferMovesTheNamedType(sdp: string, codec: string, pt: string, i: nat)
    requires FirstLineNames(Split(sdp, CRLF), pt, codec) && i < |Split(sdp, CRLF)|
    ensures |Split(Prefer(sdp, codec), CRLF)| == |Split(sdp, CRLF)|
    ensures var before, after := Split(sdp, CRLF)[i], Split(Prefer(sdp, codec), CRLF)[i];
            if LineIndex(Split(sdp, CRLF), "m=video") == Some(i) && HasPayload(before) && pt in Payload(before)
            then HasPayload(after) && Split(after, SPACE)[..3] == Split(before, SPACE)[..3] &&
                 Payload(after) == [pt] + RemoveFirst(Payload(before), pt)
            else after == before
  {
    PreferredPtIff(Split(sdp, CRLF), codec);
    PreferMovesToFront(sdp, codec, i);
  }

  /** Where no line names the codec, nothing changes. */
  lemma PreferNothing(sdp: string, codec: string)
    requires NoLineNames(Split(sdp, CRLF), codec)
    ensures Prefer(sdp, codec) == sdp
  {
    PreferredPtIff(Split(sdp, CRLF), codec);
    JoinSplit(sdp, CRLF);
  }

  // ------------------------------------------------------------------ the table of codecs

  /** The whole line, whatever its case, gives the payload type this codec. */
  predicate IsRtpMap(line: string, pt: string, codec: string) {
    && pt != "" && Digits(pt) && codec != "" && Lower(line) == "a=rtpmap:" + pt + " " + codec
    && forall c :: c in line ==> !IsLineEnd(c)
  }

  lemma ParsedIsRtpMap(line: string)
    requires ParseRtpMap(line).Some?
    ensures IsRtpMap(line, ParseRtpMap(line).value.0, ParseRtpMap(line).value.1)
  {
    var rest := line[|RTPMAP|..];
    var pt, codec := rest[..DigitCount(rest)], rest[DigitCount(rest) + 1..];
    var head := line[..|RTPMAP|];
    assert line == head + pt + (SPACE + codec);
    LowerDigits(pt, pt);
    LowerParts(head, pt, SPACE + codec);
    LowerConcat(SPACE, codec);
    Associate3(RTPMAP, pt, Lower(codec));
    NoLineEndsBefore(head, pt);
  }

  lemma NoLineEndsBefore(head: string, pt: string)
    requires Lower(head) == RTPMAP && Digits(pt)
    ensures forall c :: c in head + pt ==> !IsLineEnd(c)
  {
    forall i | 0 <= i < |head| ensures !IsLineEnd(head[i]) {
      assert LowerChar(head[i]) == RTPMAP[i];
    }
  }

  lemma RtpMapIsParsed(line: string, pt: string, codec: string)
    requires IsRtpMap(line, pt, codec)
    ensures ParseRtpMap(line) == Some((pt, codec))
  {
    var name := SPACE + codec;
    Associate3(RTPMAP, pt, codec);
    CutRest(line, pt, name);
    var rest := line[|RTPMAP|..];
    DigitsThenName(rest, pt, name);
    RestIsCodec(rest[|pt|..], codec);
    assert rest[|pt|..][1..] == rest[|pt| + 1..];
  }

  lemma RestIsCodec(tail: string, codec: string)
    requires SPACE + codec <= Lower(tail) && |tail| == |codec| + 1
    ensures Lower(tail[1..]) == codec
  {
    assert Lower(tail) == SPACE + codec;
    assert Lower(tail[1..]) == Lower(tail)[1..];
  }

  lemma ParseRtpMapIff(line: string, pt: string, codec: string)
    ensures ParseRtpMap(line) == Some((pt, codec)) <==> IsRtpMap(line, pt, codec)
  {
    if ParseRtpMap(line).Some? {
      ParsedIsRtpMap(line);
    }
    if IsRtpMap(line, pt, codec) {
      RtpMapIsParsed(line, pt, codec);
    }
  }

  /** Line i gives the payload type this codec, and no later line gives it any. */
  ghost predicate LastGivenAt(lines: seq<string>, i: nat, pt: string, codec: string) {
    i < |lines| && IsRtpMap(lines[i], pt, codec) &&
    forall j, c: string :: i < j < |lines| ==> !IsRtpMap(lines[j], pt, c)
  }

  /** The table holds what the last line for a payload type says. */
  lemma {:induction false} RtpTableIff(lines: seq<string>, pt: string, codec: string)
    ensures pt in RtpTable(lines) && RtpTable(lines)[pt] == codec <==> exists i: nat :: LastGivenAt(lines, i, pt, codec)
  {
    if lines != [] {
      var before, last := lines[..|lines| - 1], lines[|lines| - 1];
      RtpTableIff(before, pt, codec);
      forall c: string ensures ParseRtpMap(last) == Some((pt, c)) <==> IsRtpMap(last, pt, c) {
        ParseRtpMapIff(last, pt, c);
      }
      LastGivenNext(before, last, pt, codec);
      assert lines == before + [last];
    }
  }

  lemma LastGivenNext(before: seq<string>, last: string, pt: string, codec: string)
    ensures (exists i: nat :: LastGivenAt(before + [last], i, pt, codec)) <==>
            || IsRtpMap(last, pt, codec)
            || ((forall c: string :: !IsRtpMap(last, pt, c)) && exists i: nat :: LastGivenAt(before, i, pt, codec))
  {
    var lines := before + [last];
    if IsRtpMap(last, pt, codec) {
      assert LastGivenAt(lines, |before|, pt, codec);
    } else {
      assert !LastGivenAt(lines, |before|, pt, codec);
      forall i: nat | i < |before|
        ensures LastGivenAt(lines, i, pt, codec) <==>
                LastGivenAt(before, i, pt, codec) && forall c: string :: !IsRtpMap(last, pt, c)
      {
        EarlierGiven(before, last, i, pt, codec);
      }
      assert forall i: nat :: LastGivenAt(lines, i, pt, codec) ==> i < |before|;
    }
  }

  lemma EarlierGiven(before: seq<string>, last: string, i: nat, pt: string, codec: string)
    requires i < |before|
    ensures LastGivenAt(before + [last], i, pt, codec) <==>
            LastGivenAt(before, i, pt, codec) && forall c: string :: !IsRtpMap(last, pt, c)
  {
    var lines := before + [last];
    assert lines[|before|] == last && forall j :: 0 <= j < |before| ==> lines[j] == before[j];
  }
}
