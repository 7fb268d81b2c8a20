/** The plain case of transforming twice: a text with one Opus whose line is overwritten. */
module SdpOneOpus {
  import opened Wrappers
  import opened Text
  import opened StableSort
  import opened CodecPreference
  import opened CodecNames
  import opened SdpModel
  import opened SdpLines
  import opened SdpBridge
  import opened SdpAppendLines
  import opened SdpTransform
  import opened SdpAppend
  import opened SdpRest
  import opened SdpIdempotence
  import opened SdpSamples

  // ---------------------------------------------------------------------- moved to the end

  lemma PreferredMembers(pref: Preference, pts: seq<string>, q: string)
    ensures q in Preferred(pref, pts) <==> q in pts
  {
    PreferredIsPermutation(pref, pts);
    assert q in Preferred(pref, pts) <==> q in multiset(Preferred(pref, pts));
    assert q in pts <==> q in multiset(pts);
  }

  lemma PreferredIsSorted(pref: Preference, pts: seq<string>)
    ensures Sorted(RankAll(pref, Preferred(pref, pts)))
  {
    PreferredIsTheStableSort(pref, pts, Preferred(pref, pts));
  }

  lemma SameRanksSorted(p1: Preference, p2: Preference, s: seq<string>)
    requires Sorted(RankAll(p1, s)) && forall q :: q in s ==> Rank(p2, q) == Rank(p1, q)
    ensures Sorted(RankAll(p2, s))
  {
    assert RankAll(p2, s) == RankAll(p1, s);
  }

  lemma EqualRanksSorted(pref: Preference, s: seq<string>, r: nat)
    requires forall q :: q in s ==> Rank(pref, q) == r
    ensures Sorted(RankAll(pref, s))
  {
    forall i | 0 <= i < |s| ensures RankAll(pref, s)[i].rank == r {
      assert s[i] in s;
    }
  }

  /** Two elements whose ranks one table orders one way and the other the other way. */
  lemma SwappedRanks(p1: Preference, p2: Preference, s: seq<string>, pt: string, q: string)
    requires pt in s && q in s && Rank(p1, pt) < Rank(p1, q) && Rank(p2, q) < Rank(p2, pt)
    ensures Sorted(RankAll(p1, s)) ==> !Sorted(RankAll(p2, s))
  {
    var i :| 0 <= i < |s| && s[i] == pt;
    var j :| 0 <= j < |s| && s[j] == q;
    var r1, r2 := RankAll(p1, s), RankAll(p2, s);
    assert r1[i].rank < r1[j].rank && r2[j].rank < r2[i].rank;
  }

  lemma MovedLast(p1: Preference, p2: Preference, s: seq<string>, pt: string)
    requires Sorted(RankAll(p1, s))
    requires p1.codecs == p2.codecs && Rank(p1, pt) == 0 && Rank(p2, pt) == |p1.codecs|
    requires forall q :: q in s && q != pt ==> Rank(p2, q) == Rank(p1, q) > 0
    ensures Sorted(RankAll(p2, s)) <==> !(pt in s && exists q :: q in s && q != pt && Rank(p1, q) < |p1.codecs|)
  {
    if pt !in s {
      SameRanksSorted(p1, p2, s);
    } else if q :| q in s && q != pt && Rank(p1, q) < |p1.codecs| {
      SwappedRanks(p1, p2, s, pt, q);
    } else {
      EqualRanksSorted(p2, s, |p1.codecs|);
    }
  }

  /** Dropping the most preferred payload type to the end changes a sorted order exactly when
      another preferred one is behind it. */
  lemma MovedLastIff(p1: Preference, p2: Preference, pts: seq<string>, pt: string)
    requires p1.codecs == p2.codecs && Rank(p1, pt) == 0 && Rank(p2, pt) == |p1.codecs|
    requires forall q :: q in pts && q != pt ==> Rank(p2, q) == Rank(p1, q) > 0
    ensures Sorted(RankAll(p2, Preferred(p1, pts))) <==>
            !(pt in pts && exists q :: q in pts && q != pt && Rank(p1, q) < |p1.codecs|)
  {
    forall q ensures q in Preferred(p1, pts) <==> q in pts {
      PreferredMembers(p1, pts, q);
    }
    PreferredIsSorted(p1, pts);
    MovedLast(p1, p2, Preferred(p1, pts), pt);
  }

  // ------------------------------------------------------------------- an offer of one Opus

  /** All that is Opus in these lines is spelled as the replacement looks for it, with one
      payload type, which no other line numbers. */
  ghost predicate OneOpus(lines: seq<string>, pt: string) {
    var rest := Rest(lines, OpusText(pt));
    && (forall l :: l in lines && OpusText(pt) <= l ==> l == OpusText(pt))
    && OpusOf(rest) == None
    && pt !in RtpTable(rest)
    && (forall q :: q in RtpTable(rest) ==> Free(RtpTable(rest)[q], "opus"))
  }

  /** The first m=audio line offers this payload type, and another one of a preferred codec. */
  ghost predicate OfferedWithAnother(lines: seq<string>, pt: string) {
    var pts := AudioPayload(lines);
    pt in pts && exists q :: q in pts && q != pt && Rank(AudioPreference(lines), q) < |AUDIO_CODECS|
  }

  lemma OpusIsPt(lines: seq<string>, pt: string)
    requires OpusOf(lines) == Some(pt)
    ensures IsPt(pt)
  {
    OpusIsDigits(lines);
    OpusOfIsSome(lines, pt);
  }

  lemma TableOfOpusText(pt: string)
    requires IsPt(pt)
    ensures RtpTable([OpusText(pt)]) == map[pt := "opus/48000/2"]
  {
    assert OpusText(pt) == RTPMAP + pt + " " + "opus/48000/2";
    ParsesAs(pt, "opus/48000/2");
    OpusInLower();
    TableOfOne(OpusText(pt));
  }

  lemma LookupInConcat(t1: map<string, string>, t2: map<string, string>, q: string)
    ensures Lookup(t1 + t2, q) == if Lookup(t2, q).Some? then Lookup(t2, q) else Lookup(t1, q)
  {
  }

  lemma OpusEntryNext(line: string, more: seq<string>, text: string, pt: string)
    requires Lookup(RtpTable(Rest([line] + more, text)), pt).None?
    ensures Lookup(RtpTable(Rest(more, text)), pt).None?
    ensures Lookup(RtpTable([line] + more), pt) ==
            if Lookup(RtpTable(more), pt).Some? then Lookup(RtpTable(more), pt) else Lookup(RtpTable([line]), pt)
  {
    RestNext(line, more, text);
    TableConcat([line], more);
    LookupInConcat(RtpTable([line]), RtpTable(more), pt);
    TableConcat(if text <= line then [] else [line], Rest(more, text));
  }

  lemma {:induction false} OpusEntry(lines: seq<string>, pt: string)
    requires IsPt(pt) && SomeStartsWith(lines, OpusText(pt)) && Lookup(RtpTable(Rest(lines, OpusText(pt))), pt).None?
    requires forall l :: l in lines && OpusText(pt) <= l ==> l == OpusText(pt)
    ensures Lookup(RtpTable(lines), pt) == Some("opus/48000/2")
  {
    var line, more, text := lines[0], lines[1..], OpusText(pt);
    assert lines == [line] + more;
    OpusEntryNext(line, more, text, pt);
    if SomeStartsWith(more, text) {
      assert forall l :: l in more ==> l in lines;
      OpusEntry(more, pt);
    } else {
      NothingDropped(more, text);
      TableOfOpusText(pt);
    }
  }

  lemma {:induction false} NothingDropped(lines: seq<string>, text: string)
    requires !SomeStartsWith(lines, text)
    ensures Rest(lines, text) == lines
  {
    if lines != [] {
      assert lines[0] in lines && forall l :: l in lines[1..] ==> l in lines;
      NothingDropped(lines[1..], text);
    }
  }

  lemma SameLookupSameRank(p1: Preference, p2: Preference, q: string)
    requires p1.codecs == p2.codecs && Lookup(p1.table, q) == Lookup(p2.table, q)
    ensures Rank(p1, q) == Rank(p2, q)
  {
    assert forall codec :: Matches(p1, q, codec) <==> Matches(p2, q, codec);
    RankIsFirstMatch(p1, q, Rank(p1, q));
    RankIsFirstMatch(p2, q, Rank(p1, q));
  }

  /** What no line calls Opus is not ranked as Opus. */
  lemma NotOpusRank(table: map<string, string>, q: string)
    requires q in table ==> Free(table[q], "opus")
    ensures Rank(Preference(table, AUDIO_CODECS), q) > 0
  {
    AudioRank(table, q);

  }

  lemma RanksOfOneOpus(lines: seq<string>, pt: string)
    requires OneOpus(lines, pt) && OpusOf(lines) == Some(pt) && !OpusReady(lines)
    ensures var p1, p2 := AudioPreference(lines), AudioPreference(Rest(lines, OpusText(pt)));
            && Rank(p1, pt) == 0 && Rank(p2, pt) == 3
            && forall q :: q != pt ==> Rank(p2, q) == Rank(p1, q) > 0
  {
    var p1, p2 := AudioPreference(lines), AudioPreference(Rest(lines, OpusText(pt)));
    OpusIsPt(lines, pt);
    OpusEntry(lines, pt);
    OpusRank(p1.table, pt);
    NoRank(p2.table, pt);
    forall q | q != pt ensures Rank(p2, q) == Rank(p1, q) > 0 {
      TablesAgreeElsewhere(lines, pt, q);
      SameLookupSameRank(p1, p2, q);
      NotOpusRank(p2.table, q);
    }
  }

  lemma OneOpusComesToRest(lines: seq<string>, pt: string, lowLatency: bool)
    requires OneOpus(lines, pt) && OpusOf(lines) == Some(pt) && !OpusReady(lines)
    ensures ComesToRest(lines, pt, lowLatency) <==> !OfferedWithAnother(lines, pt)
  {
    RanksOfOneOpus(lines, pt);
    MovedLastIff(AudioPreference(lines), AudioPreference(Rest(lines, OpusText(pt))), AudioPayload(lines), pt);
  }

  /** For a tidy text of one Opus whose line is overwritten, that is the whole condition. */
  lemma OneOpusTwiceIsOnceIff(sdp: string, hasVideo: bool, lowLatency: bool, pt: string)
    requires Tidy(sdp) && OneOpus(Split(sdp, CRLF), pt)
    requires OpusOf(Split(sdp, CRLF)) == Some(pt) && !OpusReady(Split(sdp, CRLF))
    ensures var once := TransformSdp(sdp, hasVideo, lowLatency);
            TransformSdp(once, hasVideo, lowLatency) == once <==> !OfferedWithAnother(Split(sdp, CRLF), pt)
  {
    TransformTwiceIsOnceIff(sdp, hasVideo, lowLatency);
    OneOpusComesToRest(Split(sdp, CRLF), pt, lowLatency);
  }

  /** So the plain offer of one payload type is transformed only once, although it loses its
      Opus line. */
  lemma PlainOfferTwiceIsOnce(pt: string, hasVideo: bool, lowLatency: bool)
    requires IsPt(pt)
    ensures var sdp := Join(PlainOffer(pt), CRLF);
            var once := TransformSdp(sdp, hasVideo, lowLatency);
            Tidy(sdp) && !OpusReady(Split(sdp, CRLF)) && TransformSdp(once, hasVideo, lowLatency) == once
  {
    var lines := PlainOffer(pt);
    PlainOfferIs(pt);
    TidySplitJoin(lines);
    PlainRest(pt);
    OneOpusTwiceIsOnceIff(Join(lines, CRLF), hasVideo, lowLatency, pt);
    forall q | q != pt ensures Rank(AudioPreference(lines), q) == |AUDIO_CODECS| {
      TablesAgreeElsewhere(lines, pt, q);
      NoRank(RtpTable(lines), q);
    }
  }

  lemma PlainRest(pt: string)
    requires IsPt(pt)
    ensures Rest(PlainOffer(pt), OpusText(pt)) == [AUDIO + pt]
    ensures RtpTable([AUDIO + pt]) == map[] && OpusOf([AUDIO + pt]) == None
    ensures OneOpus(PlainOffer(pt), pt) && SomeStartsWith(PlainOffer(pt), OpusText(pt))
  {
    var audio, text := AUDIO + pt, OpusText(pt);
    assert audio[0] == 'm' && text[0] == 'a';
    NotAnRtpMap(audio);
    TableOfOne(audio);
    RestNext(audio, [text], text);
    RestNext(text, [], text);
    assert PlainOffer(pt) == [audio] + [text] && [text] == [text] + [];
    assert [audio][1..] == [] && text in PlainOffer(pt);
  }
}
