/** The two codec preference lists of lib/services/rfc_webrtc.dart, by the names that are looked
    for: Opus, PCMU, PCMA; VP9, VP8, H264, AV1. */
module CodecNames {
  import opened Text
  import opened CodecPreference
  import opened SdpModel
  import opened SdpTransform

  lemma FirstPart(x: string, rest: string, s: string)
    requires '/' !in x && s == x + "/" + rest
    ensures Split(s, "/")[0] == x
  {
    FreeMeans(x, "/");
    forall i: nat ensures !At(x, "/", i) {
      AtChars(x, "/", i, 0);
    }
    FindAppend(x, "/", rest);
    assert s[..|x|] == x;
  }

  /** The name that a codec of a preference list is matched by. */
  function NameOf(codec: string): string {
    Split(Lower(codec), "/")[0]
  }

  lemma OpusInLower()
    ensures Lower("opus/48000/2") == "opus/48000/2"
  {
  }

  lemma OpusName()
    ensures NameOf("opus/48000/2") == "opus"
  {
    OpusInLower();
    FirstPart("opus", "48000/2", "opus/48000/2");
  }

  lemma PcmuInLower()
    ensures Lower("PCMU/8000") == "pcmu/8000"
  {
  }

  lemma PcmuName()
    ensures NameOf("PCMU/8000") == "pcmu"
  {
    PcmuInLower();
    FirstPart("pcmu", "8000", "pcmu/8000");
  }

  lemma PcmaInLower()
    ensures Lower("PCMA/8000") == "pcma/8000"
  {
  }

  lemma PcmaName()
    ensures NameOf("PCMA/8000") == "pcma"
  {
    PcmaInLower();
    FirstPart("pcma", "8000", "pcma/8000");
  }

  lemma Vp9InLower()
    ensures Lower("VP9/90000") == "vp9/90000"
  {
  }

  lemma Vp9Name()
    ensures NameOf("VP9/90000") == "vp9"
  {
    Vp9InLower();
    FirstPart("vp9", "90000", "vp9/90000");
  }

  lemma Vp8InLower()
    ensures Lower("VP8/90000") == "vp8/90000"
  {
  }

  lemma Vp8Name()
    ensures NameOf("VP8/90000") == "vp8"
  {
    Vp8InLower();
    FirstPart("vp8", "90000", "vp8/90000");
  }

  lemma H264InLower()
    ensures Lower("H264/90000") == "h264/90000"
  {
  }

  lemma H264Name()
    ensures NameOf("H264/90000") == "h264"
  {
    H264InLower();
    FirstPart("h264", "90000", "h264/90000");
  }

  lemma Av1InLower()
    ensures Lower("AV1/90000") == "av1/90000"
  {
  }

  lemma Av1Name()
    ensures NameOf("AV1/90000") == "av1"
  {
    Av1InLower();
    FirstPart("av1", "90000", "av1/90000");
  }

  function EntryOf(table: map<string, string>, pt: string): string {
    if pt in table then table[pt] else ""
  }

  lemma MatchesByName(table: map<string, string>, codecs: seq<string>, pt: string, codec: string)
    ensures Matches(Preference(table, codecs), pt, codec) <==> !Free(EntryOf(table, pt), NameOf(codec))
  {
  }

  lemma RankAt(pref: Preference, pt: string, k: nat)
    requires k < |pref.codecs| && forall i :: 0 <= i < k ==> !Matches(pref, pt, pref.codecs[i])
    ensures Matches(pref, pt, pref.codecs[k]) <==> Rank(pref, pt) == k
  {
    RankIsFirstMatch(pref, pt, k);
  }

  lemma RankOfThree(pref: Preference, pt: string, x: string, y: string, z: string)
    requires pref.codecs == [x, y, z]
    ensures Rank(pref, pt) == if Matches(pref, pt, x) then 0 else if Matches(pref, pt, y) then 1
                              else if Matches(pref, pt, z) then 2 else 3
  {
    RankAt(pref, pt, 0);
    if !Matches(pref, pt, x) {
      RankAt(pref, pt, 1);
      if !Matches(pref, pt, y) {
        RankAt(pref, pt, 2);
        RankIsFirstMatch(pref, pt, 3);
      }
    }
  }

  lemma RankOfFour(pref: Preference, pt: string, w: string, x: string, y: string, z: string)
    requires pref.codecs == [w, x, y, z]
    ensures Rank(pref, pt) == if Matches(pref, pt, w) then 0 else if Matches(pref, pt, x) then 1
                              else if Matches(pref, pt, y) then 2 else if Matches(pref, pt, z) then 3 else 4
  {
    RankAt(pref, pt, 0);
    if !Matches(pref, pt, w) {
      RankAt(pref, pt, 1);
      if !Matches(pref, pt, x) {
        RankAt(pref, pt, 2);
        if !Matches(pref, pt, y) {
          RankAt(pref, pt, 3);
          RankIsFirstMatch(pref, pt, 4);
        }
      }
    }
  }

  /** Audio: what the payload type's entry contains decides its place. */
  lemma AudioRank(table: map<string, string>, pt: string)
    ensures var entry := if pt in table then table[pt] else "";
            Rank(Preference(table, AUDIO_CODECS), pt) ==
            if !Free(entry, "opus") then 0 else if !Free(entry, "pcmu") then 1 else if !Free(entry, "pcma") then 2 else 3
  {
    OpusName();
    PcmuName();
    PcmaName();
    RankOfThree(Preference(table, AUDIO_CODECS), pt, "opus/48000/2", "PCMU/8000", "PCMA/8000");
    MatchesByName(table, AUDIO_CODECS, pt, "opus/48000/2");
    MatchesByName(table, AUDIO_CODECS, pt, "PCMU/8000");
    MatchesByName(table, AUDIO_CODECS, pt, "PCMA/8000");
  }

  /** Video: VP9 before VP8 before H264 before AV1 before the rest. */
  lemma VideoRank(table: map<string, string>, pt: string)
    ensures var entry := if pt in table then table[pt] else "";
            Rank(Preference(table, VIDEO_CODECS), pt) ==
            if !Free(entry, "vp9") then 0 else if !Free(entry, "vp8") then 1
            else if !Free(entry, "h264") then 2 else if !Free(entry, "av1") then 3 else 4
  {
    Vp9Name();
    Vp8Name();
    H264Name();
    Av1Name();
    RankOfFour(Preference(table, VIDEO_CODECS), pt, "VP9/90000", "VP8/90000", "H264/90000", "AV1/90000");
    MatchesByName(table, VIDEO_CODECS, pt, "VP9/90000");
    MatchesByName(table, VIDEO_CODECS, pt, "VP8/90000");
    MatchesByName(table, VIDEO_CODECS, pt, "H264/90000");
    MatchesByName(table, VIDEO_CODECS, pt, "AV1/90000");
  }
}
