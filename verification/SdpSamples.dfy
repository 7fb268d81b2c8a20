/** Lines of small offers with any payload types: an m-line of two, and the codec lines that
    number them. */
module SdpSamples {
  import opened Wrappers
  import opened Text
  import opened StableSort
  import opened CodecPreference
  import opened CodecNames
  import opened SdpModel
  import opened SdpBridge
  import opened SdpAppendLines
  import opened SdpTransform
  import opened SdpAppend

  // ------------------------------------------------------------------ sorting two

  lemma BucketOfTwo(x: Ranked, y: Ranked, k: nat)
    ensures Bucket([x, y], k) == (if x.rank == k then [x] else []) + (if y.rank == k then [y] else [])
  {
    assert [x, y][1..] == [y] && [y][1..] == [];
    assert Bucket([y], k) == if y.rank == k then [y] else [];
  }

  lemma PreferredOfTwo(pref: Preference, p: string, q: string)
    ensures Preferred(pref, [p, q]) == if Rank(pref, q) < Rank(pref, p) then [q, p] else [p, q]
  {
    var x, y := Ranked(Rank(pref, p), p), Ranked(Rank(pref, q), q);
    assert RankAll(pref, [p, q]) == [x, y] && RankAll(pref, [q, p]) == [y, x];
    forall k: nat ensures y.rank < x.rank ==> Bucket([y, x], k) == Bucket([x, y], k) {
      BucketOfTwo(x, y, k);
      BucketOfTwo(y, x, k);
    }
    if y.rank < x.rank {
      assert IsStableSort([y, x], [x, y]);
      PreferredIsTheStableSort(pref, [p, q], [q, p]);
    } else {
      assert IsStableSort([x, y], [x, y]);
      PreferredIsTheStableSort(pref, [p, q], [p, q]);
    }
  }

  // ------------------------------------------------------------------------ ranks

  lemma Lacks(s: string, t: string, k: nat)
    requires k < |t| && t[k] !in s
    ensures Free(s, t)
  {
    FreeMeans(s, t);
    forall i: nat ensures !At(s, t, i) {
      AtChars(s, t, i, k);
    }
  }

  lemma StartIsNotFree(s: string, t: string)
    requires t <= s
    ensures !Free(s, t)
  {
  }

  lemma OpusRank(table: map<string, string>, pt: string)
    requires pt in table && table[pt] == "opus/48000/2"
    ensures Rank(Preference(table, AUDIO_CODECS), pt) == 0
  {
    AudioRank(table, pt);
    StartIsNotFree("opus/48000/2", "opus");
  }

  lemma PcmuRank(table: map<string, string>, pt: string)
    requires pt in table && table[pt] == "pcmu/8000"
    ensures Rank(Preference(table, AUDIO_CODECS), pt) == 1
  {
    AudioRank(table, pt);
    Lacks("pcmu/8000", "opus", 0);
    StartIsNotFree("pcmu/8000", "pcmu");
  }

  lemma Vp9Rank(table: map<string, string>, pt: string)
    requires pt in table && table[pt] == "vp9/90000"
    ensures Rank(Preference(table, VIDEO_CODECS), pt) == 0
  {
    VideoRank(table, pt);
    StartIsNotFree("vp9/90000", "vp9");
  }

  /** The 9 of VP9 is in its clock rate, not behind the letters. */
  lemma NoVp9InVp8()
    ensures Free("vp8/90000", "vp9")
  {
    FreeMeans("vp8/90000", "vp9");
    forall i: nat ensures !At("vp8/90000", "vp9", i) {
      AtChars("vp8/90000", "vp9", i, 0);
      AtChars("vp8/90000", "vp9", i, 2);
    }
  }

  lemma Vp8Rank(table: map<string, string>, pt: string)
    requires pt in table && table[pt] == "vp8/90000"
    ensures Rank(Preference(table, VIDEO_CODECS), pt) == 1
  {
    VideoRank(table, pt);
    NoVp9InVp8();
    StartIsNotFree("vp8/90000", "vp8");
  }

  /** A payload type that no line numbers comes last. */
  lemma NoRank(table: map<string, string>, pt: string)
    requires pt !in table
    ensures Rank(Preference(table, AUDIO_CODECS), pt) == 3
  {
    AudioRank(table, pt);
  }

  // ----------------------------------------------------------------------- m-lines

  /** A number of payload type, not empty. */
  predicate IsPt(pt: string) {
    pt != "" && Digits(pt)
  }

  /** How an m-line of these samples starts. */
  predicate IsWord(word: string) {
    word == "m=audio" || word == "m=video"
  }

  function MLine(word: string, p: string, q: string): string {
    Join([word, "9", "RTP/SAVPF", p, q], SPACE)
  }

  function AudioLine(p: string, q: string): string {
    MLine("m=audio", p, q)
  }

  function VideoLine(p: string, q: string): string {
    MLine("m=video", p, q)
  }

  lemma NoSpaceIn(s: string)
    requires ' ' !in s
    ensures Free(s, SPACE)
  {
    Lacks(s, SPACE, 0);
  }

  lemma MLineParts(word: string, p: string, q: string)
    requires IsWord(word) && IsPt(p) && IsPt(q)
    ensures Split(MLine(word, p, q), SPACE) == [word, "9", "RTP/SAVPF", p, q]
    ensures HasPayload(MLine(word, p, q)) && Payload(MLine(word, p, q)) == [p, q]
    ensures forall r, s :: WithPayload(MLine(word, p, q), [r, s]) == MLine(word, r, s)
  {
    var parts := [word, "9", "RTP/SAVPF", p, q];
    forall part | part in parts ensures Free(part, SPACE) {
      NoSpaceIn(part);
    }
    SeparatorsAreBorderFree();
    SplitJoin(parts, SPACE);
    assert parts[..3] == [word, "9", "RTP/SAVPF"] && parts[3..] == [p, q];
    forall r, s ensures WithPayload(MLine(word, p, q), [r, s]) == MLine(word, r, s) {
      assert parts[..3] + [r, s] == [word, "9", "RTP/SAVPF", r, s];
    }
  }

  lemma JoinFour(x: string, y: string, p: string, q: string)
    ensures Join([x, y, p, q], SPACE) == x + SPACE + (y + SPACE + (p + SPACE + q))
  {
    assert [x, y, p, q] == [x] + ([y] + ([p] + [q]));
    JoinCons(x, [y] + ([p] + [q]), SPACE);
    JoinCons(y, [p] + [q], SPACE);
    JoinCons(p, [q], SPACE);
  }

  lemma Flatten(w: string, x: string, y: string, z: string)
    ensures w + SPACE + (x + SPACE + (y + SPACE + z)) == (w + SPACE + x + SPACE + y + SPACE) + z
  {
  }

  lemma MLineIs(word: string, p: string, q: string)
    ensures MLine(word, p, q) == (word + SPACE + "9" + SPACE + "RTP/SAVPF" + SPACE) + (p + SPACE + q)
    ensures word + SPACE <= MLine(word, p, q)
  {
    JoinFour("9", "RTP/SAVPF", p, q);
    assert [word, "9", "RTP/SAVPF", p, q] == [word] + ["9", "RTP/SAVPF", p, q];
    JoinCons(word, ["9", "RTP/SAVPF", p, q], SPACE);
    Flatten(word, "9", "RTP/SAVPF", p + SPACE + q);
  }

  lemma WordsArePlain(word: string)
    requires IsWord(word)
    ensures var start := word + SPACE + "9" + SPACE + "RTP/SAVPF" + SPACE;
            forall i :: 0 <= i < |start| ==> (start[i] == '=' ==> i == 1) && !IsBreak(start[i])
  {
  }

  lemma MLineIsTidy(word: string, p: string, q: string)
    requires IsWord(word) && IsPt(p) && IsPt(q)
    ensures TidyLine(MLine(word, p, q))
  {
    var line, tail := MLine(word, p, q), p + SPACE + q;
    var start := word + SPACE + "9" + SPACE + "RTP/SAVPF" + SPACE;
    MLineIs(word, p, q);
    WordsArePlain(word);
    forall i | 0 <= i < |line| ensures (line[i] == '=' ==> i == 1) && !IsBreak(line[i]) {
      if i >= |start| {
        assert line[i] == tail[i - |start|];
        assert tail[i - |start|] in p || tail[i - |start|] == ' ' || tail[i - |start|] in q;
      }
    }
    EqualsOnlyAtOne(line);
  }

  lemma AudioStarts(p: string, q: string)
    ensures MediaPrefix("audio") <= AudioLine(p, q) && AudioLine(p, q)[0] == 'm'
  {
    MLineIs("m=audio", p, q);
  }

  lemma VideoStarts(p: string, q: string)
    ensures MediaPrefix("video") <= VideoLine(p, q) && VideoLine(p, q)[0] == 'm'
    ensures !(MediaPrefix("audio") <= VideoLine(p, q))
  {
    MLineIs("m=video", p, q);
    assert VideoLine(p, q)[2] == 'v' && MediaPrefix("audio")[2] == 'a';
  }

  // -------------------------------------------------------------------- codec lines

  function CodecLine(pt: string, codec: string): string {
    RTPMAP + pt + " " + codec
  }

  function PcmuLine(pt: string): string {
    CodecLine(pt, "PCMU/8000")
  }

  lemma OpusTextIsLine(pt: string)
    ensures OpusText(pt) == CodecLine(pt, "opus/48000/2")
  {
  }

  lemma ParsesAs(pt: string, codec: string)
    requires IsPt(pt) && codec != "" && forall c :: c in codec ==> !IsLineEnd(c)
    ensures ParseRtpMap(CodecLine(pt, codec)) == Some((pt, Lower(codec)))
  {
    var line := RTPMAP + pt + " " + codec;
    var rest := line[|RTPMAP|..];
    LiteralsAreLower();
    assert line[..|RTPMAP|] == RTPMAP && rest == pt + (" " + codec);
    DigitsThenSpace(pt, " " + codec);
    assert rest[..|pt|] == pt && rest[|pt|] == ' ' && rest[|pt| + 1..] == codec;
  }

  lemma CodecLineIsTidy(pt: string, codec: string)
    requires IsPt(pt) && forall c :: c in codec ==> c != '=' && !IsBreak(c)
    ensures TidyLine(CodecLine(pt, codec))
  {
    var line, tail := CodecLine(pt, codec), " " + codec;
    LiteralsHaveOneEquals();
    assert line == RTPMAP + pt + tail;
    forall i | 0 <= i < |line| ensures (line[i] == '=' ==> i == 1) && !IsBreak(line[i]) {
      if i < |RTPMAP| {
        assert line[i] == RTPMAP[i];
      } else if i < |RTPMAP| + |pt| {
        assert line[i] == pt[i - |RTPMAP|] && pt[i - |RTPMAP|] in pt;
      } else {
        var k := i - |RTPMAP| - |pt|;
        assert line[i] == tail[k];
        assert tail[k] == ' ' || (k > 0 && tail[k] == codec[k - 1] && codec[k - 1] in codec);
      }
    }
    EqualsOnlyAtOne(line);
  }

  lemma ShortIsNotOpus(pt: string, codec: string)
    requires IsPt(pt) && |codec| < 12
    ensures OpusHere(CodecLine(pt, codec)) == None
  {
    var line := CodecLine(pt, codec);
    var rest := line[|RTPMAP|..];
    LiteralsAreLower();
    assert line[..|RTPMAP|] == RTPMAP && rest == pt + (" " + codec);
    DigitsThenSpace(pt, " " + codec);
    assert rest[|pt|..] == " " + codec && |" " + codec| < |OPUS|;
  }

  lemma CodecLines(p: string, q: string)
    requires IsPt(p) && IsPt(q)
    ensures ParseRtpMap(PcmuLine(p)) == Some((p, "pcmu/8000")) && ParseRtpMap(OpusText(q)) == Some((q, "opus/48000/2"))
  {
    OpusTextIsLine(q);
    ParsesAs(p, "PCMU/8000");
    ParsesAs(q, "opus/48000/2");
    PcmuInLower();
    OpusInLower();
  }

  lemma PcmuLineIs(p: string)
    requires IsPt(p)
    ensures TidyLine(PcmuLine(p)) && OpusHere(PcmuLine(p)) == None
  {
    CodecLineIsTidy(p, "PCMU/8000");
    ShortIsNotOpus(p, "PCMU/8000");
  }
}
