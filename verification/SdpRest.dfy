/** What the appending branch of injectOpusFmtp leaves of a text: which table, which Opus line,
    which attribute lines and which m-lines. */
module SdpRest {
  import opened Wrappers
  import opened CodecPreference
  import opened SdpModel
  import opened SdpLines
  import opened SdpBridge
  import opened SdpAppendLines

  // ------------------------------------------------------- the lines that are not overwritten

  /** The lines that do not start with this text. */
  function Rest(lines: seq<string>, text: string): seq<string> {
    if lines == [] then []
    else if text <= lines[0] then Rest(lines[1..], text)
    else [lines[0]] + Rest(lines[1..], text)
  }

  lemma RestNext(line: string, more: seq<string>, text: string)
    ensures Rest([line] + more, text) == (if text <= line then [] else [line]) + Rest(more, text)
  {
    assert ([line] + more)[1..] == more;
  }

  lemma {:induction false} RestMembers(lines: seq<string>, text: string, l: string)
    ensures l in Rest(lines, text) <==> l in lines && !(text <= l)
  {
    if lines != [] {
      RestMembers(lines[1..], text, l);
      assert lines == [lines[0]] + lines[1..];
    }
  }

  lemma {:induction false} TableConcat(xs: seq<string>, ys: seq<string>)
    ensures RtpTable(xs + ys) == RtpTable(xs) + RtpTable(ys)
  {
    if ys == [] {
      assert xs + ys == xs;
    } else {
      var before := ys[..|ys| - 1];
      TableConcat(xs, before);
      assert (xs + ys)[..|xs + ys| - 1] == xs + before;
    }
  }

  lemma TableOfOne(line: string)
    ensures RtpTable([line]) == match ParseRtpMap(line) case None => map[] case Some((pt, codec)) => map[pt := codec]
  {
    assert [line][..0] == [];
  }

  lemma TableOfTwo(x: string, y: string)
    requires ParseRtpMap(x).None? && ParseRtpMap(y).None?
    ensures RtpTable([x, y]) == map[]
  {
    TableOfOne(x);
    TableOfOne(y);
    TableConcat([x], [y]);
    assert [x, y] == [x] + [y];
  }

  lemma AppendedAreNoRtpMaps(fmtp: string, tail: string)
    requires FMTP <= fmtp
    ensures ParseRtpMap("$1").None? && ParseRtpMap(fmtp + tail).None?
    ensures OpusHere("$1").None? && OpusHere(fmtp + tail).None?
  {
    NotAnRtpMap("$1");
    assert FMTP <= fmtp + tail;
    NotAnRtpMap(fmtp + tail);
  }

  /** Appending takes from the table what only overwritten lines put there. */
  lemma {:induction false} TableOfAppended(lines: seq<string>, text: string, fmtp: string)
    requires FMTP <= fmtp
    ensures RtpTable(AppendLines(lines, text, fmtp)) == RtpTable(Rest(lines, text))
  {
    if lines != [] {
      var line, more := lines[0], lines[1..];
      TableOfAppended(more, text, fmtp);
      TableConcat(AppendLine(line, text, fmtp), AppendLines(more, text, fmtp));
      if text <= line {
        AppendedAreNoRtpMaps(fmtp, line[|text|..]);
        TableOfTwo("$1", fmtp + line[|text|..]);
        assert map[] + RtpTable(Rest(more, text)) == RtpTable(Rest(more, text));
      } else {
        TableConcat([line], Rest(more, text));
      }
    }
  }

  lemma {:induction false} OpusOfAppended(lines: seq<string>, text: string, fmtp: string)
    requires FMTP <= fmtp
    ensures OpusOf(AppendLines(lines, text, fmtp)) == OpusOf(Rest(lines, text))
  {
    if lines != [] {
      var line, more := lines[0], lines[1..];
      var after := AppendLines(more, text, fmtp);
      OpusOfAppended(more, text, fmtp);
      if text <= line {
        AppendedAreNoRtpMaps(fmtp, line[|text|..]);
        assert ["$1", fmtp + line[|text|..]] + after == ["$1"] + ([fmtp + line[|text|..]] + after);
        OpusNext("$1", [fmtp + line[|text|..]] + after);
        OpusNext(fmtp + line[|text|..], after);
      } else {
        OpusNext(line, after);
        OpusNext(line, Rest(more, text));
      }
    }
  }

  lemma OpusNext(line: string, more: seq<string>)
    ensures OpusOf([line] + more) == if OpusHere(line).Some? then OpusHere(line) else OpusOf(more)
  {
    assert ([line] + more)[1..] == more;
  }

  /** The lines of a reordered text, m-lines apart, are those of the text. */
  lemma {:induction false} RestUnaffected(lines: seq<string>, other: seq<string>, text: string)
    requires |lines| == |other|
    requires forall i :: 0 <= i < |lines| ==> (text <= other[i] <==> text <= lines[i])
    requires forall i :: 0 <= i < |lines| ==> ParseRtpMap(other[i]) == ParseRtpMap(lines[i])
    requires forall i :: 0 <= i < |lines| ==> OpusHere(other[i]) == OpusHere(lines[i])
    ensures RtpTable(Rest(other, text)) == RtpTable(Rest(lines, text))
    ensures OpusOf(Rest(other, text)) == OpusOf(Rest(lines, text))
  {
    if lines != [] {
      RestUnaffected(lines[1..], other[1..], text);
      if !(text <= lines[0]) {
        TableOfOne(lines[0]);
        TableOfOne(other[0]);
        TableConcat([lines[0]], Rest(lines[1..], text));
        TableConcat([other[0]], Rest(other[1..], text));
        OpusNext(lines[0], Rest(lines[1..], text));
        OpusNext(other[0], Rest(other[1..], text));
      }
    }
  }

  lemma RestOfReordered(lines: seq<string>, media: string, codecs: seq<string>, text: string)
    requires IsMedia(media) && text != "" && text[0] == 'a'
    ensures var r := ReorderLines(lines, media, codecs);
            RtpTable(Rest(r, text)) == RtpTable(Rest(lines, text)) && OpusOf(Rest(r, text)) == OpusOf(Rest(lines, text))
  {
    var r := ReorderLines(lines, media, codecs);
    forall i | 0 <= i < |lines|
      ensures text <= r[i] <==> text <= lines[i]
      ensures ParseRtpMap(r[i]) == ParseRtpMap(lines[i]) && OpusHere(r[i]) == OpusHere(lines[i])
    {
      ReorderTouchesOneLine(lines, media, codecs, i);
      if r[i] != lines[i] {
        MLinesStartWithM(lines[i], media);
        MLinesStartWithM(r[i], media);
        NotAnRtpMap(lines[i]);
        NotAnRtpMap(r[i]);
      }
    }
    RestUnaffected(lines, r, text);
  }

  // ------------------------------------------------------------------ attribute lines

  predicate IsAttribute(l: string) {
    l != "" && l[0] == 'a'
  }

  /** The same lines that start with an a. */
  ghost predicate SameAttributes(xs: seq<string>, ys: seq<string>) {
    forall l | IsAttribute(l) :: l in xs <==> l in ys
  }

  lemma ReorderSameAttributes(lines: seq<string>, media: string, codecs: seq<string>)
    requires IsMedia(media)
    ensures SameAttributes(ReorderLines(lines, media, codecs), lines)
  {
    var r := ReorderLines(lines, media, codecs);
    forall i | 0 <= i < |lines| ensures r[i] != lines[i] ==> !IsAttribute(r[i]) && !IsAttribute(lines[i]) {
      ReorderTouchesOneLine(lines, media, codecs, i);
      if r[i] != lines[i] {
        MLinesStartWithM(lines[i], media);
        MLinesStartWithM(r[i], media);
      }
    }
    PointwiseAttributes(r, lines);
  }

  lemma PointwiseAttributes(xs: seq<string>, ys: seq<string>)
    requires |xs| == |ys|
    requires forall i :: 0 <= i < |xs| ==> (xs[i] != ys[i] ==> !IsAttribute(xs[i]) && !IsAttribute(ys[i]))
    ensures SameAttributes(xs, ys)
  {
    forall l | IsAttribute(l) ensures l in xs <==> l in ys {
      if l in xs {
        var i :| 0 <= i < |xs| && xs[i] == l;
        assert ys[i] == l;
      }
      if l in ys {
        var i :| 0 <= i < |ys| && ys[i] == l;
        assert xs[i] == l;
      }
    }
  }

  /** Every fmtp line of this payload type is already what it would be replaced by. */
  predicate AllAre(lines: seq<string>, pt: string, fmtp: string) {
    forall l :: l in lines && IsFmtp(l, FmtpHead(pt)) ==> l == fmtp
  }

  lemma AttributesDecide(xs: seq<string>, ys: seq<string>, pt: string, fmtp: string)
    requires SameAttributes(xs, ys)
    ensures SomeFmtp(xs, FmtpHead(pt)) <==> SomeFmtp(ys, FmtpHead(pt))
    ensures SomeStartsWith(xs, OpusText(pt)) <==> SomeStartsWith(ys, OpusText(pt))
    ensures AllAre(xs, pt, fmtp) <==> AllAre(ys, pt, fmtp)
  {
    assert FmtpHead(pt)[0] == 'a' && OpusText(pt)[0] == 'a';
    forall l | IsFmtp(l, FmtpHead(pt)) || OpusText(pt) <= l ensures l in xs <==> l in ys {
      assert IsAttribute(l);
    }
  }

  // -------------------------------------------------------------------- the m-lines

  /** The first line with a prefix. */
  function FirstWith(lines: seq<string>, prefix: string): Option<string> {
    match LineIndex(lines, prefix)
    case None => None
    case Some(i) => Some(lines[i])
  }

  lemma FirstWithNext(line: string, more: seq<string>, prefix: string)
    ensures FirstWith([line] + more, prefix) == if prefix <= line then Some(line) else FirstWith(more, prefix)
  {
    assert ([line] + more)[1..] == more;
  }

  lemma {:induction false} FirstWithAppended(lines: seq<string>, text: string, fmtp: string, prefix: string)
    requires IsAttribute(text) && FMTP <= fmtp && prefix != "" && prefix[0] == 'm'
    ensures FirstWith(AppendLines(lines, text, fmtp), prefix) == FirstWith(lines, prefix)
  {
    if lines != [] {
      var line, more := lines[0], lines[1..];
      var after := AppendLines(more, text, fmtp);
      FirstWithAppended(more, text, fmtp, prefix);
      assert lines == [line] + more;
      FirstWithNext(line, more, prefix);
      if text <= line {
        assert FMTP[0] == 'a' && (fmtp + line[|text|..])[0] == 'a';
        assert ["$1", fmtp + line[|text|..]] + after == ["$1"] + ([fmtp + line[|text|..]] + after);
        FirstWithNext("$1", [fmtp + line[|text|..]] + after, prefix);
        FirstWithNext(fmtp + line[|text|..], after, prefix);
      } else {
        FirstWithNext(line, after, prefix);
      }
    }
  }

  lemma ReorderFixedIff(lines: seq<string>, media: string, codecs: seq<string>)
    ensures ReorderLines(lines, media, codecs) == lines <==>
            var first := FirstWith(lines, MediaPrefix(media));
            first.Some? ==> ReorderLine(first.value, Preference(RtpTable(lines), codecs)) == first.value
  {
  }

  lemma FirstWithReordered(lines: seq<string>, media: string, codecs: seq<string>)
    requires IsMedia(media)
    ensures FirstWith(ReorderLines(lines, media, codecs), MediaPrefix(media)) ==
            match FirstWith(lines, MediaPrefix(media))
            case None => None
            case Some(l) => Some(ReorderLine(l, Preference(RtpTable(lines), codecs)))
  {
    var r, prefix := ReorderLines(lines, media, codecs), MediaPrefix(media);
    forall i | 0 <= i < |lines| ensures prefix <= r[i] <==> prefix <= lines[i] {
      ReorderTouchesOneLine(lines, media, codecs, i);
    }
    LineIndexUnaffected(lines, r, prefix);
  }

  lemma FirstWithOther(lines: seq<string>, one: string, codecs: seq<string>, other: string)
    requires IsMedia(one) && Distinct(one, other)
    ensures FirstWith(ReorderLines(lines, one, codecs), MediaPrefix(other)) == FirstWith(lines, MediaPrefix(other))
  {
    ReorderKeepsOther(lines, one, codecs, other);
    var j := LineIndex(lines, MediaPrefix(other));
    if j.Some? {
      ReorderTouchesOneLine(lines, one, codecs, j.value);
      if ReorderLines(lines, one, codecs)[j.value] != lines[j.value] {
        NotBoth(lines[j.value], one, other);
      }
    }
  }

  // ------------------------------------------------------ attributes of an appended text

  /** One of the new lines, `fmtp` with what followed the overwritten text. */
  ghost predicate IsTailed(lines: seq<string>, text: string, fmtp: string, l: string) {
    exists line :: line in lines && text <= line && l == fmtp + line[|text|..]
  }

  lemma {:induction false} AppendedMembers(lines: seq<string>, text: string, fmtp: string, l: string)
    requires IsAttribute(l)
    ensures l in AppendLines(lines, text, fmtp) <==> l in Rest(lines, text) || IsTailed(lines, text, fmtp, l)
  {
    if lines != [] {
      var line, more := lines[0], lines[1..];
      AppendedMembers(more, text, fmtp, l);
      assert lines == [line] + more;
      assert IsTailed(lines, text, fmtp, l) <==>
             (text <= line && l == fmtp + line[|text|..]) || IsTailed(more, text, fmtp, l);
    }
  }

  /** Only lines of the rest and the new lines are attributes of the appended text. */
  lemma AttributesOfAppended(lines: seq<string>, text: string, fmtp: string)
    ensures forall l | IsAttribute(l) ::
              l in AppendLines(lines, text, fmtp) <==> l in Rest(lines, text) || IsTailed(lines, text, fmtp, l)
  {
    forall l | IsAttribute(l)
      ensures l in AppendLines(lines, text, fmtp) <==> l in Rest(lines, text) || IsTailed(lines, text, fmtp, l)
    {
      AppendedMembers(lines, text, fmtp, l);
    }
  }

  lemma SameAttributesSameAppended(xs: seq<string>, ys: seq<string>, text: string, fmtp: string)
    requires IsAttribute(text) && SameAttributes(xs, ys)
    ensures SameAttributes(AppendLines(xs, text, fmtp), AppendLines(ys, text, fmtp))
  {
    forall l | IsAttribute(l) ensures l in AppendLines(xs, text, fmtp) <==> l in AppendLines(ys, text, fmtp) {
      AppendedMembers(xs, text, fmtp, l);
      AppendedMembers(ys, text, fmtp, l);
      RestMembers(xs, text, l);
      RestMembers(ys, text, l);
      assert forall line | text <= line :: line in xs <==> line in ys by {
        forall line | text <= line ensures line in xs <==> line in ys { assert IsAttribute(line); }
      }
    }
  }
}
