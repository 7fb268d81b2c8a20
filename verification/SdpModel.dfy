/** The SDP rewriting of lib/services/rfc_webrtc.dart, on strings, with its regular
    expressions written out as scanners. */
module SdpModel {
  import opened Wrappers
  import opened Text
  import opened CodecPreference

  // ------------------------------------------------------------------- rtpmap lines

  predicate IsDigit(c: char) {
    '0' <= c <= '9'
  }

  /** The length of the longest prefix of digits. */
  function DigitCount(s: string): (n: nat)
    ensures n <= |s| && forall i :: 0 <= i < n ==> IsDigit(s[i])
    ensures n < |s| ==> !IsDigit(s[n])
  {
    if s == "" || !IsDigit(s[0]) then 0 else 1 + DigitCount(s[1..])
  }

  /** What `.` in a Dart regular expression does not match. */
  predicate IsLineEnd(c: char) {
    c == '\n' || c == '\r' || c == '\U{2028}' || c == '\U{2029}'
  }

  const RTPMAP := "a=rtpmap:"
  const FMTP := "a=fmtp:"
  const OPUS := " opus/48000/2"

  predicate StartsWithIgnoreCase(s: string, lower: string) {
    |lower| <= |s| && Lower(s[..|lower|]) == lower
  }

  /** ^a=rtpmap:(\d+) (.+)$ ignoring case: the payload type and the lower-cased codec. */
  function ParseRtpMap(line: string): Option<(string, string)> {
    if !StartsWithIgnoreCase(line, RTPMAP) then None
    else
      var rest := line[|RTPMAP|..];
      var d := DigitCount(rest);
      if d == 0 || d + 1 >= |rest| || rest[d] != ' ' || exists c :: c in rest[d + 1..] && IsLineEnd(c) then None
      else Some((rest[..d], Lower(rest[d + 1..])))
  }

  /** ptToCodec: a later line for the same payload type wins. */
  function RtpTable(lines: seq<string>): map<string, string> {
    if lines == [] then map[]
    else
      var table := RtpTable(lines[..|lines| - 1]);
      match ParseRtpMap(lines[|lines| - 1])
      case None => table
      case Some((pt, codec)) => table[pt := codec]
  }

  // ------------------------------------------------------------------ reorderCodecs

  function MediaPrefix(media: string): string {
    "m=" + media + " "
  }

  /** The first line that starts with `prefix`. */
  function LineIndex(lines: seq<string>, prefix: string): (r: Option<nat>)
    ensures r.Some? ==> r.value < |lines| && prefix <= lines[r.value] &&
                        forall i :: 0 <= i < r.value ==> !(prefix <= lines[i])
    ensures r.None? ==> forall i :: 0 <= i < |lines| ==> !(prefix <= lines[i])
  {
    if lines == [] then None
    else if prefix <= lines[0] then Some(0)
    else match LineIndex(lines[1..], prefix)
      case None =>
        assert forall i :: 0 < i < |lines| ==> lines[i] == lines[1..][i - 1];
        None
      case Some(i) =>
        assert forall k :: 0 < k < i + 1 ==> lines[k] == lines[1..][k - 1];
        Some(i + 1)
  }

  /** An m-line is a media type, a port, a transport and the payload types. */
  predicate HasPayload(line: string) {
    |Split(line, SPACE)| >= 4
  }

  function Payload(line: string): seq<string>
    requires HasPayload(line)
  {
    Split(line, SPACE)[3..]
  }

  function WithPayload(line: string, pts: seq<string>): string
    requires HasPayload(line)
  {
    Join(Split(line, SPACE)[..3] + pts, SPACE)
  }

  function ReorderLine(line: string, pref: Preference): string {
    if HasPayload(line) then WithPayload(line, Preferred(pref, Payload(line))) else line
  }

  function ReorderLines(lines: seq<string>, media: string, codecs: seq<string>): (r: seq<string>)
    ensures |r| == |lines|
  {
    match LineIndex(lines, MediaPrefix(media))
    case None => lines
    case Some(i) => lines[i := ReorderLine(lines[i], Preference(RtpTable(lines), codecs))]
  }

  function Reorder(sdp: string, media: string, codecs: seq<string>): string {
    Join(ReorderLines(Split(sdp, CRLF), media, codecs), CRLF)
  }

  // ---------------------------------------------------------------- injectOpusFmtp

  /** a=rtpmap:(\d+) opus/48000/2 ignoring case, at the start of `s`: the payload type. */
  function OpusHere(s: string): Option<string> {
    if !StartsWithIgnoreCase(s, RTPMAP) then None
    else
      var rest := s[|RTPMAP|..];
      var d := DigitCount(rest);
      if d > 0 && StartsWithIgnoreCase(rest[d..], OPUS) then Some(rest[..d]) else None
  }

  /** firstMatch over the whole text. */
  function FirstOpus(s: string): Option<string> {
    if OpusHere(s).Some? then OpusHere(s)
    else if s == "" then None
    else FirstOpus(s[1..])
  }

  function FmtpHead(pt: string): string {
    FMTP + pt + " "
  }

  predicate IsBreak(c: char) {
    c == '\r' || c == '\n'
  }

  /** a=fmtp:$pt [^\r\n]+ at the start of `s`. */
  predicate FmtpHere(s: string, head: string) {
    head <= s && |head| < |s| && !IsBreak(s[|head|])
  }

  function RunLength(s: string): (n: nat)
    ensures n <= |s|
  {
    if s == "" || IsBreak(s[0]) then 0 else 1 + RunLength(s[1..])
  }

  predicate HasFmtp(s: string, head: string) {
    FmtpHere(s, head) || (s != "" && HasFmtp(s[1..], head))
  }

  /** replaceAll of the fmtp pattern. */
  function ReplaceFmtp(s: string, head: string, fmtp: string): string
    decreases |s|
  {
    if s == "" then ""
    else if FmtpHere(s, head) then fmtp + ReplaceFmtp(s[|head| + RunLength(s[|head|..])..], head, fmtp)
    else [s[0]] + ReplaceFmtp(s[1..], head, fmtp)
  }

  /** replaceAll of a fixed, non-empty text. */
  function ReplaceText(s: string, text: string, replacement: string): string
    requires text != ""
    decreases |s|
  {
    if s == "" then ""
    else if text <= s then replacement + ReplaceText(s[|text|..], text, replacement)
    else [s[0]] + ReplaceText(s[1..], text, replacement)
  }

  function UseDtx(lowLatency: bool): string {
    if lowLatency then "usedtx=1;" else "usedtx=0;"
  }

  function MinPTime(lowLatency: bool): string {
    if lowLatency then "minptime=10;" else "minptime=20;"
  }

  function BitRate(lowLatency: bool): string {
    if lowLatency then "maxaveragebitrate=96000" else "maxaveragebitrate=64000"
  }

  function OpusParameters(lowLatency: bool): string {
    "useinbandfec=1;" + UseDtx(lowLatency) + MinPTime(lowLatency) + BitRate(lowLatency)
  }

  function FmtpLine(pt: string, lowLatency: bool): string {
    FmtpHead(pt) + OpusParameters(lowLatency)
  }

  /** The appending branch hands replaceAll the literal text "$1": Dart's replaceAll does
      not expand group references, so the rtpmap text is overwritten. */
  function InjectOpusFmtp(sdp: string, lowLatency: bool): string {
    match FirstOpus(sdp)
    case None => sdp
    case Some(pt) =>
      if HasFmtp(sdp, FmtpHead(pt)) then ReplaceFmtp(sdp, FmtpHead(pt), FmtpLine(pt, lowLatency))
      else ReplaceText(sdp, RTPMAP + pt + OPUS, "$1" + CRLF + FmtpLine(pt, lowLatency))
  }

  // ------------------------------------------------------------------- transformSdp

  const AUDIO_CODECS := ["opus/48000/2", "PCMU/8000", "PCMA/8000"]
  const VIDEO_CODECS := ["VP9/90000", "VP8/90000", "H264/90000", "AV1/90000"]

  function TransformSdp(sdp: string, hasVideo: bool, lowLatency: bool): string {
    var audio := Reorder(sdp, "audio", AUDIO_CODECS);
    var opus := InjectOpusFmtp(audio, lowLatency);
    if hasVideo then Reorder(opus, "video", VIDEO_CODECS) else opus
  }
}
