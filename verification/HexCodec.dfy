/** The hex helpers of lib/services/signaling_crypto.dart (base 16 of section 8 of RFC 4648,
    in lower case). */
module HexCodec {
  import opened Wrappers
  import Text

  newtype byte = x: int | 0 <= x < 256

  const DIGITS := "0123456789abcdef"

  /** A byte in base 16, with no leading zero. */
  function ToRadix16(b: byte): string {
    if b < 16 then [DIGITS[b as int]] else [DIGITS[b as int / 16], DIGITS[b as int % 16]]
  }

  /** Zeros in front up to two characters. */
  function PadLeft2(s: string): string {
    if |s| == 0 then "00" else if |s| == 1 then "0" + s else s
  }

  /** Two lower-case digits a byte. */
  function Encode(bytes: seq<byte>): (h: string)
    ensures |h| == 2 * |bytes|
  {
    if bytes == [] then "" else PadLeft2(ToRadix16(bytes[0])) + Encode(bytes[1..])
  }

  function HexValue(c: char): Option<byte> {
    if '0' <= c <= '9' then Some((c as int - '0' as int) as byte)
    else if 'a' <= c <= 'f' then Some((c as int - 'a' as int + 10) as byte)
    else if 'A' <= c <= 'F' then Some((c as int - 'A' as int + 10) as byte)
    else None
  }

  predicate IsHex(c: char) {
    HexValue(c).Some?
  }

  /** What Dart trims around a number: Unicode White_Space and the byte order mark. */
  predicate IsSpace(c: char) {
    var n := c as int;
    9 <= n <= 13 || n == 32 || n == 0x85 || n == 0xA0 || n == 0x1680 || 0x2000 <= n <= 0x200A ||
    n == 0x2028 || n == 0x2029 || n == 0x202F || n == 0x205F || n == 0x3000 || n == 0xFEFF
  }

  /** int.parse of two characters with radix 16, as stored in a Uint8List: besides two digits
      it takes one digit with a sign or with a space on either side. */
  function ParsePair(a: char, b: char): Option<byte> {
    match (HexValue(a), HexValue(b))
    case (Some(x), Some(y)) => Some(((x as int) * 16 + y as int) as byte)
    case (None, Some(y)) =>
      if a == '+' || IsSpace(a) then Some(y)
      else if a == '-' then Some(((256 - y as int) % 256) as byte)
      else None
    case (Some(x), None) => if IsSpace(b) then Some(x) else None
    case (None, None) => None
  }

  datatype FormatError = OddLength | NotHex

  function Prepend(bytes: seq<byte>, r: Result<seq<byte>, FormatError>): Result<seq<byte>, FormatError> {
    match r
    case Ok(more) => Ok(bytes + more)
    case Err(e) => Err(e)
  }

  function Decode(h: string): Result<seq<byte>, FormatError> {
    if h == "" then Ok([])
    else if |h| == 1 then Err(OddLength)
    else
      match ParsePair(h[0], h[1])
      case None => Err(NotHex)
      case Some(b) => Prepend([b], Decode(h[2..]))
  }

  lemma PrependNothing(r: Result<seq<byte>, FormatError>)
    ensures Prepend([], r) == r
  {
    if r.Ok? {
      assert [] + r.value == r.value;
    }
  }

  lemma PrependTwice(a: seq<byte>, b: seq<byte>, r: Result<seq<byte>, FormatError>)
    ensures Prepend(a, Prepend(b, r)) == Prepend(a + b, r)
  {
    if r.Ok? {
      assert a + (b + r.value) == a + b + r.value;
    }
  }

  /** The loop of _hexDecode: two characters at a time into a buffer of half the length. */
  method HexDecode(h: string) returns (r: Result<seq<byte>, FormatError>)
    ensures r == Decode(h)
  {
    var bytes := new byte[|h| / 2];
    var i := 0;
    assert h[i..] == h;
    PrependNothing(Decode(h));
    while i < |h|
      invariant 0 <= i <= |h| && i % 2 == 0 && bytes.Length == |h| / 2
      invariant Decode(h) == Prepend(bytes[..i / 2], Decode(h[i..]))
    {
      ghost var rest := h[i..];
      if i + 2 > |h| {
        assert |rest| == 1;
        return Err(OddLength);
      }
      var parsed := ParsePair(h[i], h[i + 1]);
      assert rest[0] == h[i] && rest[1] == h[i + 1] && rest[2..] == h[i + 2..];
      if parsed.None? {
        return Err(NotHex);
      }
      ghost var done := bytes[..i / 2];
      bytes[i / 2] := parsed.value;
      assert bytes[..i / 2 + 1] == done + [parsed.value];
      PrependTwice(done, [parsed.value], Decode(h[i + 2..]));
      i := i + 2;
    }
    assert h[i..] == "" && bytes[..i / 2] == bytes[..] == bytes[..] + [];
    return Ok(bytes[..]);
  }

  // ------------------------------------------------------------------------ round trips

  lemma DigitValue(n: int)
    requires 0 <= n < 16
    ensures HexValue(DIGITS[n]) == Some(n as byte) && DIGITS[n] != ':'
  {
    var c := DIGITS[n];
    if n < 10 {
      assert c as int == '0' as int + n;
    } else {
      assert c as int == 'a' as int + (n - 10);
    }
  }

  lemma ByteText(b: byte)
    ensures PadLeft2(ToRadix16(b)) == [DIGITS[b as int / 16], DIGITS[b as int % 16]]
  {
  }

  lemma ByteRoundTrip(b: byte)
    ensures ParsePair(DIGITS[b as int / 16], DIGITS[b as int % 16]) == Some(b)
  {
    DigitValue(b as int / 16);
    DigitValue(b as int % 16);
  }

  lemma DecodeCons(a: char, b: char, rest: string)
    ensures Decode([a, b] + rest) ==
            if ParsePair(a, b).None? then Err(NotHex) else Prepend([ParsePair(a, b).value], Decode(rest))
  {
    var h := [a, b] + rest;
    assert h[0] == a && h[1] == b && h[2..] == rest;
  }

  /** Decoding undoes encoding, for all bytes. */
  lemma {:induction false} DecodeEncode(bytes: seq<byte>)
    ensures Decode(Encode(bytes)) == Ok(bytes)
  {
    if bytes != [] {
      var b, more := bytes[0], bytes[1..];
      ByteText(b);
      ByteRoundTrip(b);
      DecodeEncode(more);
      DecodeCons(DIGITS[b as int / 16], DIGITS[b as int % 16], Encode(more));
      assert [b] + more == bytes;
    }
  }

  predicate AllHex(h: string) {
    forall k :: 0 <= k < |h| ==> IsHex(h[k])
  }

  /** An even number of characters, every pair of which parses. */
  predicate PairsParse(h: string) {
    |h| % 2 == 0 && forall k :: 0 <= k < |h| / 2 ==> ParsePair(h[2 * k], h[2 * k + 1]).Some?
  }

  lemma {:induction false} DecodedLength(h: string)
    requires Decode(h).Ok?
    ensures |h| == 2 * |Decode(h).value|
  {
    if h != "" {
      DecodedLength(h[2..]);
    }
  }

  /** That is what is accepted, and it makes one byte for every pair. */
  lemma DecodesIff(h: string)
    ensures Decode(h).Ok? <==> PairsParse(h)
    ensures Decode(h).Ok? ==> |h| == 2 * |Decode(h).value|
  {
    AcceptsIff(h);
    if Decode(h).Ok? {
      DecodedLength(h);
    }
  }

  lemma PairsParseCons(a: char, b: char, rest: string)
    ensures PairsParse([a, b] + rest) <==> ParsePair(a, b).Some? && PairsParse(rest)
  {
    var h := [a, b] + rest;
    assert h[2 * 0] == a && h[2 * 0 + 1] == b;
    assert forall k :: 0 <= k < |rest| / 2 ==> rest[2 * k] == h[2 * (k + 1)] && rest[2 * k + 1] == h[2 * (k + 1) + 1];
    if PairsParse(h) {
      assert ParsePair(h[2 * 0], h[2 * 0 + 1]).Some?;
      forall k | 0 <= k < |rest| / 2 ensures ParsePair(rest[2 * k], rest[2 * k + 1]).Some? {
        assert ParsePair(h[2 * (k + 1)], h[2 * (k + 1) + 1]).Some?;
      }
    } else if ParsePair(a, b).Some? && PairsParse(rest) {
      forall k | 0 <= k < |h| / 2 ensures ParsePair(h[2 * k], h[2 * k + 1]).Some? {
        if k > 0 {
          assert ParsePair(rest[2 * (k - 1)], rest[2 * (k - 1) + 1]).Some?;
        }
      }
    }
  }

  lemma {:induction false} AcceptsIff(h: string)
    ensures Decode(h).Ok? <==> PairsParse(h)
  {
    if |h| >= 2 {
      AcceptsIff(h[2..]);
      assert h == [h[0], h[1]] + h[2..];
      PairsParseCons(h[0], h[1], h[2..]);
    }
  }

  lemma HexDigits(c: char)
    ensures IsHex(c) <==> c in "0123456789abcdefABCDEF"
  {
  }

  /** Which pairs parse: two digits of either case, or a digit after a sign or a space, or a
      digit before a space. */
  lemma ParsesPairIff(a: char, b: char)
    ensures ParsePair(a, b).Some? <==>
            || (a in "0123456789abcdefABCDEF" && b in "0123456789abcdefABCDEF")
            || ((a == '+' || a == '-' || IsSpace(a)) && b in "0123456789abcdefABCDEF")
            || (a in "0123456789abcdefABCDEF" && IsSpace(b))
  {
    HexDigits(a);
    HexDigits(b);
  }

  /** Re-encoding a digit gives its lower case; a sign or space is not given back. */
  lemma DigitLower(c: char)
    requires IsHex(c)
    ensures DIGITS[HexValue(c).value as int] == Text.LowerChar(c)
  {
    var n := HexValue(c).value as int;
    DigitValue(n);
    if n < 10 {
      assert DIGITS[n] as int == '0' as int + n;
    } else {
      assert DIGITS[n] as int == 'a' as int + (n - 10);
    }
  }

  lemma NotHexNotDigit(c: char, n: int)
    requires !IsHex(c) && 0 <= n < 16
    ensures DIGITS[n] != Text.LowerChar(c)
  {
    DigitValue(n);
  }

  lemma PairLower(a: char, b: char)
    requires ParsePair(a, b).Some?
    ensures var v := ParsePair(a, b).value as int;
            [DIGITS[v / 16], DIGITS[v % 16]] == [Text.LowerChar(a), Text.LowerChar(b)] <==> IsHex(a) && IsHex(b)
  {
    var v := ParsePair(a, b).value as int;
    if !IsHex(a) {
      NotHexNotDigit(a, v / 16);
    } else if !IsHex(b) {
      NotHexNotDigit(b, v % 16);
    } else {
      PairDigits(a, b);
      DigitLower(a);
      DigitLower(b);
    }
  }

  lemma PairDigits(a: char, b: char)
    requires IsHex(a) && IsHex(b)
    ensures ParsePair(a, b).Some? && ParsePair(a, b).value as int / 16 == HexValue(a).value as int
    ensures ParsePair(a, b).value as int % 16 == HexValue(b).value as int
  {
  }

  lemma ConsText(x: string, y: string, a: string, b: string)
    requires |x| == |a|
    ensures x + y == a + b <==> x == a && y == b
  {
    if x + y == a + b {
      assert x == (x + y)[..|x|] && y == (x + y)[|x|..];
    }
  }

  /** Encoding what was decoded gives the text in lower case exactly when the text is digits
      throughout. */
  lemma {:induction false} EncodeDecodeIff(h: string, bytes: seq<byte>)
    requires Decode(h) == Ok(bytes)
    ensures Encode(bytes) == Text.Lower(h) <==> AllHex(h)
  {
    if h != "" {
      var a, b, rest := h[0], h[1], h[2..];
      var v, more := bytes[0], Decode(rest).value;
      assert bytes[1..] == more;
      EncodeDecodeIff(rest, more);
      EncodeDecodeCons(a, b, rest, v, more);
      assert h == [a, b] + rest && bytes == [v] + more;
    }
  }

  lemma EncodeDecodeCons(a: char, b: char, rest: string, v: byte, more: seq<byte>)
    requires ParsePair(a, b) == Some(v) && (Encode(more) == Text.Lower(rest) <==> AllHex(rest))
    ensures Encode([v] + more) == Text.Lower([a, b] + rest) <==> AllHex([a, b] + rest)
  {
    var x, y := [DIGITS[v as int / 16], DIGITS[v as int % 16]], [Text.LowerChar(a), Text.LowerChar(b)];
    EncodeCons(v, more);
    LowerPair(a, b, rest);
    PairLower(a, b);
    ConsText(x, Encode(more), y, Text.Lower(rest));
    AllHexCons(a, b, rest);
  }

  lemma EncodeCons(v: byte, more: seq<byte>)
    ensures Encode([v] + more) == [DIGITS[v as int / 16], DIGITS[v as int % 16]] + Encode(more)
  {
    ByteText(v);
    assert ([v] + more)[1..] == more;
  }

  lemma LowerPair(a: char, b: char, rest: string)
    ensures Text.Lower([a, b] + rest) == [Text.LowerChar(a), Text.LowerChar(b)] + Text.Lower(rest)
  {
    Text.LowerConcat([a, b], rest);
    assert Text.Lower([a, b]) == [Text.LowerChar(a), Text.LowerChar(b)];
  }

  lemma AllHexCons(a: char, b: char, rest: string)
    ensures AllHex([a, b] + rest) <==> IsHex(a) && IsHex(b) && AllHex(rest)
  {
    var h := [a, b] + rest;
    assert h[0] == a && h[1] == b;
    assert forall k :: 0 <= k < |rest| ==> h[k + 2] == rest[k];
    if AllHex(h) {
      forall k | 0 <= k < |rest| ensures IsHex(rest[k]) {
        assert IsHex(h[k + 2]);
      }
    }
  }

  /** Encoded text is digits only, so no colon. */
  lemma {:induction false} EncodedIsHex(bytes: seq<byte>)
    ensures AllHex(Encode(bytes)) && ':' !in Encode(bytes)
  {
    if bytes != [] {
      var b := bytes[0] as int;
      ByteText(bytes[0]);
      DigitValue(b / 16);
      DigitValue(b % 16);
      EncodedIsHex(bytes[1..]);
      AllHexCons(DIGITS[b / 16], DIGITS[b % 16], Encode(bytes[1..]));
    }
  }
}
