/** The wire format of lib/services/signaling_crypto.dart around whatever cipher and text
    encoding it is given. */
module SignalingCrypto {
  import opened Wrappers
  import opened HexCodec

  /** The library calls, for one key: UTF-8, and authenticated encryption with its tag apart. */
  datatype Primitives = Primitives(
    utf8Encode: string -> seq<byte>,
    utf8Decode: seq<byte> -> Option<string>,
    seal: (seq<byte>, seq<byte>) -> SecretBox,
    open: SecretBox -> Option<seq<byte>>)

  datatype SecretBox = SecretBox(nonce: seq<byte>, cipherText: seq<byte>, mac: seq<byte>)

  const TAG_BYTES := 16

  /** The library does what it should: boxes open again, with the nonce they were sealed with
      and a tag of 16 bytes, and text survives its encoding. */
  ghost predicate Sound(p: Primitives) {
    && (forall nonce, clear :: p.seal(nonce, clear).nonce == nonce && |p.seal(nonce, clear).mac| == 16)
    && (forall nonce, clear :: p.open(p.seal(nonce, clear)) == Some(clear))
    && (forall s :: p.utf8Decode(p.utf8Encode(s)) == Some(s))
  }

  /** indexOf(':') */
  function IndexOfColon(s: string): (r: Option<nat>)
    ensures r.Some? ==> r.value < |s| && s[r.value] == ':' && ':' !in s[..r.value]
    ensures r.None? <==> ':' !in s
  {
    if s == "" then None
    else if s[0] == ':' then Some(0)
    else
      match IndexOfColon(s[1..])
      case None => assert s == [s[0]] + s[1..]; None
      case Some(i) => assert s[..i + 1] == [s[0]] + s[1..][..i]; Some(i + 1)
  }

  /** What the client puts on the wire: nonce and cipher text with its tag, in hex. */
  function Encrypt(p: Primitives, nonce: seq<byte>, plaintext: string): string {
    var box := p.seal(nonce, p.utf8Encode(plaintext));
    Encode(box.nonce) + ":" + Encode(box.cipherText + box.mac)
  }

  /** The box that a wire text stands for: both halves decode and there is room for a tag. */
  function Unpack(encrypted: string): Option<SecretBox> {
    match IndexOfColon(encrypted)
    case None => None
    case Some(colon) => UnpackHalves(encrypted[..colon], encrypted[colon + 1..])
  }

  function UnpackHalves(nonceHex: string, ciphertextHex: string): Option<SecretBox> {
    match (Decode(nonceHex), Decode(ciphertextHex))
    case (Ok(nonce), Ok(bytes)) =>
      if |bytes| < TAG_BYTES then None
      else Some(SecretBox(nonce, bytes[..|bytes| - TAG_BYTES], bytes[|bytes| - TAG_BYTES..]))
    case _ => None
  }

  function Open(p: Primitives, encrypted: string): Option<string> {
    match Unpack(encrypted)
    case None => None
    case Some(box) =>
      match p.open(box)
      case None => None
      case Some(clear) => p.utf8Decode(clear)
  }

  /** What cannot be opened, for whatever reason, is handed on as it came. */
  method Decrypt(p: Primitives, encrypted: string) returns (text: string)
    ensures text == if Open(p, encrypted).Some? then Open(p, encrypted).value else encrypted
    ensures ':' !in encrypted ==> text == encrypted
  {
    var colon := IndexOfColon(encrypted);
    if colon.None? {
      return encrypted;
    }
    var nonce := HexDecode(encrypted[..colon.value]);
    if nonce.Err? {
      return encrypted;
    }
    var bytes := HexDecode(encrypted[colon.value + 1..]);
    if bytes.Err? || |bytes.value| < TAG_BYTES {
      return encrypted;
    }
    var split := |bytes.value| - TAG_BYTES;
    var clear := p.open(SecretBox(nonce.value, bytes.value[..split], bytes.value[split..]));
    if clear.None? {
      return encrypted;
    }
    var decoded := p.utf8Decode(clear.value);
    if decoded.None? {
      return encrypted;
    }
    return decoded.value;
  }

  lemma {:induction false} FirstColon(x: string, y: string)
    requires ':' !in x
    ensures IndexOfColon(x + ":" + y) == Some(|x|)
  {
    var s := x + ":" + y;
    if x == "" {
      assert s[0] == ':';
    } else {
      assert s[0] == x[0] && s[1..] == x[1..] + ":" + y;
      FirstColon(x[1..], y);
    }
  }

  lemma Halves(x: string, y: string)
    ensures (x + ":" + y)[..|x|] == x && (x + ":" + y)[|x| + 1..] == y
  {
  }

  lemma UnpackParts(x: string, y: string)
    requires ':' !in x
    ensures Unpack(x + ":" + y) == UnpackHalves(x, y)
  {
    FirstColon(x, y);
    Halves(x, y);
  }

  /** The colon and the tag fall where the reader looks for them, so packing is undone. */
  lemma UnpackPacked(nonce: seq<byte>, cipherText: seq<byte>, mac: seq<byte>)
    requires |mac| == 16
    ensures Unpack(Encode(nonce) + ":" + Encode(cipherText + mac)) == Some(SecretBox(nonce, cipherText, mac))
  {
    EncodedIsHex(nonce);
    UnpackParts(Encode(nonce), Encode(cipherText + mac));
    DecodeEncode(nonce);
    DecodeEncode(cipherText + mac);
    assert (cipherText + mac)[..|cipherText|] == cipherText && (cipherText + mac)[|cipherText|..] == mac;
  }

  /** With a sound cipher, decryption undoes encryption for every text and nonce. */
  lemma OpenEncrypted(p: Primitives, nonce: seq<byte>, plaintext: string)
    requires Sound(p)
    ensures Open(p, Encrypt(p, nonce, plaintext)) == Some(plaintext)
  {
    var clear := p.utf8Encode(plaintext);
    var box := p.seal(nonce, clear);
    UnpackPacked(box.nonce, box.cipherText, box.mac);
    assert box == SecretBox(box.nonce, box.cipherText, box.mac);
    assert p.open(box) == Some(clear);
  }

  /** What is taken for a box: a colon, before it and after it pairs of characters that parse
      as bytes, with a sign or a space for a digit where the parser takes them, and after it at
      least the sixteen pairs of a tag. */
  lemma UnpacksIff(encrypted: string)
    ensures Unpack(encrypted).Some? <==>
            var colon := IndexOfColon(encrypted);
            colon.Some? && PairsParse(encrypted[..colon.value]) && PairsParse(encrypted[colon.value + 1..]) &&
            |encrypted| - colon.value - 1 >= 32
  {
    var colon := IndexOfColon(encrypted);
    if colon.Some? {
      DecodesIff(encrypted[..colon.value]);
      DecodesIff(encrypted[colon.value + 1..]);
    }
  }

  /** So a text is handed on unopened whenever it has not that form. */
  lemma OpenedHasForm(p: Primitives, encrypted: string)
    requires Open(p, encrypted).Some?
    ensures var colon := IndexOfColon(encrypted);
            colon.Some? && PairsParse(encrypted[..colon.value]) && PairsParse(encrypted[colon.value + 1..]) &&
            |encrypted| - colon.value - 1 >= 32
  {
    UnpacksIff(encrypted);
  }
}
