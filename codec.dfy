/** The share-token codec of public/app.js (`compressToURL`, `decompressFromURL`).

    Encoding: UTF-8 octets of the text, zlib DEFLATE at level 9 when the pako library is
    loaded, standard base 64 (section 4 of RFC 4648) through `btoa`, then the URL-safe
    alphabet of section 5 of RFC 4648 (`+` to `-`, `/` to `_`) with the `=` padding
    stripped. Without pako the DEFLATE stage is skipped.

    Decoding: the alphabet is mapped back, `=` is appended up to a multiple of four, and
    the compressed interpretation (`atob`, INFLATE, `TextDecoder`) is tried first; if
    anything in it throws, the plain interpretation (`atob`, strict UTF-8) is tried; if
    that throws too the result is `null`.

    The pako functions are parameters: `Zlib` carries them and `ZlibSound` is the only
    fact the proofs use about them, that INFLATE inverts DEFLATE. */
module Codec {
  import opened Wrappers
  import opened Bytes
  import opened Text
  import Utf8
  import Base64

  /** pako's `deflate(bytes, { level: 9 })` and `inflate(bytes)`; `None` where inflate throws. */
  datatype Zlib = Zlib(deflate: seq<byte> -> seq<byte>, inflate: seq<byte> -> Option<seq<byte>>)

  /** The contract of any zlib implementation: inflating what was deflated gives it back. */
  ghost predicate ZlibSound(z: Zlib) {
    forall b :: z.inflate(z.deflate(b)) == Some(b)
  }

  /** What the page's JavaScript environment supplies to the codec:
      - `pako`: the compression library, or `None` when `typeof pako === 'undefined'`;
      - `maxApplyArgs`: the engine's limit on the argument count of `Function.prototype.apply`,
        beyond which `String.fromCharCode.apply(null, compressed)` throws `RangeError`;
      - `onMalformed`: what `TextDecoder` makes of octets that are not well-formed UTF-8. */
  datatype Runtime = Runtime(pako: Option<Zlib>, maxApplyArgs: nat, onMalformed: seq<byte> -> string)

  /** A character of the URL-safe alphabet, section 5 of RFC 4648. */
  predicate IsTokenChar(c: char) { IsAsciiAlnum(c) || c == '-' || c == '_' }

  predicate IsToken(s: string) { forall i :: 0 <= i < |s| ==> IsTokenChar(s[i]) }

  /** `.replace(/\+/g, '-').replace(/\//g, '_')` */
  function ToUrlSafe(s: string): (r: string)
    ensures |r| == |s|
  {
    seq(|s|, i requires 0 <= i < |s| => if s[i] == '+' then '-' else if s[i] == '/' then '_' else s[i])
  }

  /** `.replace(/-/g, '+').replace(/_/g, '/')` */
  function FromUrlSafe(s: string): (r: string)
    ensures |r| == |s|
  {
    seq(|s|, i requires 0 <= i < |s| => if s[i] == '-' then '+' else if s[i] == '_' then '/' else s[i])
  }

  /** `.replace(/=+$/, '')`: every `=` at the end goes. */
  function StripTrailingEquals(s: string): (r: string)
    ensures |r| <= |s| && r == s[..|r|]
    ensures r == [] || r[|r| - 1] != '='
    ensures forall i :: |r| <= i < |s| ==> s[i] == '='
  {
    if s != [] && s[|s| - 1] == '=' then StripTrailingEquals(s[..|s| - 1]) else s
  }

  /** `n` copies of `=`. */
  function Equals(n: nat): (r: string)
    ensures |r| == n && forall i :: 0 <= i < n ==> r[i] == '='
  {
    seq(n, i => '=')
  }

  /** What the padding loop `while (base64.length % 4) base64 += '='` leaves. */
  function PadTo4(s: string): (r: string)
    ensures |r| % 4 == 0 && |s| <= |r| < |s| + 4 && r[..|s|] == s
    ensures forall i :: |s| <= i < |r| ==> r[i] == '='
  {
    s + Equals((4 - |s| % 4) % 4)
  }

  /** The token made of a base 64 string. */
  function TokenOf(b64: string): string {
    StripTrailingEquals(ToUrlSafe(b64))
  }

  /** The base 64 string the decoder rebuilds from a token. */
  function Base64Of(token: string): string {
    PadTo4(FromUrlSafe(token))
  }

  /** Every base 64 string the encoder makes is a token's preimage: the alphabet remap
      and the padding are undone exactly, and the token is URL-safe. */
  lemma UrlSafeRoundTrip(b: seq<byte>)
    ensures IsToken(TokenOf(Base64.Encode(b)))
    ensures Base64Of(TokenOf(Base64.Encode(b))) == Base64.Encode(b)
  {
    var g := Base64.EncodeGroups(b);
    var p := Base64.Padding(|b|);
    RemapGroups(g, p);
    var u := ToUrlSafe(g);
    StripEqualsSuffix(u, p);
    assert TokenOf(Base64.Encode(b)) == u;
    PadGroups(b);
  }

  /** The remap turns alphabet characters into token characters, one for one, leaves the
      padding alone, and is undone by the reverse remap. */
  lemma RemapGroups(g: string, p: string)
    requires forall i :: 0 <= i < |g| ==> Base64.IsAlphabetChar(g[i])
    requires forall i :: 0 <= i < |p| ==> p[i] == '='
    ensures ToUrlSafe(g + p) == ToUrlSafe(g) + p
    ensures IsToken(ToUrlSafe(g)) && FromUrlSafe(ToUrlSafe(g)) == g
    ensures ToUrlSafe(g) == [] || ToUrlSafe(g)[|g| - 1] != '='
  {
    assert forall i :: 0 <= i < |g| ==> ToUrlSafe(g + p)[i] == ToUrlSafe(g)[i];
    assert forall i :: |g| <= i < |g + p| ==> ToUrlSafe(g + p)[i] == p[i - |g|];
  }

  /** The padding loop restores exactly the `=` that the encoder wrote. */
  lemma PadGroups(b: seq<byte>)
    ensures PadTo4(Base64.EncodeGroups(b)) == Base64.Encode(b)
  {
    var g := Base64.EncodeGroups(b);
    var p := Base64.Padding(|b|);
    var m := |g| % 4;
    var n := (4 - m) % 4;
    Base64.EncodeGroupsLengthMod(b);
    PadCount(m);
    assert n == |p| by {
      if |b| % 3 == 0 {
        assert m == 0 && |p| == 0;
      } else if |b| % 3 == 1 {
        assert m == 2 && |p| == 2;
      } else {
        assert m == 3 && |p| == 1;
      }
    }
    assert Equals(n) == p;
    assert PadTo4(g) == g + Equals(n);
  }

  lemma PadCount(m: int)
    requires 0 <= m < 4
    ensures (4 - m) % 4 == if m == 0 then 0 else 4 - m
  {
  }

  /** Stripping a run of `=` from a string that does not itself end in `=`. */
  lemma {:induction false} StripEqualsSuffix(s: string, p: string)
    requires s == [] || s[|s| - 1] != '='
    requires forall i :: 0 <= i < |p| ==> p[i] == '='
    ensures StripTrailingEquals(s + p) == s
    decreases |p|
  {
    if p != [] {
      assert (s + p)[..|s + p| - 1] == s + p[..|p| - 1];
      StripEqualsSuffix(s, p[..|p| - 1]);
    } else {
      assert s + p == s;
    }
  }

  /** `btoa` of the binary string of some octets never throws, and gives their encoding. */
  lemma BtoaOfBytes(b: seq<byte>)
    ensures Base64.Btoa(FromBytes(b)) == Some(Base64.Encode(b))
  {
    BytesRoundTrip(b, FromBytes(b));
  }

  /** `compressToURL(text)`; `None` is the `null` returned from the `catch`. */
  function CompressToURL(rt: Runtime, text: string): (r: Option<string>)
    ensures r.Some? ==> IsToken(r.value) && (r.value == [] || r.value[|r.value| - 1] != '=')
    ensures rt.pako.None? ==> r.Some?
    ensures rt.pako.Some? ==>
      (r.None? <==> |rt.pako.value.deflate(Utf8.Encode(text))| > rt.maxApplyArgs)
  {
    if rt.pako.Some? then
      var compressed := rt.pako.value.deflate(Utf8.Encode(text));
      if |compressed| > rt.maxApplyArgs then None
      else
        BtoaOfBytes(compressed);
        UrlSafeRoundTrip(compressed);
        match Base64.Btoa(FromBytes(compressed))
        case None => None
        case Some(b64) => Some(TokenOf(b64))
    else
      var binary := FromBytes(Utf8.Encode(text));
      BtoaOfBytes(Utf8.Encode(text));
      UrlSafeRoundTrip(Utf8.Encode(text));
      match Base64.Btoa(binary)
      case None => None
      case Some(b64) => Some(TokenOf(b64))
  }

  /** The plain interpretation, `decodeURIComponent(escape(atob(base64)))`. */
  function PlainDecode(base64: string): (r: Option<string>)
    ensures r.Some? ==> Base64.Atob(base64).Some? && |r.value| <= |Base64.Atob(base64).value|
  {
    match Base64.Atob(base64)
    case None => None
    case Some(binary) => Utf8.Decode(ToBytes(binary))
  }

  /** The compressed interpretation: `atob`, `pako.inflate`, `new TextDecoder().decode`. */
  function InflateDecode(z: Zlib, onMalformed: seq<byte> -> string, base64: string): (r: Option<string>)
    ensures r.Some? <==> Base64.Atob(base64).Some? && z.inflate(ToBytes(Base64.Atob(base64).value)).Some?
  {
    match Base64.Atob(base64)
    case None => None
    case Some(binary) =>
      match z.inflate(ToBytes(binary))
      case None => None
      case Some(out) => Some(Utf8.TextDecoderDecode(out, onMalformed))
  }

  /** `decompressFromURL(token)`: `null` only when both interpretations throw. */
  function DecodeToken(rt: Runtime, token: string): (r: Option<string>)
    ensures r.None? <==>
      (rt.pako.None? || InflateDecode(rt.pako.value, rt.onMalformed, Base64Of(token)).None?) &&
      PlainDecode(Base64Of(token)).None?
    ensures rt.pako.Some? && InflateDecode(rt.pako.value, rt.onMalformed, Base64Of(token)).Some? ==>
      r == InflateDecode(rt.pako.value, rt.onMalformed, Base64Of(token))
  {
    var base64 := Base64Of(token);
    if rt.pako.Some? then
      match InflateDecode(rt.pako.value, rt.onMalformed, base64)
      case Some(text) => Some(text)
      case None => PlainDecode(base64)
    else
      PlainDecode(base64)
  }

  /** The first statements of `decompressFromURL` and of its `catch` block: undo the
      alphabet remap, then pad with `=` one character at a time. */
  method RestoreBase64(token: string) returns (base64: string)
    ensures base64 == Base64Of(token)
  {
    base64 := FromUrlSafe(token);
    ghost var target := PadTo4(FromUrlSafe(token));
    while |base64| % 4 != 0
      invariant |FromUrlSafe(token)| <= |base64| <= |target|
      invariant base64 == target[..|base64|]
      decreases |target| - |base64|
    {
      base64 := base64 + "=";
    }
  }

  /** `decompressFromURL(token)`, statement by statement: the octets of `atob` are copied
      into a fresh `Uint8Array` before INFLATE, and the `catch` block rebuilds the base 64
      string for the plain retry. */
  method DecompressFromURL(rt: Runtime, token: string) returns (r: Option<string>)
    ensures r == DecodeToken(rt, token)
  {
    var base64 := RestoreBase64(token);
    if rt.pako.Some? {
      var binaryStr := Base64.Atob(base64);
      if binaryStr.Some? {
        var bin := binaryStr.value;
        var bytes := new byte[|bin|];
        var i := 0;
        while i < |bin|
          invariant 0 <= i <= |bin|
          invariant bytes[..i] == ToBytes(bin)[..i]
        {
          bytes[i] := bin[i] as int;
          i := i + 1;
        }
        assert bytes[..] == bytes[..i];
        assert ToBytes(bin)[..i] == ToBytes(bin);
        var decompressed := rt.pako.value.inflate(bytes[..]);
        if decompressed.Some? {
          return Some(Utf8.TextDecoderDecode(decompressed.value, rt.onMalformed));
        }
      }
      // the catch block: plain base64 of UTF-8
      var retry := RestoreBase64(token);
      r := PlainDecode(retry);
    } else {
      // the fallback branch, and its identical retry in the catch block
      r := PlainDecode(base64);
      if r.None? {
        var retry := RestoreBase64(token);
        r := PlainDecode(retry);
      }
    }
  }

  /** Every token the encoder produces, read back through the same runtime, is the text
      it encoded — for any text without pako, and for any text that does not begin with
      U+FEFF with a sound pako. */
  lemma CodecRoundTrip(rt: Runtime, text: string)
    requires rt.pako.Some? ==> ZlibSound(rt.pako.value)
    requires rt.pako.Some? ==> text == [] || text[0] != '\U{FEFF}'
    requires CompressToURL(rt, text).Some?
    ensures DecodeToken(rt, CompressToURL(rt, text).value) == Some(text)
  {
    var utf8 := Utf8.Encode(text);
    if rt.pako.Some? {
      var compressed := rt.pako.value.deflate(utf8);
      var token := TokenOfOctets(rt, text, compressed);
      TokenDecodesToBytes(compressed);
      assert rt.pako.value.inflate(compressed) == Some(utf8);
      assert InflateDecode(rt.pako.value, rt.onMalformed, Base64Of(token)) == Some(Utf8.TextDecoderDecode(utf8, rt.onMalformed));
      Utf8.DecodeEncode(text);
    } else {
      var token := TokenOfOctets(rt, text, utf8);
      TokenDecodesToBytes(utf8);
      assert PlainDecode(Base64Of(token)) == Utf8.Decode(utf8);
      Utf8.DecodeEncode(text);
    }
  }

  /** The token the encoder makes is the URL-safe form of the base 64 of the octets it
      encodes: the deflated UTF-8 with pako, the UTF-8 itself without. */
  lemma TokenOfOctets(rt: Runtime, text: string, b: seq<byte>) returns (token: string)
    requires CompressToURL(rt, text).Some?
    requires b == if rt.pako.Some? then rt.pako.value.deflate(Utf8.Encode(text)) else Utf8.Encode(text)
    ensures token == CompressToURL(rt, text).value == TokenOf(Base64.Encode(b))
  {
    BtoaOfBytes(b);
    token := TokenOf(Base64.Encode(b));
  }

  /** `atob` of the rebuilt base 64 string is the binary string of the encoded octets. */
  lemma TokenDecodesToBytes(b: seq<byte>)
    ensures Base64.Atob(Base64Of(TokenOf(Base64.Encode(b)))) == Some(FromBytes(b))
    ensures ToBytes(FromBytes(b)) == b
  {
    UrlSafeRoundTrip(b);
    Base64.DecodeEncode(b);
    BytesRoundTrip(b, FromBytes(b));
  }

  /** A token made without pako (the fallback branch) and read where pako is loaded:
      the compressed interpretation is tried first, so the text comes back exactly when
      INFLATE rejects its raw UTF-8 octets. */
  lemma FallbackTokenUnderPako(rt: Runtime, text: string)
    requires rt.pako.Some?
    requires rt.pako.value.inflate(Utf8.Encode(text)).None?
    ensures DecodeToken(rt, CompressToURL(rt.(pako := None), text).value) == Some(text)
  {
    var utf8 := Utf8.Encode(text);
    Utf8.DecodeEncode(text);
    TokenDecodesToBytes(utf8);
  }

  /** A string of token characters whose length leaves remainder 1 modulo 4 can never be
      decoded: the padding loop appends `===`, and `atob` rejects it. */
  lemma {:induction false} ImpossibleLengthIsNull(rt: Runtime, token: string)
    requires IsToken(token) && |token| % 4 == 1
    ensures DecodeToken(rt, token) == None
  {
    var b64 := Base64Of(token);
    var u := FromUrlSafe(token);
    assert b64 == u + "===";
    assert Base64.RemoveAsciiWhitespace(b64) == b64 by {
      assert forall i :: 0 <= i < |b64| ==> !Base64.IsAsciiWhitespace(b64[i]);
      KeepsAllWhenNoWhitespace(b64);
    }
    assert Base64.Atob(b64).None? by {
      var d := Base64.DropFinalPadding(b64);
      assert d == u + "=";
      assert !Base64.IsAlphabetChar(d[|d| - 1]);
    }
  }

  lemma {:induction false} KeepsAllWhenNoWhitespace(s: string)
    requires forall i :: 0 <= i < |s| ==> !Base64.IsAsciiWhitespace(s[i])
    ensures Base64.RemoveAsciiWhitespace(s) == s
    decreases |s|
  {
    if s != [] {
      KeepsAllWhenNoWhitespace(s[1..]);
      assert [s[0]] + s[1..] == s;
    }
  }

  /** As written, with pako loaded: a text that begins with U+FEFF comes back without it,
      because `TextDecoder` drops a leading byte-order mark. */
  lemma BomIsLost(rt: Runtime, text: string)
    requires rt.pako.Some? && ZlibSound(rt.pako.value)
    requires text != [] && text[0] == '\U{FEFF}'
    requires CompressToURL(rt, text).Some?
    ensures DecodeToken(rt, CompressToURL(rt, text).value) == Some(text[1..])
    ensures DecodeToken(rt, CompressToURL(rt, text).value) != Some(text)
  {
    var utf8 := Utf8.Encode(text);
    var compressed := rt.pako.value.deflate(utf8);
    var token := TokenOfOctets(rt, text, compressed);
    assert InflateDecode(rt.pako.value, rt.onMalformed, Base64Of(token)) == Some(Utf8.TextDecoderDecode(utf8, rt.onMalformed)) by {
      TokenDecodesToBytes(compressed);
    }
    assert Utf8.TextDecoderDecode(utf8, rt.onMalformed) == text[1..] by {
      Utf8.DecodeEncode(text);
      assert text == [text[0]] + text[1..];
    }
  }

  /** A concrete instance: the one-character text U+FEFF decodes to the empty string. */
  lemma BomOnlyTextComesBackEmpty(rt: Runtime)
    requires rt.pako.Some? && ZlibSound(rt.pako.value)
    requires CompressToURL(rt, "\U{FEFF}").Some?
    ensures DecodeToken(rt, CompressToURL(rt, "\U{FEFF}").value) == Some("")
  {
    BomIsLost(rt, "\U{FEFF}");
  }

  /** The compressed interpretation with `new TextDecoder('utf-8', { ignoreBOM: true })`. */
  function InflateDecodeKeepingBom(z: Zlib, onMalformed: seq<byte> -> string, base64: string): Option<string> {
    match Base64.Atob(base64)
    case None => None
    case Some(binary) =>
      match z.inflate(ToBytes(binary))
      case None => None
      case Some(out) => Some(Utf8.TextDecoderDecodeKeepingBom(out, onMalformed))
  }

  /** `decompressFromURL` with the byte-order mark kept; otherwise as written. */
  function DecodeTokenKeepingBom(rt: Runtime, token: string): (r: Option<string>)
    ensures r.None? <==>
      (rt.pako.None? || InflateDecodeKeepingBom(rt.pako.value, rt.onMalformed, Base64Of(token)).None?) &&
      PlainDecode(Base64Of(token)).None?
  {
    var base64 := Base64Of(token);
    if rt.pako.Some? then
      match InflateDecodeKeepingBom(rt.pako.value, rt.onMalformed, base64)
      case Some(text) => Some(text)
      case None => PlainDecode(base64)
    else
      PlainDecode(base64)
  }

  /** With the byte-order mark kept, every token the encoder produces decodes to the
      text it encoded, for every text. */
  lemma CorrectedRoundTrip(rt: Runtime, text: string)
    requires rt.pako.Some? ==> ZlibSound(rt.pako.value)
    requires CompressToURL(rt, text).Some?
    ensures DecodeTokenKeepingBom(rt, CompressToURL(rt, text).value) == Some(text)
  {
    var utf8 := Utf8.Encode(text);
    Utf8.DecodeEncode(text);
    if rt.pako.Some? {
      var compressed := rt.pako.value.deflate(utf8);
      TokenDecodesToBytes(compressed);
      assert rt.pako.value.inflate(compressed) == Some(utf8);
    } else {
      TokenDecodesToBytes(utf8);
    }
  }

  /** On encoder tokens of text that does not begin with U+FEFF (every JSON payload of
      a share link begins with `{`), the decoder as written and the corrected one agree. */
  lemma CorrectionAgreesWithoutBom(rt: Runtime, text: string)
    requires rt.pako.Some? ==> ZlibSound(rt.pako.value)
    requires text == [] || text[0] != '\U{FEFF}'
    requires CompressToURL(rt, text).Some?
    ensures DecodeToken(rt, CompressToURL(rt, text).value) == DecodeTokenKeepingBom(rt, CompressToURL(rt, text).value)
  {
    CodecRoundTrip(rt, text);
    CorrectedRoundTrip(rt, text);
  }
}
