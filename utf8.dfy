/** UTF-8 (RFC 3629) as the browser applies it to note text:
    - `new TextEncoder().encode(text)` and `unescape(encodeURIComponent(text))` both give
      the UTF-8 octets of the text;
    - `decodeURIComponent(escape(binary))` decodes them strictly: any ill-formed sequence
      (a stray continuation byte, a truncated sequence, an over-long form, a surrogate,
      a value above U+10FFFF) throws `URIError`, modelled as `None`;
    - `new TextDecoder().decode(bytes)` never throws: on well-formed input it gives the
      strict decoding minus a leading byte-order mark (its `ignoreBOM` option is off), and
      on ill-formed input a string with replacement characters, which is left to a
      parameter here. */
module Utf8 {
  import opened Wrappers
  import opened Bytes

  /** A continuation octet, `10xxxxxx`. */
  predicate IsContinuation(b: byte) { 0x80 <= b < 0xC0 }

  /** The one to four octets of one scalar value. */
  function EncodeScalar(c: char): (r: seq<byte>)
    ensures 1 <= |r| <= 4
    ensures |r| == 1 <==> (c as int) < 0x80
    ensures r[0] < 0x80 || 0xC2 <= r[0] < 0xF5
    ensures forall i :: 1 <= i < |r| ==> IsContinuation(r[i])
  {
    var v := c as int;
    if v < 0x80 then [v]
    else if v < 0x800 then [0xC0 + v / 64, 0x80 + v % 64]
    else if v < 0x10000 then [0xE0 + v / 4096, 0x80 + (v / 64) % 64, 0x80 + v % 64]
    else [0xF0 + v / 262144, 0x80 + (v / 4096) % 64, 0x80 + (v / 64) % 64, 0x80 + v % 64]
  }

  /** The UTF-8 octets of a string. */
  function Encode(s: string): (r: seq<byte>)
    ensures |s| <= |r| <= 4 * |s|
  {
    if s == [] then [] else EncodeScalar(s[0]) + Encode(s[1..])
  }

  /** Strict decoding of the scalar value at the front of `b`, with the number of octets
      it takes; `None` wherever ECMAScript's Decode operation throws. */
  function DecodeFirst(b: seq<byte>): (r: Option<(char, nat)>)
    requires |b| > 0
    ensures r.Some? ==> 1 <= r.value.1 <= 4 && r.value.1 <= |b|
  {
    var b0: int := b[0];
    if b0 < 0x80 then Some((b0 as char, 1))
    else if b0 < 0xC0 then None
    else if b0 < 0xE0 then
      if |b| < 2 || !IsContinuation(b[1]) then None
      else
        var v := (b0 - 0xC0) * 64 + (b[1] as int - 0x80);
        if v < 0x80 then None else Some((v as char, 2))
    else if b0 < 0xF0 then
      if |b| < 3 || !IsContinuation(b[1]) || !IsContinuation(b[2]) then None
      else
        var v := (b0 - 0xE0) * 4096 + (b[1] as int - 0x80) * 64 + (b[2] as int - 0x80);
        if v < 0x800 || 0xD800 <= v < 0xE000 then None else Some((v as char, 3))
    else if b0 < 0xF8 then
      if |b| < 4 || !IsContinuation(b[1]) || !IsContinuation(b[2]) || !IsContinuation(b[3]) then None
      else
        var v := (b0 - 0xF0) * 262144 + (b[1] as int - 0x80) * 4096 + (b[2] as int - 0x80) * 64 + (b[3] as int - 0x80);
        if v < 0x10000 || v >= 0x110000 then None else Some((v as char, 4))
    else None
  }

  /** `decodeURIComponent(escape(binary))` on the octets `b`: the decoded text, or `None`
      if any part of `b` is not well-formed UTF-8. */
  function Decode(b: seq<byte>): (r: Option<string>)
    ensures r.Some? ==> |r.value| <= |b| <= 4 * |r.value|
    decreases |b|
  {
    if b == [] then Some("")
    else match DecodeFirst(b)
      case None => None
      case Some((c, n)) =>
        match Decode(b[n..])
        case None => None
        case Some(rest) => Some([c] + rest)
  }

  lemma TwoOctetValue(v: int)
    requires 0x80 <= v < 0x800
    ensures 0xC2 <= 0xC0 + v / 64 < 0xE0
    ensures (v / 64) * 64 + v % 64 == v
  {
  }

  lemma ThreeOctetValue(v: int)
    requires 0x800 <= v < 0x10000
    ensures 0xE0 <= 0xE0 + v / 4096 < 0xF0
    ensures (v / 4096) * 4096 + ((v / 64) % 64) * 64 + v % 64 == v
  {
  }

  lemma FourOctetValue(v: int)
    requires 0x10000 <= v < 0x110000
    ensures 0xF0 <= 0xF0 + v / 262144 < 0xF5
    ensures (v / 262144) * 262144 + ((v / 4096) % 64) * 4096 + ((v / 64) % 64) * 64 + v % 64 == v
  {
  }

  /** The octets of one scalar value decode back to it, whatever follows them. */
  lemma DecodeFirstEncodeScalar(c: char, rest: seq<byte>)
    ensures DecodeFirst(EncodeScalar(c) + rest) == Some((c, |EncodeScalar(c)|))
  {
    var v := c as int;
    var b := EncodeScalar(c) + rest;
    if v < 0x80 {
    } else if v < 0x800 {
      TwoOctetValue(v);
      assert b[0] == 0xC0 + v / 64 && b[1] == 0x80 + v % 64;
    } else if v < 0x10000 {
      ThreeOctetValue(v);
      assert b[0] == 0xE0 + v / 4096 && b[1] == 0x80 + (v / 64) % 64 && b[2] == 0x80 + v % 64;
    } else {
      FourOctetValue(v);
      assert b[0] == 0xF0 + v / 262144 && b[1] == 0x80 + (v / 4096) % 64;
      assert b[2] == 0x80 + (v / 64) % 64 && b[3] == 0x80 + v % 64;
    }
  }

  /** RFC 3629 round trip: strict decoding inverts encoding, for every string. */
  lemma {:induction false} DecodeEncode(s: string)
    ensures Decode(Encode(s)) == Some(s)
    decreases |s|
  {
    if s != [] {
      var e := EncodeScalar(s[0]);
      DecodeFirstEncodeScalar(s[0], Encode(s[1..]));
      assert (e + Encode(s[1..]))[|e|..] == Encode(s[1..]);
      DecodeEncode(s[1..]);
      assert [s[0]] + s[1..] == s;
    }
  }

  /** `new TextDecoder().decode(b)`: on well-formed input the strict decoding with one
      leading U+FEFF dropped; on ill-formed input whatever `onMalformed` gives. */
  function TextDecoderDecode(b: seq<byte>, onMalformed: seq<byte> -> string): (r: string)
    ensures Decode(b).Some? && (Decode(b).value == [] || Decode(b).value[0] != '\U{FEFF}') ==>
      r == Decode(b).value
    ensures Decode(b).Some? && Decode(b).value != [] && Decode(b).value[0] == '\U{FEFF}' ==>
      [Decode(b).value[0]] + r == Decode(b).value
  {
    match Decode(b)
    case Some(s) => if s != [] && s[0] == '\U{FEFF}' then s[1..] else s
    case None => onMalformed(b)
  }

  /** The same decoder constructed with `{ ignoreBOM: true }`: it keeps every character. */
  function TextDecoderDecodeKeepingBom(b: seq<byte>, onMalformed: seq<byte> -> string): (r: string)
    ensures Decode(b).Some? ==> r == Decode(b).value
  {
    match Decode(b)
    case Some(s) => s
    case None => onMalformed(b)
  }
}
