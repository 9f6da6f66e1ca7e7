/** Octets and JavaScript "binary strings", the strings whose every character is below
    U+0100 and that `btoa`/`atob` and `String.fromCharCode` use to carry bytes. */
module Bytes {

  type byte = b: int | 0 <= b < 256

  /** Every character is a single octet. */
  predicate IsBinary(s: string) {
    forall i :: 0 <= i < |s| ==> s[i] as int < 256
  }

  /** `String.fromCharCode.apply(null, bytes)`: one character per byte. */
  function FromBytes(b: seq<byte>): (s: string)
    ensures |s| == |b| && IsBinary(s)
    ensures forall i :: 0 <= i < |b| ==> s[i] as int == b[i]
  {
    seq(|b|, i requires 0 <= i < |b| => b[i] as char)
  }

  /** The character codes of a binary string, as `charCodeAt` gives them. */
  function ToBytes(s: string): (b: seq<byte>)
    requires IsBinary(s)
    ensures |b| == |s|
    ensures forall i :: 0 <= i < |s| ==> b[i] == s[i] as int
  {
    seq(|s|, i requires 0 <= i < |s| => s[i] as int)
  }

  /** The two conversions are inverse to each other. */
  lemma BytesRoundTrip(b: seq<byte>, s: string)
    requires IsBinary(s)
    ensures ToBytes(FromBytes(b)) == b
    ensures FromBytes(ToBytes(s)) == s
  {
  }
}
