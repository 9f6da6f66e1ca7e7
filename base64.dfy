/** The base 64 encoding of section 4 of RFC 4648 as the browser's `btoa` produces it,
    and the WHATWG "forgiving-base64 decode" that `atob` applies: ASCII white space is
    ignored, one or two final `=` may be dropped when the length is a multiple of four,
    a length of the form 4k+1 or any character outside the alphabet is an error, and
    the leftover bits of a final partial group are discarded. */
module Base64 {
  import opened Wrappers
  import opened Bytes
  import opened Text

  /** The 64 characters of the alphabet (RFC 4648, Table 1). */
  predicate IsAlphabetChar(c: char) { IsAsciiAlnum(c) || c == '+' || c == '/' }

  /** The character of a six-bit value: `A`-`Z`, `a`-`z`, `0`-`9`, `+`, `/`. */
  function CharOf(v: int): (c: char)
    requires 0 <= v < 64
    ensures IsAlphabetChar(c)
  {
    if v < 26 then ('A' as int + v) as char
    else if v < 52 then ('a' as int + v - 26) as char
    else if v < 62 then ('0' as int + v - 52) as char
    else if v == 62 then '+'
    else '/'
  }

  /** The six-bit value of an alphabet character. */
  function ValueOf(c: char): (v: int)
    requires IsAlphabetChar(c)
    ensures 0 <= v < 64 && CharOf(v) == c
  {
    if IsAsciiUpper(c) then c as int - 'A' as int
    else if IsAsciiLower(c) then c as int - 'a' as int + 26
    else if IsDigit(c) then c as int - '0' as int + 52
    else if c == '+' then 62
    else 63
  }

  lemma ValueOfCharOf(v: int)
    requires 0 <= v < 64
    ensures ValueOf(CharOf(v)) == v
  {
  }

  /** The alphabet characters for `b`, three octets to four characters, a final one or
      two octets to two or three characters; no padding. */
  function EncodeGroups(b: seq<byte>): (r: string)
    ensures |r| == 4 * (|b| / 3) + (if |b| % 3 == 0 then 0 else |b| % 3 + 1)
    ensures forall i :: 0 <= i < |r| ==> IsAlphabetChar(r[i])
    decreases |b|
  {
    if |b| == 0 then ""
    else if |b| == 1 then [CharOf(b[0] / 4), CharOf((b[0] % 4) * 16)]
    else if |b| == 2 then
      [CharOf(b[0] / 4), CharOf((b[0] % 4) * 16 + b[1] / 16), CharOf((b[1] % 16) * 4)]
    else
      var (c0, c1, c2, c3) := GroupChars(b[0], b[1], b[2]);
      [c0, c1, c2, c3] + EncodeGroups(b[3..])
  }

  /** The `=` characters that complete the last group of four. */
  function Padding(n: nat): (p: string)
    ensures |p| <= 2 && forall i :: 0 <= i < |p| ==> p[i] == '='
  {
    if n % 3 == 1 then "==" else if n % 3 == 2 then "=" else ""
  }

  /** RFC 4648 section 4 encoding, padded to a multiple of four characters. */
  function Encode(b: seq<byte>): (r: string)
    ensures |r| % 4 == 0
  {
    EncodeGroups(b) + Padding(|b|)
  }

  /** `btoa(s)`: throws `InvalidCharacterError` (`None`) on a character above U+00FF. */
  function Btoa(s: string): (r: Option<string>)
    ensures r.Some? <==> IsBinary(s)
  {
    if IsBinary(s) then Some(Encode(ToBytes(s))) else None
  }

  /** The ASCII white space of the Infra standard: TAB, LF, FF, CR, SPACE. */
  predicate IsAsciiWhitespace(c: char) {
    c == '\t' || c == '\n' || c == '\U{C}' || c == '\r' || c == ' '
  }

  function RemoveAsciiWhitespace(s: string): (r: string)
    ensures |r| <= |s|
    ensures forall i :: 0 <= i < |r| ==> !IsAsciiWhitespace(r[i])
  {
    if s == [] then ""
    else if IsAsciiWhitespace(s[0]) then RemoveAsciiWhitespace(s[1..])
    else [s[0]] + RemoveAsciiWhitespace(s[1..])
  }

  /** Step 2 of forgiving-base64 decode. */
  function DropFinalPadding(s: string): string {
    if |s| % 4 == 0 && |s| >= 2 && s[|s| - 1] == '=' && s[|s| - 2] == '=' then s[..|s| - 2]
    else if |s| % 4 == 0 && |s| >= 1 && s[|s| - 1] == '=' then s[..|s| - 1]
    else s
  }

  /** Six-bit groups back to octets, discarding the leftover bits of a final partial group. */
  function DecodeGroups(s: string): (b: seq<byte>)
    requires |s| % 4 != 1
    requires forall i :: 0 <= i < |s| ==> IsAlphabetChar(s[i])
    decreases |s|
  {
    if |s| == 0 then []
    else
      var v0, v1 := ValueOf(s[0]), ValueOf(s[1]);
      if |s| == 2 then [v0 * 4 + v1 / 16]
      else
        var v2 := ValueOf(s[2]);
        if |s| == 3 then [v0 * 4 + v1 / 16, (v1 % 16) * 16 + v2 / 4]
        else
          GroupOctets(s[0], s[1], s[2], s[3]) + DecodeGroups(s[4..])
  }

  /** The WHATWG forgiving-base64 decode: the octets, or `None` for failure. */
  function ForgivingDecode(s: string): (r: Option<seq<byte>>)
    ensures r.None? <==>
      var d := DropFinalPadding(RemoveAsciiWhitespace(s));
      |d| % 4 == 1 || exists i :: 0 <= i < |d| && !IsAlphabetChar(d[i])
  {
    var d := DropFinalPadding(RemoveAsciiWhitespace(s));
    if |d| % 4 == 1 then None
    else if exists i :: 0 <= i < |d| && !IsAlphabetChar(d[i]) then None
    else Some(DecodeGroups(d))
  }

  /** `atob(s)`: the decoded binary string, or `None` where `atob` throws. */
  function Atob(s: string): (r: Option<string>)
    ensures r.Some? ==> IsBinary(r.value)
  {
    match ForgivingDecode(s)
    case None => None
    case Some(b) => Some(FromBytes(b))
  }

  lemma FullGroup(b0: byte, b1: byte, b2: byte)
    ensures var v0, v1, v2, v3 := b0 / 4, (b0 % 4) * 16 + b1 / 16, (b1 % 16) * 4 + b2 / 64, b2 % 64;
      v0 * 4 + v1 / 16 == b0 && (v1 % 16) * 16 + v2 / 4 == b1 && (v2 % 4) * 64 + v3 == b2
  {
    var v1 := (b0 % 4) * 16 + b1 / 16;
    assert v1 / 16 == b0 % 4 && v1 % 16 == b1 / 16;
    var v2 := (b1 % 16) * 4 + b2 / 64;
    assert v2 / 4 == b1 % 16 && v2 % 4 == b2 / 64;
  }

  lemma PartialGroup(b0: byte, b1: byte)
    ensures (b0 / 4) * 4 + ((b0 % 4) * 16) / 16 == b0
    ensures var v1, v2 := (b0 % 4) * 16 + b1 / 16, (b1 % 16) * 4;
      (b0 / 4) * 4 + v1 / 16 == b0 && (v1 % 16) * 16 + v2 / 4 == b1
  {
    var v1 := (b0 % 4) * 16 + b1 / 16;
    assert v1 / 16 == b0 % 4 && v1 % 16 == b1 / 16;
  }

  lemma DecodeLastGroup(b: seq<byte>)
    requires 1 <= |b| <= 2
    ensures |EncodeGroups(b)| % 4 != 1
    ensures DecodeGroups(EncodeGroups(b)) == b
  {
    var e := EncodeGroups(b);
    if |b| == 1 {
      PartialGroup(b[0], 0);
      ValueOfCharOf(b[0] / 4);
      ValueOfCharOf((b[0] % 4) * 16);
      assert ValueOf(e[0]) == b[0] / 4 && ValueOf(e[1]) == (b[0] % 4) * 16;
    } else {
      PartialGroup(b[0], b[1]);
      ValueOfCharOf(b[0] / 4);
      ValueOfCharOf((b[0] % 4) * 16 + b[1] / 16);
      ValueOfCharOf((b[1] % 16) * 4);
      assert ValueOf(e[0]) == b[0] / 4 && ValueOf(e[1]) == (b[0] % 4) * 16 + b[1] / 16;
      assert ValueOf(e[2]) == (b[1] % 16) * 4;
    }
  }

  lemma DecodeFirstGroup(b: seq<byte>)
    requires |b| >= 3 && |EncodeGroups(b[3..])| % 4 != 1
    ensures var e := EncodeGroups(b);
      |e| % 4 != 1 && e[4..] == EncodeGroups(b[3..]) &&
      DecodeGroups(e) == b[..3] + DecodeGroups(EncodeGroups(b[3..]))
  {
    assert b[..3] == [b[0], b[1], b[2]];
    var rest := EncodeGroups(b[3..]);
    var (c0, c1, c2, c3) := GroupChars(b[0], b[1], b[2]);
    assert EncodeGroups(b) == [c0, c1, c2, c3] + rest;
    GroupRoundTrip(b[0], b[1], b[2]);
    DecodeFourChars(c0, c1, c2, c3, rest);
  }

  /** The four characters of a full group of three octets. */
  function GroupChars(b0: byte, b1: byte, b2: byte): (char, char, char, char) {
    (CharOf(b0 / 4), CharOf((b0 % 4) * 16 + b1 / 16), CharOf((b1 % 16) * 4 + b2 / 64), CharOf(b2 % 64))
  }

  /** The three octets a full group of four characters decodes to. */
  function GroupOctets(c0: char, c1: char, c2: char, c3: char): seq<byte>
    requires IsAlphabetChar(c0) && IsAlphabetChar(c1) && IsAlphabetChar(c2) && IsAlphabetChar(c3)
  {
    var v0, v1, v2, v3 := ValueOf(c0), ValueOf(c1), ValueOf(c2), ValueOf(c3);
    [v0 * 4 + v1 / 16, (v1 % 16) * 16 + v2 / 4, (v2 % 4) * 64 + v3]
  }

  /** A full group decodes to the three octets it was made of. */
  lemma GroupRoundTrip(b0: byte, b1: byte, b2: byte)
    ensures var (c0, c1, c2, c3) := GroupChars(b0, b1, b2);
      IsAlphabetChar(c0) && IsAlphabetChar(c1) && IsAlphabetChar(c2) && IsAlphabetChar(c3) &&
      GroupOctets(c0, c1, c2, c3) == [b0, b1, b2]
  {
    var v0, v1, v2, v3 := b0 / 4, (b0 % 4) * 16 + b1 / 16, (b1 % 16) * 4 + b2 / 64, b2 % 64;
    ValueOfCharOf(v0);
    ValueOfCharOf(v1);
    ValueOfCharOf(v2);
    ValueOfCharOf(v3);
    FullGroup(b0, b1, b2);
  }

  /** Four alphabet characters in front decode to three octets in front. */
  lemma DecodeFourChars(c0: char, c1: char, c2: char, c3: char, rest: string)
    requires IsAlphabetChar(c0) && IsAlphabetChar(c1) && IsAlphabetChar(c2) && IsAlphabetChar(c3)
    requires forall i :: 0 <= i < |rest| ==> IsAlphabetChar(rest[i])
    requires |rest| % 4 != 1
    ensures var e := [c0, c1, c2, c3] + rest;
      |e| % 4 != 1 && e[4..] == rest &&
      DecodeGroups(e) == GroupOctets(c0, c1, c2, c3) + DecodeGroups(rest)
  {
    var e := [c0, c1, c2, c3] + rest;
    assert e[4..] == rest;
    ShiftByGroup(|rest|, |e|);
  }

  /** The length of the unpadded groups modulo four: 0, 2 or 3. */
  lemma EncodeGroupsLengthMod(b: seq<byte>)
    ensures |EncodeGroups(b)| % 4 == if |b| % 3 == 0 then 0 else |b| % 3 + 1
  {
    var c := if |b| % 3 == 0 then 0 else |b| % 3 + 1;
    assert |EncodeGroups(b)| == 4 * (|b| / 3) + c;
    GroupRemainder(|b| / 3, c);
  }

  lemma GroupRemainder(q: nat, c: nat)
    requires c < 4
    ensures (4 * q + c) % 4 == c
  {
  }

  /** Decoding the unpadded groups gives back every octet. */
  lemma {:induction false} DecodeEncodeGroups(b: seq<byte>)
    ensures |EncodeGroups(b)| % 4 != 1
    ensures DecodeGroups(EncodeGroups(b)) == b
    decreases |b|
  {
    if 1 <= |b| <= 2 {
      DecodeLastGroup(b);
    } else if |b| >= 3 {
      DecodeEncodeGroups(b[3..]);
      DecodeFirstGroup(b);
      assert b == b[..3] + b[3..];
    }
  }

  lemma ShiftByGroup(n: nat, m: nat)
    requires m == n + 4
    ensures m % 4 == n % 4
  {
  }

  /** `atob` inverts `btoa` on octets: the forgiving decoder reads back every
      RFC 4648 encoding exactly. */
  lemma DecodeEncode(b: seq<byte>)
    ensures ForgivingDecode(Encode(b)) == Some(b)
  {
    PaddingIsDropped(b);
    DecodeEncodeGroups(b);
  }

  /** The first two decoding steps turn an encoding back into its unpadded groups. */
  lemma PaddingIsDropped(b: seq<byte>)
    ensures DropFinalPadding(RemoveAsciiWhitespace(Encode(b))) == EncodeGroups(b)
  {
    var g := EncodeGroups(b);
    var p := Padding(|b|);
    NoWhitespaceIsKept(Encode(b));
    assert g == [] || IsAlphabetChar(g[|g| - 1]);
    DropPadding(g, p);
  }

  /** Removing the padding of a padded group sequence leaves the groups. */
  lemma DropPadding(g: string, p: string)
    requires p == "" || p == "=" || p == "=="
    requires |g + p| % 4 == 0
    requires g == [] || g[|g| - 1] != '='
    ensures DropFinalPadding(g + p) == g
  {
    var e := g + p;
    if p == "==" {
      assert e[..|e| - 2] == g;
    } else if p == "=" {
      assert e[|e| - 2] == g[|g| - 1];
      assert e[..|e| - 1] == g;
    } else {
      assert e == g;
    }
  }

  /** Encoder output carries no white space, so the first decoding step keeps it whole. */
  lemma {:induction false} NoWhitespaceIsKept(s: string)
    requires forall i :: 0 <= i < |s| ==> IsAlphabetChar(s[i]) || s[i] == '='
    ensures RemoveAsciiWhitespace(s) == s
    decreases |s|
  {
    if s != [] {
      NoWhitespaceIsKept(s[1..]);
      assert [s[0]] + s[1..] == s;
    }
  }

  /** The browser pair on binary strings: `atob(btoa(s)) == s`. */
  lemma AtobBtoa(s: string)
    requires IsBinary(s)
    ensures Btoa(s).Some? && Atob(Btoa(s).value) == Some(s)
  {
    DecodeEncode(ToBytes(s));
    BytesRoundTrip(ToBytes(s), s);
  }
}
