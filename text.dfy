/** String primitives of the JavaScript runtime that the note editor and the worker use:
    the white-space class shared by `String.prototype.trim` and the regular-expression
    escape `\s`, trimming, ASCII character classes, `split` on one separator character,
    and the `x || default` idiom for optional strings.

    Strings are sequences of Unicode scalar values. A JavaScript string is a sequence of
    UTF-16 code units: a character outside the Basic Multilingual Plane is two of them
    (see `Utf16Length`), and a string holding an unpaired surrogate code unit has no
    counterpart here at all. */
module Text {
  import opened Wrappers

  /** ECMAScript WhiteSpace and LineTerminator code points: what `trim` removes and `\s` matches. */
  predicate IsJsWhitespace(c: char) {
    c == '\t' || c == '\n' || c == '\U{B}' || c == '\U{C}' || c == '\r' || c == ' ' ||
    c == '\U{A0}' || c == '\U{1680}' || ('\U{2000}' <= c <= '\U{200A}') ||
    c == '\U{2028}' || c == '\U{2029}' || c == '\U{202F}' || c == '\U{205F}' ||
    c == '\U{3000}' || c == '\U{FEFF}'
  }

  predicate IsAsciiLower(c: char) { 'a' <= c <= 'z' }
  predicate IsAsciiUpper(c: char) { 'A' <= c <= 'Z' }
  predicate IsDigit(c: char) { '0' <= c <= '9' }
  predicate IsAsciiAlnum(c: char) { IsAsciiLower(c) || IsAsciiUpper(c) || IsDigit(c) }

  /** Every character of `w` is white space. */
  predicate AllWhitespace(w: string) {
    forall i :: 0 <= i < |w| ==> IsJsWhitespace(w[i])
  }

  /** `s.trimStart()`: drops the leading white space and nothing else. */
  function TrimStart(s: string): (r: string)
    ensures |r| <= |s| && r == s[|s| - |r|..]
    ensures r == [] || !IsJsWhitespace(r[0])
    ensures AllWhitespace(s[..|s| - |r|])
  {
    if |s| > 0 && IsJsWhitespace(s[0]) then
      var r := TrimStart(s[1..]);
      SuffixOfTail(s, r);
      WhitespaceInFront(s, r);
      r
    else s
  }

  /** `s.trimEnd()`: drops the trailing white space and nothing else. */
  function TrimEnd(s: string): (r: string)
    ensures |r| <= |s| && r == s[..|r|]
    ensures r == [] || !IsJsWhitespace(r[|r| - 1])
    ensures AllWhitespace(s[|r|..])
  {
    if |s| > 0 && IsJsWhitespace(s[|s| - 1]) then
      var r := TrimEnd(s[..|s| - 1]);
      WhitespaceBehind(s, r);
      r
    else s
  }

  /** A suffix of the tail of `s` is a suffix of `s`. */
  lemma SuffixOfTail(s: string, r: string)
    requires 0 < |s| && |r| <= |s| - 1 && r == s[1..][|s| - 1 - |r|..]
    ensures r == s[|s| - |r|..]
  {
  }

  /** A white-space run after a leading white-space character extends the run. */
  lemma WhitespaceInFront(s: string, r: string)
    requires 0 < |s| && |r| < |s| && IsJsWhitespace(s[0]) && AllWhitespace(s[1..][..|s[1..]| - |r|])
    ensures AllWhitespace(s[..|s| - |r|])
  {
    var n := |s| - 1 - |r|;
    var w, v := s[..n + 1], s[1..][..n];
    forall i | 0 < i < |w|
      ensures IsJsWhitespace(w[i])
    {
      assert w[i] == v[i - 1];
    }
  }

  /** A white-space run before a trailing white-space character extends the run. */
  lemma WhitespaceBehind(s: string, r: string)
    requires 0 < |s| && |r| < |s| && IsJsWhitespace(s[|s| - 1]) && AllWhitespace(s[..|s| - 1][|r|..])
    ensures AllWhitespace(s[|r|..])
  {
    var n := |r|;
    var w, v := s[n..], s[..|s| - 1][n..];
    forall i | 0 <= i < |v|
      ensures IsJsWhitespace(w[i])
    {
      assert w[i] == v[i];
    }
  }

  /** `s.trim()`: the white-space-free middle of `s`. */
  function Trim(s: string): (r: string)
    ensures |r| <= |s|
    ensures r == [] || (!IsJsWhitespace(r[0]) && !IsJsWhitespace(r[|r| - 1]))
  {
    TrimEnd(TrimStart(s))
  }

  /** `trim` removes only white space, and only from the two ends: what it returns is
      the slice of `s` between the leading and the trailing white space. */
  lemma TrimShape(s: string) returns (k: nat, e: nat)
    ensures k <= e <= |s| && Trim(s) == s[k..e]
    ensures AllWhitespace(s[..k]) && AllWhitespace(s[e..])
  {
    var t := TrimStart(s);
    var r := TrimEnd(t);
    k, e := |s| - |t|, |s| - |t| + |r|;
    assert AllWhitespace(s[..k]) by {
      assert AllWhitespace(s[..|s| - |TrimStart(s)|]);
    }
    assert t == s[k..];
    assert Trim(s) == s[k..e] by {
      assert r == t[..|r|] == s[k..e];
    }
    assert AllWhitespace(s[e..]) by {
      assert s[e..] == t[|r|..];
    }
  }

  /** A string is the concatenation of its three slices at `k` and `e`. */
  lemma SliceThree(s: string, k: nat, e: nat)
    requires k <= e <= |s|
    ensures s == (s[..k] + s[k..e]) + s[e..]
  {
  }

  /** A string none of whose characters is white space is its own trim. */
  lemma {:induction false} TrimNoWhitespace(s: string)
    requires forall i :: 0 <= i < |s| ==> !IsJsWhitespace(s[i])
    ensures Trim(s) == s
  {
    assert TrimStart(s) == s;
    assert TrimEnd(s) == s;
  }

  /** JavaScript `v || d` for an optional string: the empty string is falsy too. */
  function OrDefault(v: Option<string>, d: string): (r: string)
    ensures r == d || (v.Some? && r == v.value && v.value != "")
    ensures v.Some? && v.value != "" ==> r == v.value
  {
    if v.Some? && v.value != "" then v.value else d
  }

  /** The first `n` characters, `s.substring(0, n)`. */
  function Take(s: string, n: nat): (r: string)
    ensures |r| == if |s| <= n then |s| else n
    ensures r == s[..|r|]
  {
    if |s| <= n then s else s[..n]
  }

  /** Number of occurrences of `c` in `s`. */
  function Count(s: string, c: char): nat {
    if s == [] then 0 else (if s[0] == c then 1 else 0) + Count(s[1..], c)
  }

  /** `s.split(sep)` for a one-character separator: the pieces between separators,
      in order, with an empty piece at each end where `s` starts or ends with `sep`. */
  function Split(s: string, sep: char): (r: seq<string>)
    ensures |r| >= 1
    decreases |s|
  {
    if s == [] then [""]
    else
      var rest := Split(s[1..], sep);
      if s[0] == sep then [""] + rest else [[s[0]] + rest[0]] + rest[1..]
  }

  /** `pieces.join(sep)`. */
  function Join(pieces: seq<string>, sep: char): string {
    if |pieces| == 0 then ""
    else if |pieces| == 1 then pieces[0]
    else pieces[0] + [sep] + Join(pieces[1..], sep)
  }

  /** `split` cuts at every separator: one more piece than separators. */
  lemma {:induction false} SplitCount(s: string, sep: char)
    ensures |Split(s, sep)| == Count(s, sep) + 1
    decreases |s|
  {
    if s != [] {
      SplitCount(s[1..], sep);
    }
  }

  /** No piece of `split` contains the separator. */
  lemma {:induction false} SplitPiecesSeparatorFree(s: string, sep: char)
    ensures forall k, i :: 0 <= k < |Split(s, sep)| && 0 <= i < |Split(s, sep)[k]| ==> Split(s, sep)[k][i] != sep
    decreases |s|
  {
    if s != [] {
      SplitPiecesSeparatorFree(s[1..], sep);
    }
  }

  /** Joining the pieces of `split` with the same separator restores the string. */
  lemma {:induction false} JoinSplit(s: string, sep: char)
    ensures Join(Split(s, sep), sep) == s
    decreases |s|
  {
    if s != [] {
      var rest := Split(s[1..], sep);
      JoinSplit(s[1..], sep);
      if s[0] == sep {
        assert Split(s, sep) == [""] + rest;
        assert Join(Split(s, sep), sep) == "" + [sep] + Join(rest, sep);
      } else {
        var r := [[s[0]] + rest[0]] + rest[1..];
        assert Split(s, sep) == r;
        if |rest| == 1 {
          assert Join(r, sep) == [s[0]] + rest[0];
        } else {
          assert r[1..] == rest[1..];
          assert Join(rest, sep) == rest[0] + [sep] + Join(rest[1..], sep);
          assert Join(r, sep) == [s[0]] + rest[0] + [sep] + Join(rest[1..], sep);
        }
      }
    }
  }

  /** The first piece of `split` is the longest separator-free prefix. */
  lemma {:induction false} SplitFirstPiece(s: string, sep: char)
    ensures var p := Split(s, sep)[0];
      |p| <= |s| && p == s[..|p|] && (forall i :: 0 <= i < |p| ==> s[i] != sep) &&
      (|p| < |s| ==> s[|p|] == sep)
    decreases |s|
  {
    if s != [] {
      SplitFirstPiece(s[1..], sep);
    }
  }

  /** `toLowerCase` of one character, as far as ASCII is concerned: `A`-`Z` become
      `a`-`z`, KELVIN SIGN U+212A becomes `k`, U+0130 becomes `i` followed by U+0307, and
      every other character is kept. JavaScript maps further non-ASCII characters to
      other non-ASCII characters, one for one, which no caller here can tell apart. */
  function LowerChar(c: char): (r: string)
    ensures 1 <= |r| <= 2
    ensures forall i :: 0 <= i < |r| ==> !IsAsciiUpper(r[i])
  {
    if IsAsciiUpper(c) then [(c as int + 32) as char]
    else if c == '\U{212A}' then "k"
    else if c == '\U{130}' then ['i', '\U{307}']
    else [c]
  }

  /** `s.toLowerCase()`. */
  function ToLower(s: string): (r: string)
    ensures |s| <= |r| <= 2 * |s|
    ensures forall i :: 0 <= i < |r| ==> !IsAsciiUpper(r[i])
  {
    if s == [] then [] else LowerChar(s[0]) + ToLower(s[1..])
  }

  /** Lower-casing leaves a string with no upper-case letters and none of the two special
      characters as it is. */
  lemma {:induction false} ToLowerKeeps(s: string)
    requires forall i :: 0 <= i < |s| ==> !IsAsciiUpper(s[i]) && s[i] != '\U{212A}' && s[i] != '\U{130}'
    ensures ToLower(s) == s
    decreases |s|
  {
    if s != [] {
      ToLowerKeeps(s[1..]);
      assert [s[0]] + s[1..] == s;
    }
  }

  /** A character outside the Basic Multilingual Plane: JavaScript stores it as two UTF-16
      code units (a surrogate pair). */
  predicate IsAstral(c: char) { c as int >= 0x10000 }

  predicate AllBmp(s: string) { forall i :: 0 <= i < |s| ==> !IsAstral(s[i]) }

  /** `s.length` in JavaScript: the number of UTF-16 code units. */
  function Utf16Length(s: string): (n: nat)
    ensures |s| <= n <= 2 * |s|
    ensures AllBmp(s) ==> n == |s|
  {
    if s == [] then 0 else (if IsAstral(s[0]) then 2 else 1) + Utf16Length(s[1..])
  }

  lemma {:induction false} Utf16LengthConcat(a: string, b: string)
    ensures Utf16Length(a + b) == Utf16Length(a) + Utf16Length(b)
    decreases |a|
  {
    if a != [] {
      assert (a + b)[1..] == a[1..] + b;
      Utf16LengthConcat(a[1..], b);
    } else {
      assert a + b == b;
    }
  }

  /** Lower-casing at most doubles the number of code units. */
  lemma {:induction false} ToLowerUtf16Length(s: string)
    ensures Utf16Length(ToLower(s)) <= 2 * |s|
    decreases |s|
  {
    if s != [] {
      ToLowerUtf16Length(s[1..]);
      Utf16LengthConcat(LowerChar(s[0]), ToLower(s[1..]));
    }
  }

  /** What `s.replace(/[^...]/g, fill)` writes for one character, `keep` being the class of
      Basic Multilingual Plane characters the pattern spares. Without the `u` flag the pattern
      runs over code units, so an astral character, two surrogates that are both outside the
      class, becomes two `fill`s. */
  function ReplaceChar(c: char, keep: char -> bool, fill: char): (r: string)
    ensures |r| == if IsAstral(c) then 2 else 1
    ensures forall i :: 0 <= i < |r| ==> keep(r[i]) || r[i] == fill
  {
    if IsAstral(c) then [fill, fill] else if keep(c) then [c] else [fill]
  }

  /** `s.replace(/[^...]/g, fill)`: every code unit outside the class becomes `fill`. */
  function ReplaceOutside(s: string, keep: char -> bool, fill: char): (r: string)
    ensures |r| == Utf16Length(s)
    ensures forall i :: 0 <= i < |r| ==> keep(r[i]) || r[i] == fill
  {
    if s == [] then [] else ReplaceChar(s[0], keep, fill) + ReplaceOutside(s[1..], keep, fill)
  }

  /** The replacement works piece by piece. */
  lemma {:induction false} ReplaceOutsideConcat(a: string, b: string, keep: char -> bool, fill: char)
    ensures ReplaceOutside(a + b, keep, fill) == ReplaceOutside(a, keep, fill) + ReplaceOutside(b, keep, fill)
    decreases |a|
  {
    if a != [] {
      assert (a + b)[0] == a[0] && (a + b)[1..] == a[1..] + b;
      ReplaceOutsideConcat(a[1..], b, keep, fill);
    } else {
      assert a + b == b;
    }
  }

  /** On text without astral characters, one output character per input character: kept
      when in the class, `fill` otherwise. */
  lemma {:induction false} ReplaceOutsideBmp(s: string, keep: char -> bool, fill: char)
    requires AllBmp(s)
    ensures |ReplaceOutside(s, keep, fill)| == |s|
    ensures forall i :: 0 <= i < |s| ==> ReplaceOutside(s, keep, fill)[i] == if keep(s[i]) then s[i] else fill
    decreases |s|
  {
    if s != [] {
      assert AllBmp(s[1..]) by { assert forall i :: 0 <= i < |s[1..]| ==> s[1..][i] == s[i + 1]; }
      ReplaceOutsideBmp(s[1..], keep, fill);
      var r := ReplaceOutside(s, keep, fill);
      assert r == ReplaceChar(s[0], keep, fill) + ReplaceOutside(s[1..], keep, fill);
      forall i | 0 <= i < |s|
        ensures r[i] == if keep(s[i]) then s[i] else fill
      {
        if i > 0 {
          assert r[i] == ReplaceOutside(s[1..], keep, fill)[i - 1] && s[1..][i - 1] == s[i];
        }
      }
    }
  }

  /** Text made only of class characters and `fill` is left as it is. */
  lemma ReplaceOutsideKeeps(s: string, keep: char -> bool, fill: char)
    requires AllBmp(s) && forall i :: 0 <= i < |s| ==> keep(s[i]) || s[i] == fill
    ensures ReplaceOutside(s, keep, fill) == s
  {
    ReplaceOutsideBmp(s, keep, fill);
  }

  /** A string without the separator is a single piece. */
  lemma {:induction false} SplitWithoutSeparator(s: string, sep: char)
    requires forall i :: 0 <= i < |s| ==> s[i] != sep
    ensures Split(s, sep) == [s]
    decreases |s|
  {
    if s != [] {
      SplitWithoutSeparator(s[1..], sep);
      assert [s[0]] + s[1..] == s;
    }
  }

  /** The first piece is what comes before the first separator. */
  lemma SplitFirstOf(a: string, sep: char, b: string)
    requires forall i :: 0 <= i < |a| ==> a[i] != sep
    ensures Split(a + [sep] + b, sep)[0] == a
  {
    var s := a + [sep] + b;
    SplitFirstPiece(s, sep);
    var p := Split(s, sep)[0];
    assert s[|a|] == sep;
    assert forall i :: 0 <= i < |a| ==> s[i] == a[i];
    assert p == s[..|a|] == a;
  }

  /** The text after the first occurrence of `c`, if there is one. */
  function AfterFirst(s: string, c: char): (r: Option<string>)
    ensures r.Some? ==> |r.value| < |s| && r.value == s[|s| - |r.value|..] && s[|s| - |r.value| - 1] == c
    ensures r.None? <==> forall i :: 0 <= i < |s| ==> s[i] != c
  {
    if s == [] then None
    else if s[0] == c then Some(s[1..])
    else
      var r := AfterFirst(s[1..], c);
      if r.Some? then SuffixOfTail(s, r.value); r else r
  }

  /** Whatever follows the first `c` is found when `c` does not occur before it. */
  lemma {:induction false} AfterFirstOf(a: string, c: char, b: string)
    requires forall i :: 0 <= i < |a| ==> a[i] != c
    ensures AfterFirst(a + [c] + b, c) == Some(b)
    decreases |a|
  {
    if a == [] {
      assert a + [c] + b == [c] + b;
    } else {
      assert (a + [c] + b)[1..] == a[1..] + [c] + b;
      AfterFirstOf(a[1..], c, b);
    }
  }
}
