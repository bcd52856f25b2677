/** String and byte helpers: the few `str`/`bytes` methods the core relies on. */
module Strings {

  newtype byte = x: int | 0 <= x < 256

  predicate StartsWith(s: string, prefix: string) {
    |prefix| <= |s| && s[..|prefix|] == prefix
  }

  predicate EndsWith(s: string, suffix: string) {
    |suffix| <= |s| && s[|s| - |suffix|..] == suffix
  }

  /** `str.removesuffix`: drops `suffix` once when it is a non-empty suffix. */
  function RemoveSuffix(s: string, suffix: string): (r: string)
    ensures suffix != "" && EndsWith(s, suffix) ==> r + suffix == s
    ensures !(suffix != "" && EndsWith(s, suffix)) ==> r == s
  {
    if suffix != "" && EndsWith(s, suffix) then s[..|s| - |suffix|] else s
  }

  /** `s.rstrip("/")`: `s` without all of its trailing slashes. */
  function RStripSlash(s: string): (r: string)
    ensures |r| <= |s| && r == s[..|r|]
    ensures r == [] || r[|r| - 1] != '/'
    ensures forall i :: |r| <= i < |s| ==> s[i] == '/'
  {
    if s != [] && s[|s| - 1] == '/' then RStripSlash(s[..|s| - 1]) else s
  }

  /** The contract of `RStripSlash` fixes its result: the only prefix that does not end in
      "/" and is followed by slashes alone. */
  lemma RStripSlashUnique(s: string, t: string)
    requires |t| <= |s| && t == s[..|t|]
    requires t == [] || t[|t| - 1] != '/'
    requires forall i :: |t| <= i < |s| ==> s[i] == '/'
    ensures t == RStripSlash(s)
  {
    var r := RStripSlash(s);
    if |t| < |r| {
      assert false;
    } else if |r| < |t| {
      assert false;
    }
  }

  /** One more trailing slash is stripped with the others. */
  lemma RStripSlashAppend(s: string)
    ensures RStripSlash(s + "/") == RStripSlash(s)
  {
    assert (s + "/")[..|s|] == s;
  }

  /** A name that does not end in "/" is left as it is. */
  lemma RStripSlashKeeps(s: string)
    requires s == [] || s[|s| - 1] != '/'
    ensures RStripSlash(s) == s
  {
    RStripSlashUnique(s, s);
  }

  /** Two suffixes of one string: the shorter is a suffix of the longer. */
  lemma SuffixesNest(s: string, a: string, b: string)
    requires EndsWith(s, a) && EndsWith(s, b) && |a| <= |b|
    ensures EndsWith(b, a)
  {
    assert b[|b| - |a|..] == s[|s| - |a|..];
  }

  /** A suffix of `s + e` that is no longer than `e` is a suffix of `e`. */
  lemma EndsWithAppend(s: string, e: string, lit: string)
    requires |lit| <= |e|
    ensures EndsWith(s + e, lit) <==> EndsWith(e, lit)
  {
    assert (s + e)[|s + e| - |lit|..] == e[|e| - |lit|..];
  }

  /** ASCII case folding, the part of `str.lower` that matters for file extensions. */
  function LowerChar(c: char): char {
    if 'A' <= c <= 'Z' then (c as int + 32) as char else c
  }

  function Lower(s: string): (r: string)
    ensures |r| == |s|
    ensures forall i :: 0 <= i < |s| ==> r[i] == LowerChar(s[i])
  {
    if s == [] then [] else [LowerChar(s[0])] + Lower(s[1..])
  }

  predicate IsLower(s: string) {
    forall i :: 0 <= i < |s| ==> LowerChar(s[i]) == s[i]
  }

  lemma {:induction false} LowerAppend(s: string, t: string)
    ensures Lower(s + t) == Lower(s) + Lower(t)
  {
    if s != [] {
      assert (s + t)[1..] == s[1..] + t;
      LowerAppend(s[1..], t);
    } else {
      assert s + t == t;
    }
  }

  lemma LowerOfLower(s: string)
    requires IsLower(s)
    ensures Lower(s) == s
  {
  }

  /** UTF-8 encoding of one Unicode scalar value (`str.encode()`'s default codec). */
  function Utf8Char(c: char): (r: seq<byte>)
    ensures 1 <= |r| <= 4
    ensures (c as int < 0x80) <==> |r| == 1
  {
    var n := c as int;
    if n < 0x80 then [n as byte]
    else if n < 0x800 then [(0xC0 + n / 64) as byte, (0x80 + n % 64) as byte]
    else if n < 0x1_0000 then
      [(0xE0 + n / 4096) as byte, (0x80 + (n / 64) % 64) as byte, (0x80 + n % 64) as byte]
    else
      [(0xF0 + n / 262144) as byte, (0x80 + (n / 4096) % 64) as byte,
       (0x80 + (n / 64) % 64) as byte, (0x80 + n % 64) as byte]
  }

  function Utf8(s: string): seq<byte> {
    if s == [] then [] else Utf8Char(s[0]) + Utf8(s[1..])
  }

  /** The encoding is never shorter than the text and at most four bytes per character;
      it has exactly one byte per character when the text is ASCII. */
  lemma {:induction false} Utf8Length(s: string)
    ensures |s| <= |Utf8(s)| <= 4 * |s|
    ensures (forall i :: 0 <= i < |s| ==> s[i] as int < 0x80) ==> |Utf8(s)| == |s|
  {
    if s != [] {
      Utf8Length(s[1..]);
    }
  }
}
