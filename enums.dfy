/** `CompressionType` (the zip compression codes) and `CommonExtensions`
    (the file-name extension of each supported container). */
module Enums {
  import opened Results
  import opened Strings

  datatype CompressionType = Stored | Deflated | Bzip2 | Lzma

  /** The integer value of each member of the IntEnum. */
  function Code(t: CompressionType): (n: int)
    ensures n in {0, 8, 12, 14}
  {
    match t
    case Stored => 0
    case Deflated => 8
    case Bzip2 => 12
    case Lzma => 14
  }

  /** `CompressionType(n)`: the member with value n, or None where Python raises ValueError. */
  function FromCode(n: int): (r: Option<CompressionType>)
    ensures r.Some? <==> n in {0, 8, 12, 14}
  {
    if n == 0 then Some(Stored)
    else if n == 8 then Some(Deflated)
    else if n == 12 then Some(Bzip2)
    else if n == 14 then Some(Lzma)
    else None
  }

  /** The codes are pairwise distinct, and value lookup inverts `Code`. */
  lemma CodeRoundTrip(t: CompressionType, n: int)
    ensures FromCode(Code(t)) == Some(t)
    ensures FromCode(n).Some? ==> Code(FromCode(n).value) == n
  {
  }

  lemma CodesDistinct(s: CompressionType, t: CompressionType)
    ensures Code(s) == Code(t) <==> s == t
  {
    CodeRoundTrip(s, Code(s));
    CodeRoundTrip(t, Code(t));
  }

  /** The four container families (the members of `CommonExtensions`). */
  datatype Format = Zip | Tar | SevenZip | Rar

  /** `CommonExtensions.<family>.value` */
  function Extensions(f: Format): (exts: seq<string>)
    ensures forall i :: 0 <= i < |exts| ==> |exts[i]| > 1 && exts[i][0] == '.' && IsLower(exts[i])
  {
    match f
    case Zip => [".zip", ".cbz"]
    case Tar => [".tar", ".tar.bz2", ".tar.gz", ".tar.xz", ".cbt"]
    case SevenZip => [".7z", ".cb7"]
    case Rar => [".rar", ".cbr"]
  }

  /** No extension belongs to two families. */
  lemma ExtensionGroupsDisjoint(f: Format, g: Format, e: string)
    requires f != g
    ensures !(e in Extensions(f) && e in Extensions(g))
  {
  }
}
