/** A pure model of the POSIX `pathlib` operations the core uses on names:
    parsing, `/`, `.name`, `.parent`, `.relative_to`, `.is_relative_to` and `.as_posix()`.
    Nothing here touches a filesystem. */
module Paths {

  /** A PurePosixPath: its anchor ("", "/" or "//") and its parts after the anchor. */
  datatype Path = Path(anchor: string, parts: seq<string>)

  /** A part as pathlib stores it: never empty, never ".", never containing a separator. */
  predicate ValidPart(s: string) {
    s != "" && s != "." && '/' !in s
  }

  predicate ValidParts(parts: seq<string>) {
    forall i :: 0 <= i < |parts| ==> ValidPart(parts[i])
  }

  predicate Valid(p: Path) {
    (p.anchor == "" || p.anchor == "/" || p.anchor == "//") && ValidParts(p.parts)
  }

  /** `"/".join(parts)` */
  function Join(parts: seq<string>): string {
    if parts == [] then ""
    else if |parts| == 1 then parts[0]
    else parts[0] + "/" + Join(parts[1..])
  }

  /** `s.split("/")` */
  function SplitSlash(s: string): (r: seq<string>)
    ensures |r| >= 1
    ensures forall i :: 0 <= i < |r| ==> '/' !in r[i]
  {
    if s == [] then [""]
    else
      var rest := SplitSlash(s[1..]);
      if s[0] == '/' then [""] + rest else [[s[0]] + rest[0]] + rest[1..]
  }

  /** The parts pathlib keeps from a string: the pieces between separators, without "" and ".". */
  function Components(s: string): (r: seq<string>)
    ensures ValidParts(r)
  {
    KeepParts(SplitSlash(s))
  }

  function KeepParts(pieces: seq<string>): (r: seq<string>)
    requires forall i :: 0 <= i < |pieces| ==> '/' !in pieces[i]
    ensures ValidParts(r)
  {
    if pieces == [] then []
    else (if pieces[0] == "" || pieces[0] == "." then [] else [pieces[0]]) + KeepParts(pieces[1..])
  }

  /** The anchor of a POSIX path string: exactly two leading slashes are kept, any other
      number of leading slashes collapses to one. */
  function AnchorOf(s: string): (r: string)
    ensures r == "" || r == "/" || r == "//"
    ensures r == "" <==> !(|s| > 0 && s[0] == '/')
  {
    if |s| >= 2 && s[0] == '/' && s[1] == '/' && (|s| == 2 || s[2] != '/') then "//"
    else if |s| >= 1 && s[0] == '/' then "/"
    else ""
  }

  /** `PurePosixPath(s)` */
  function Parse(s: string): (p: Path)
    ensures Valid(p)
  {
    Path(AnchorOf(s), KeepParts(SplitSlash(s)))
  }

  /** `p / s`: an anchored `s` replaces `p`, a relative one is appended to it. */
  function Div(p: Path, s: string): (r: Path)
    ensures (|s| > 0 && s[0] == '/') ==> r == Parse(s)
    ensures !(|s| > 0 && s[0] == '/') ==> r == Path(p.anchor, p.parts + Parse(s).parts)
  {
    var q := Parse(s);
    if q.anchor != "" then q else Path(p.anchor, p.parts + q.parts)
  }

  /** `p.name` */
  function Name(p: Path): string {
    if p.parts == [] then "" else p.parts[|p.parts| - 1]
  }

  /** `p.parent` */
  function Parent(p: Path): (r: Path)
    ensures r.anchor == p.anchor
    ensures p.parts != [] ==> r.parts + [Name(p)] == p.parts
    ensures p.parts == [] ==> r == p
  {
    if p.parts == [] then p else Path(p.anchor, p.parts[..|p.parts| - 1])
  }

  /** `p.is_relative_to(root)`: same anchor, and root's parts are a prefix of p's. */
  predicate IsRelativeTo(p: Path, root: Path) {
    p.anchor == root.anchor && |root.parts| <= |p.parts| && p.parts[..|root.parts|] == root.parts
  }

  /** `p.relative_to(root)`: the relative path of the parts below root. */
  function RelativeTo(p: Path, root: Path): (r: Path)
    requires IsRelativeTo(p, root)
    ensures r.anchor == ""
    ensures root.parts + r.parts == p.parts
  {
    Path("", p.parts[|root.parts|..])
  }

  /** `str(p)` and `p.as_posix()` on POSIX */
  function AsPosix(p: Path): string {
    if p.anchor == "" && p.parts == [] then "." else p.anchor + Join(p.parts)
  }

  lemma IsRelativeToTransitive(p: Path, q: Path, root: Path)
    requires IsRelativeTo(p, q) && IsRelativeTo(q, root)
    ensures IsRelativeTo(p, root)
  {
    assert p.parts[..|root.parts|] == p.parts[..|q.parts|][..|root.parts|];
  }

  /** A directory always lies below its parent. */
  lemma ParentContains(p: Path)
    ensures IsRelativeTo(p, Parent(p))
  {
  }

  lemma {:induction false} SplitSlashOfPart(a: string)
    requires '/' !in a
    ensures SplitSlash(a) == [a]
  {
    if a != [] {
      SplitSlashOfPart(a[1..]);
      assert [a[0]] + a[1..] == a;
    }
  }

  lemma {:induction false} SplitSlashOfJoin(a: string, b: string)
    requires '/' !in a
    ensures SplitSlash(a + "/" + b) == [a] + SplitSlash(b)
  {
    if a == [] {
      assert a + "/" + b == "/" + b;
      assert ("/" + b)[1..] == b;
    } else {
      assert (a + "/" + b)[1..] == a[1..] + "/" + b;
      SplitSlashOfJoin(a[1..], b);
      assert [a[0]] + a[1..] == a;
    }
  }

  lemma {:induction false} SplitSlashJoin(parts: seq<string>)
    requires parts != []
    requires forall i :: 0 <= i < |parts| ==> '/' !in parts[i]
    ensures SplitSlash(Join(parts)) == parts
  {
    if |parts| == 1 {
      SplitSlashOfPart(parts[0]);
    } else {
      SplitSlashOfJoin(parts[0], Join(parts[1..]));
      SplitSlashJoin(parts[1..]);
    }
  }

  lemma {:induction false} KeepValidParts(parts: seq<string>)
    requires ValidParts(parts)
    ensures KeepParts(parts) == parts
  {
    if parts != [] {
      KeepValidParts(parts[1..]);
    }
  }

  /** Round trip: joining valid parts with "/" and parsing the result back gives the same
      parts, as a relative path. */
  lemma ParseJoin(parts: seq<string>)
    requires ValidParts(parts)
    ensures Parse(Join(parts)) == Path("", parts)
  {
    if parts == [] {
      assert KeepParts(SplitSlash("")) == [];
    } else {
      SplitSlashJoin(parts);
      KeepValidParts(parts);
      assert Join(parts)[0] != '/' by { JoinStart(parts); }
    }
  }

  lemma {:induction false} JoinStart(parts: seq<string>)
    requires parts != [] && ValidParts(parts)
    ensures |Join(parts)| > 0 && Join(parts)[0] == parts[0][0]
  {
    if |parts| > 1 {
      assert Join(parts) == parts[0] + ("/" + Join(parts[1..]));
    }
  }

  /** The string form of a valid path parses back to the same path. */
  lemma AsPosixParse(p: Path)
    requires Valid(p) && (p.anchor != "" || p.parts != [])
    ensures Parse(AsPosix(p)) == p
  {
    if p.anchor == "" {
      assert AsPosix(p) == Join(p.parts);
      ParseJoin(p.parts);
    } else {
      AnchoredParse(p.anchor, p.parts);
    }
  }

  lemma SplitLeadingSlash(x: string)
    ensures SplitSlash("/" + x) == [""] + SplitSlash(x)
  {
    assert ("/" + x)[1..] == x;
  }

  lemma AnchorOfAnchored(anchor: string, j: string)
    requires anchor == "/" || anchor == "//"
    requires j == "" || j[0] != '/'
    ensures AnchorOf(anchor + j) == anchor
  {
    var s := anchor + j;
    if j != "" {
      assert s[|anchor|] == j[0];
    }
  }

  /** A leading separator only adds an empty piece, which is not kept. */
  lemma KeepLeadingSlash(x: string)
    ensures KeepParts(SplitSlash("/" + x)) == KeepParts(SplitSlash(x))
  {
    SplitLeadingSlash(x);
    var pieces := SplitSlash("/" + x);
    assert pieces[0] == "" && pieces[1..] == SplitSlash(x);
  }

  lemma KeepDoubleSlash(x: string)
    ensures KeepParts(SplitSlash("//" + x)) == KeepParts(SplitSlash(x))
  {
    assert "//" + x == "/" + ("/" + x);
    KeepLeadingSlash("/" + x);
    KeepLeadingSlash(x);
  }

  lemma KeepAnchored(anchor: string, j: string)
    requires anchor == "/" || anchor == "//"
    ensures KeepParts(SplitSlash(anchor + j)) == KeepParts(SplitSlash(j))
  {
    if anchor == "/" {
      KeepLeadingSlash(j);
    } else {
      KeepDoubleSlash(j);
    }
  }

  lemma AnchoredParse(anchor: string, parts: seq<string>)
    requires anchor == "/" || anchor == "//"
    requires ValidParts(parts)
    ensures Parse(anchor + Join(parts)) == Path(anchor, parts)
  {
    var j := Join(parts);
    if parts != [] {
      JoinStart(parts);
      SplitSlashJoin(parts);
    }
    AnchorOfAnchored(anchor, j);
    KeepAnchored(anchor, j);
    KeepValidParts(parts);
  }
}
