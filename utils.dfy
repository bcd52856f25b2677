/** `clamp_compression_level`, `get_member_name` and `is_archive`. */
module Utils {
  import opened Paths
  import opened Models

  /** `max(0, min(level, 9))` */
  function ClampCompressionLevel(level: int): (r: int)
    ensures 0 <= r <= 9
    ensures 0 <= level <= 9 ==> r == level
    ensures level < 0 ==> r == 0
    ensures level > 9 ==> r == 9
  {
    if level < 0 then 0 else if level > 9 then 9 else level
  }

  lemma ClampIdempotent(level: int)
    ensures ClampCompressionLevel(ClampCompressionLevel(level)) == ClampCompressionLevel(level)
  {
  }

  lemma ClampMonotone(a: int, b: int)
    requires a <= b
    ensures ClampCompressionLevel(a) <= ClampCompressionLevel(b)
  {
  }

  /** What callers may pass wherever a member is named: a string, a Path, or an ArchiveMember. */
  datatype MemberRef = ByName(name: string) | ByPath(path: Path) | ByMember(member: ArchiveMember)

  /** `StrPath`: a string or a Path. */
  type StrPath = r: MemberRef | !r.ByMember? witness ByName("")

  /** `get_member_name`: a member gives its name, a Path drops its anchor and is written with
      "/" separators, a string is returned untouched. */
  function GetMemberName(m: MemberRef): (r: string)
    ensures m.ByMember? ==> r == m.member.name
    ensures m.ByName? ==> r == m.name
    ensures m.ByPath? && m.path.parts == [] ==> r == "."
    ensures m.ByPath? && m.path.parts != [] ==> r == Join(m.path.parts)
  {
    match m
    case ByMember(member) => member.name
    case ByPath(p) => AsPosix(RelativeTo(p, Path(p.anchor, [])))
    case ByName(s) => s
  }

  /** The name of a Path never carries its anchor: parsing it back gives the same parts,
      as a relative path, so an absolute path yields a relative member name. */
  lemma PathNameIsRelative(p: Path)
    requires ValidParts(p.parts) && p.parts != []
    ensures Parse(GetMemberName(ByPath(p))) == Path("", p.parts)
    ensures GetMemberName(ByPath(p))[0] != '/'
  {
    ParseJoin(p.parts);
    JoinStart(p.parts);
  }

  /** The outcome of the content probes for one existing file (calls into the format libraries). */
  datatype Probes = Probes(zip: bool, tar: bool, sevenZip: bool, rar: bool, rarSfx: bool)

  /** `is_archive(file)`, with existence and the probes given. */
  function IsArchive(fileExists: bool, probes: Probes): (r: bool)
    ensures !fileExists ==> !r
    ensures fileExists ==> (r <==> probes.tar || probes.zip || probes.rar || probes.rarSfx || probes.sevenZip)
  {
    if fileExists then probes.tar || probes.zip || probes.rar || probes.rarSfx || probes.sevenZip else false
  }
}
