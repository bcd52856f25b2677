/** `ArchiveMember`: the format-independent, immutable record of one entry. */
module Models {
  import opened Results

  /** A frozen value: Dafny datatypes are immutable and compare field by field, as the
      frozen pydantic model does. The `datetime` field is not part of this model. */
  datatype ArchiveMember = ArchiveMember(
    name: string,
    size: nat,
    compressedSize: nat,
    checksum: int,
    isDir: bool,
    isFile: bool)

  const DefaultSize: nat := 0
  const DefaultCompressedSize: nat := 0
  const DefaultChecksum: int := 0
  const DefaultIsDir: bool := false
  const DefaultIsFile: bool := false

  /** `ArchiveMember(name=..., size=..., ...)`: an omitted field and a field passed as None
      (the `_use_default_value` validator) both take the field's default. */
  function NewMember(
    name: string,
    size: Option<nat>,
    compressedSize: Option<nat>,
    checksum: Option<int>,
    isDir: Option<bool>,
    isFile: Option<bool>): (m: ArchiveMember)
    ensures m.name == name
    ensures m.size == (if size.Some? then size.value else 0)
    ensures m.compressedSize == (if compressedSize.Some? then compressedSize.value else 0)
    ensures m.checksum == (if checksum.Some? then checksum.value else 0)
    ensures m.isDir == (isDir.Some? && isDir.value)
    ensures m.isFile == (isFile.Some? && isFile.value)
  {
    ArchiveMember(
      name,
      size.GetOr(DefaultSize),
      compressedSize.GetOr(DefaultCompressedSize),
      checksum.GetOr(DefaultChecksum),
      isDir.GetOr(DefaultIsDir),
      isFile.GetOr(DefaultIsFile))
  }

  /** A member built from a name only: every other field at its default, and in particular
      neither a directory nor a file (the model does not force exactly one of the two). */
  function NameOnly(name: string): (m: ArchiveMember)
    ensures m == ArchiveMember(name, 0, 0, 0, false, false)
    ensures !m.isDir && !m.isFile
  {
    NewMember(name, None, None, None, None, None)
  }

  /** Passing None and passing the default explicitly build the same member. */
  lemma NoneIsDefault(name: string)
    ensures NewMember(name, None, None, None, None, None)
         == NewMember(name, Some(0), Some(0), Some(0), Some(false), Some(false))
  {
  }

  /** Two constructions agree exactly when their names agree and their arguments agree
      once None is read as the default. */
  lemma NewMemberEquality(
    n1: string, s1: Option<nat>, c1: Option<nat>, k1: Option<int>, d1: Option<bool>, f1: Option<bool>,
    n2: string, s2: Option<nat>, c2: Option<nat>, k2: Option<int>, d2: Option<bool>, f2: Option<bool>)
    ensures NewMember(n1, s1, c1, k1, d1, f1) == NewMember(n2, s2, c2, k2, d2, f2) <==>
      (n1 == n2 && s1.GetOr(0) == s2.GetOr(0) && c1.GetOr(0) == c2.GetOr(0)
       && k1.GetOr(0) == k2.GetOr(0) && d1.GetOr(false) == d2.GetOr(false)
       && f1.GetOr(false) == f2.GetOr(false))
  {
  }

  /** `str(member)` */
  function Str(m: ArchiveMember): (s: string)
    ensures s == m.name
  {
    m.name
  }
}
