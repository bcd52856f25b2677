/** `ArchiveFile`: the facade that picks an adapter for a file and forwards every operation
    to it. The choice is a pure decision over whether the file exists, the requested mode,
    the lower-cased file name and the content probes; the facade itself only holds the
    adapter it built. */
module Core {
  import opened Results
  import opened Strings
  import opened Paths
  import opened Enums
  import opened Models
  import opened Utils
  import opened Native
  import opened Base
  import ZipImpl = Zip
  import TarImpl = Tar
  import SevenZipImpl = SevenZip
  import RarImpl = Rar

  /** `re.search(r"\.(...)$", name)` for one alternative `lit` (written with its dot):
      without MULTILINE, `$` matches at the very end and just before a final newline. */
  predicate AnchoredEnd(name: string, lit: string) {
    EndsWith(name, lit) || EndsWith(name, lit + "\n")
  }

  /** The alternatives of the dispatcher's four patterns, each with the leading `\.`:
      `zip|cbz`, `tar(\.(bz2|gz|xz))?|cbt`, `7z|cb7` and `rar|cbr`. */
  function PatternEndings(f: Format): (r: seq<string>)
    ensures forall i :: 0 <= i < |r| ==> |r[i]| >= 3 && r[i][0] == '.' && r[i][|r[i]| - 1] != '\n'
  {
    match f
    case Zip => [".zip", ".cbz"]
    case Tar => [".tar", ".tar.bz2", ".tar.gz", ".tar.xz", ".cbt"]
    case SevenZip => [".7z", ".cb7"]
    case Rar => [".rar", ".cbr"]
  }

  /** Whether the dispatcher's pattern for `f` matches the (lower-cased) file name. */
  predicate PatternMatches(f: Format, name: string) {
    exists i :: 0 <= i < |PatternEndings(f)| && AnchoredEnd(name, PatternEndings(f)[i])
  }

  /** The order the dispatcher tries the formats in, by pattern and by probe alike. */
  function Rank(f: Format): (n: nat)
    ensures n < 4
  {
    match f
    case Zip => 0
    case Tar => 1
    case SevenZip => 2
    case Rar => 3
  }

  /** The content probe the dispatcher consults for each format (`is_zipfile`, `is_tarfile`,
      `is_7zfile`, `is_rarfile`); the rar SFX probe is not among them. */
  function Probe(probes: Probes, f: Format): bool {
    match f
    case Zip => probes.zip
    case Tar => probes.tar
    case SevenZip => probes.sevenZip
    case Rar => probes.rar
  }

  /** The choice for a file that does not exist yet: the first pattern, in rank order, that
      matches the lower-cased name, or NotImplementedError. */
  function ByExtension(name: string): (r: Result<Format>)
    ensures r.Ok? ==> PatternMatches(r.value, name)
    ensures r.Ok? ==> forall g :: Rank(g) < Rank(r.value) ==> !PatternMatches(g, name)
    ensures r.Err? <==> forall g :: !PatternMatches(g, name)
    ensures r.Err? ==> r.error == NotImplementedError
  {
    if PatternMatches(Zip, name) then Ok(Zip)
    else if PatternMatches(Tar, name) then Ok(Tar)
    else if PatternMatches(SevenZip, name) then Ok(SevenZip)
    else if PatternMatches(Rar, name) then Ok(Rar)
    else Err(NotImplementedError)
  }

  /** The choice for an existing file: the first probe, in rank order, that recognises the
      content, or NotImplementedError. */
  function ByProbes(probes: Probes): (r: Result<Format>)
    ensures r.Ok? ==> Probe(probes, r.value)
    ensures r.Ok? ==> forall g :: Rank(g) < Rank(r.value) ==> !Probe(probes, g)
    ensures r.Err? <==> forall g :: !Probe(probes, g)
    ensures r.Err? ==> r.error == NotImplementedError
  {
    if probes.zip then assert Probe(probes, Zip); Ok(Zip)
    else if probes.tar then assert Probe(probes, Tar); Ok(Tar)
    else if probes.sevenZip then assert Probe(probes, SevenZip); Ok(SevenZip)
    else if probes.rar then assert Probe(probes, Rar); Ok(Rar)
    else Err(NotImplementedError)
  }

  /** `_initialize_adapter`'s choice of adapter for the resolved `file`. A missing file is
      FileNotFoundError in any mode starting with "r" and is otherwise chosen by the
      lower-cased name alone; an existing file is chosen by the probes alone, whatever the
      mode and the name. */
  function Dispatch(fileExists: bool, mode: string, file: Path, probes: Probes): (r: Result<Format>)
    ensures !fileExists && StartsWith(mode, "r") ==> r == Err(FileNotFoundError)
    ensures !fileExists && !StartsWith(mode, "r") ==> r == ByExtension(Lower(Name(file)))
    ensures fileExists ==> r == ByProbes(probes)
    ensures r.Err? ==> r.error == FileNotFoundError || r.error == NotImplementedError
  {
    if !fileExists then
      if !StartsWith(mode, "r") then ByExtension(Lower(Name(file)))
      else Err(FileNotFoundError)
    else ByProbes(probes)
  }

  /** The k-th character from the end of a suffix is that of the string. */
  lemma EndChar(s: string, suffix: string, k: nat)
    requires 1 <= k <= |suffix|
    ensures EndsWith(s, suffix) ==> suffix[|suffix| - k] == s[|s| - k]
  {
    if EndsWith(s, suffix) {
      assert suffix[|suffix| - k] == s[|s| - |suffix|..][|suffix| - k];
    }
  }

  /** An ending that anchor-matches a name fixes the name's last three characters before an
      optional final newline. */
  lemma AnchoredKey(name: string, a: string)
    requires |a| >= 3 && a[|a| - 1] != '\n' && AnchoredEnd(name, a)
    ensures var m := if name[|name| - 1] == '\n' then |name| - 1 else |name|;
      3 <= m <= |name| && name[m - 1] == a[|a| - 1] && name[m - 2] == a[|a| - 2] && name[m - 3] == a[|a| - 3]
  {
    if EndsWith(name, a) {
      EndChar(name, a, 1);
      EndChar(name, a, 2);
      EndChar(name, a, 3);
    } else {
      var a' := a + "\n";
      assert EndsWith(name, a');
      EndChar(name, a', 1);
      EndChar(name, a', 2);
      EndChar(name, a', 3);
      EndChar(name, a', 4);
      assert a'[|a'| - 2] == a[|a| - 1] && a'[|a'| - 3] == a[|a| - 2] && a'[|a'| - 4] == a[|a| - 3];
    }
  }

  /** The last three characters of a string. */
  function EndKey(s: string): (k: (char, char, char))
    requires |s| >= 3
  {
    (s[|s| - 3], s[|s| - 2], s[|s| - 1])
  }

  /** The last three characters of a name before an optional final newline, if it has three. */
  function NameKey(name: string): (k: Option<(char, char, char)>)
  {
    var m := if |name| > 0 && name[|name| - 1] == '\n' then |name| - 1 else |name|;
    if m >= 3 then Some(EndKey(name[..m])) else None
  }

  /** The format whose pattern has an alternative ending in these three characters. */
  function KeyFormat(k: (char, char, char)): (r: Option<Format>)
  {
    match k
    case ('z', 'i', 'p') => Some(Zip)
    case ('c', 'b', 'z') => Some(Zip)
    case ('t', 'a', 'r') => Some(Tar)
    case ('b', 'z', '2') => Some(Tar)
    case ('.', 'g', 'z') => Some(Tar)
    case ('.', 'x', 'z') => Some(Tar)
    case ('c', 'b', 't') => Some(Tar)
    case ('.', '7', 'z') => Some(SevenZip)
    case ('c', 'b', '7') => Some(SevenZip)
    case ('r', 'a', 'r') => Some(Rar)
    case ('c', 'b', 'r') => Some(Rar)
    case _ => None
  }

  /** The last three characters of every alternative identify its pattern: no two patterns
      have alternatives that end alike. */
  lemma EndingKeyFormat(f: Format, i: nat)
    requires i < |PatternEndings(f)|
    ensures var a := PatternEndings(f)[i];
      |a| >= 3 && a[|a| - 1] != '\n' && KeyFormat(EndKey(a)) == Some(f)
  {
  }

  /** A name that anchor-matches an ending has that ending's last three characters as its key. */
  lemma KeyOfAnchored(name: string, a: string)
    requires |a| >= 3 && a[|a| - 1] != '\n'
    ensures AnchoredEnd(name, a) ==> NameKey(name) == Some(EndKey(a))
  {
    if AnchoredEnd(name, a) {
      AnchoredKey(name, a);
    }
  }

  /** A name a pattern matches has a key, and the key names that pattern's format. */
  lemma PatternKey(f: Format, name: string)
    requires PatternMatches(f, name)
    ensures NameKey(name).Some? && KeyFormat(NameKey(name).value) == Some(f)
  {
    var i :| 0 <= i < |PatternEndings(f)| && AnchoredEnd(name, PatternEndings(f)[i]);
    EndingKeyFormat(f, i);
    KeyOfAnchored(name, PatternEndings(f)[i]);
  }

  /** At most one of the four patterns matches any name. */
  lemma PatternsExclusive(f: Format, g: Format, name: string)
    requires PatternMatches(f, name) && PatternMatches(g, name)
    ensures f == g
  {
    PatternKey(f, name);
    PatternKey(g, name);
  }

  /** Any stem, in any casing, followed by an extension of a group lower-cases to a name the
      group's pattern matches. */
  lemma ExtensionMatchesGroup(f: Format, stem: string, k: nat)
    requires k < |Extensions(f)|
    ensures PatternMatches(f, Lower(stem + Extensions(f)[k]))
  {
    var e := Extensions(f)[k];
    LowerAppend(stem, e);
    LowerOfLower(e);
    var name := Lower(stem) + e;
    EndsWithAppend(Lower(stem), e, e);
    assert AnchoredEnd(name, PatternEndings(f)[k]);
  }

  /** A new file named `stem + ext`, for any stem and any extension of a group, in any casing
      of the stem, opened in a mode other than reading, gets that group's adapter. */
  lemma ExtensionSelectsGroup(mode: string, file: Path, probes: Probes, f: Format, stem: string, k: nat)
    requires !StartsWith(mode, "r")
    requires k < |Extensions(f)| && Name(file) == stem + Extensions(f)[k]
    ensures Dispatch(false, mode, file, probes) == Ok(f)
  {
    var name := Lower(Name(file));
    ExtensionMatchesGroup(f, stem, k);
    PatternsExclusive(ByExtension(name).value, f, name);
  }

  /** The dispatcher's pattern for a group matches exactly the names that end, in the sense
      of `$`, in one of that group's extensions. */
  lemma PatternIsExtensionGroup(f: Format, name: string)
    ensures PatternMatches(f, name) <==> exists k :: 0 <= k < |Extensions(f)| && AnchoredEnd(name, Extensions(f)[k])
  {
    assert PatternEndings(f) == Extensions(f);
  }

  /** A new file is refused exactly when its lower-cased name ends in no extension of any
      group. */
  lemma UnknownExtensionRefused(mode: string, file: Path, probes: Probes)
    requires !StartsWith(mode, "r")
    ensures Dispatch(false, mode, file, probes).Err?
        <==> forall f, k :: 0 <= k < |Extensions(f)| ==> !AnchoredEnd(Lower(Name(file)), Extensions(f)[k])
    ensures Dispatch(false, mode, file, probes).Err? ==> Dispatch(false, mode, file, probes).error == NotImplementedError
  {
    var name := Lower(Name(file));
    forall f: Format
      ensures PatternMatches(f, name) <==> exists k :: 0 <= k < |Extensions(f)| && AnchoredEnd(name, Extensions(f)[k])
    {
      PatternIsExtensionGroup(f, name);
    }
  }

  /** `is_archive` also accepts a self-extracting rar, which the dispatcher refuses: the two
      disagree exactly on existing files that only the SFX probe recognises. */
  lemma SfxArchiveRefused(mode: string, file: Path, probes: Probes)
    ensures IsArchive(true, probes) && Dispatch(true, mode, file, probes).Err?
        <==> probes.rarSfx && !probes.zip && !probes.tar && !probes.sevenZip && !probes.rar
  {
    if IsArchive(true, probes) && Dispatch(true, mode, file, probes).Err? {
      assert !Probe(probes, Zip) && !Probe(probes, Tar) && !Probe(probes, SevenZip) && !Probe(probes, Rar);
    }
  }

  /** The adapter a facade holds: one of the four adapter classes (the shared
      `BaseArchiveAdapter` protocol, closed over its implementations). */
  datatype Adapter =
    | ZipAdapter(zip: ZipImpl.ZipFileAdapter)
    | TarAdapter(tar: TarImpl.TarFileAdapter)
    | SevenZipAdapter(sevenZip: SevenZipImpl.SevenZipFileAdapter)
    | RarAdapter(rar: RarImpl.RarFileAdapter)

  function FormatOf(a: Adapter): Format {
    match a
    case ZipAdapter(_) => Zip
    case TarAdapter(_) => Tar
    case SevenZipAdapter(_) => SevenZip
    case RarAdapter(_) => Rar
  }

  /** The adapter object, the one thing the facade's operations change. */
  function Handle(a: Adapter): object {
    match a
    case ZipAdapter(z) => z
    case TarAdapter(t) => t
    case SevenZipAdapter(s) => s
    case RarAdapter(r) => r
  }

  /** The calls the adapter has issued to its library. */
  function Calls(a: Adapter): seq<NativeCall>
    reads Handle(a)
  {
    match a
    case ZipAdapter(z) => z.calls
    case TarAdapter(t) => t.calls
    case SevenZipAdapter(s) => s.calls
    case RarAdapter(r) => r.calls
  }

  function AdapterFile(a: Adapter): Path {
    match a
    case ZipAdapter(z) => z.file
    case TarAdapter(t) => t.file
    case SevenZipAdapter(s) => s.file
    case RarAdapter(r) => r.file
  }

  function AdapterMode(a: Adapter): string {
    match a
    case ZipAdapter(z) => z.mode
    case TarAdapter(t) => t.mode
    case SevenZipAdapter(s) => s.mode
    case RarAdapter(r) => r.mode
  }

  function AdapterPassword(a: Adapter): Option<string> {
    match a
    case ZipAdapter(z) => z.password
    case TarAdapter(t) => t.password
    case SevenZipAdapter(s) => s.password
    case RarAdapter(r) => r.password
  }

  function Entries(a: Adapter): seq<Entry> {
    match a
    case ZipAdapter(z) => z.entries
    case TarAdapter(t) => t.entries
    case SevenZipAdapter(s) => s.entries
    case RarAdapter(r) => r.entries
  }

  /** The name an adapter matches a member by: 7z drops one trailing "/", tarfile and
      rarfile drop all of them, zip uses `get_member_name` as is. */
  function LookupName(a: Adapter, member: MemberRef): (name: string)
    ensures a.SevenZipAdapter? ==> name == SevenZipImpl.TargetName(member)
    ensures a.TarAdapter? || a.RarAdapter? ==> name == RStripSlash(GetMemberName(member))
    ensures a.ZipAdapter? ==> name == GetMemberName(member)
  {
    match a
    case SevenZipAdapter(_) => SevenZipImpl.TargetName(member)
    case ZipAdapter(_) => GetMemberName(member)
    case _ => RStripSlash(GetMemberName(member))
  }

  /** The names an adapter's lookups compare with: rarfile indexes every filename without its
      trailing slashes, the other libraries the filenames as listed. */
  function Keys(a: Adapter): (keys: seq<string>)
    ensures a.RarAdapter? ==> keys == RarImpl.InfoKeys(Entries(a))
    ensures !a.RarAdapter? ==> keys == Names(Entries(a))
  {
    if a.RarAdapter? then RarImpl.InfoKeys(a.rar.entries) else Names(Entries(a))
  }

  /** A rar directory asked for by a name without its trailing "/": rarfile finds it and then
      refuses to read it. */
  predicate UnreadableDirectory(a: Adapter, member: MemberRef) {
    a.RarAdapter? && !EndsWith(GetMemberName(member), "/")
    && RarImpl.GetInfo(a.rar.entries, GetMemberName(member)).Some?
    && a.rar.entries[RarImpl.GetInfo(a.rar.entries, GetMemberName(member)).value].isDir
  }

  /** The name a KeyError and an extracted path carry: 7z's target name, and for the
      others the member's name as given. */
  function ReportedName(a: Adapter, member: MemberRef): (name: string)
    ensures a.SevenZipAdapter? ==> name == SevenZipImpl.TargetName(member)
    ensures !a.SevenZipAdapter? ==> name == GetMemberName(member)
    ensures LookupName(a, member) == if a.TarAdapter? || a.RarAdapter? then RStripSlash(name) else name
  {
    if a.SevenZipAdapter? then SevenZipImpl.TargetName(member) else GetMemberName(member)
  }

  /** What constructing the facade yields: the chosen format and the mode its adapter keeps,
      or the error raised by the dispatcher or by the adapter's constructor. */
  function OpenSpec(fileExists: bool, mode: string, file: Path, probes: Probes): (r: Result<(Format, string)>)
    ensures Dispatch(fileExists, mode, file, probes).Err? ==> r == Err(Dispatch(fileExists, mode, file, probes).error)
    ensures r.Ok? ==> Dispatch(fileExists, mode, file, probes) == Ok(r.value.0)
    ensures r.Ok? && r.value.0 == Tar ==> r.value.1 == mode
    ensures r.Ok? && r.value.0 != Tar ==> |r.value.1| == 1
    ensures r.Ok? && r.value.0 == Rar ==> r.value.1 == "r"
    ensures r.Ok? && r.value.0 != Tar ==> r.value.1[0] in "rwxa"
    ensures Dispatch(fileExists, mode, file, probes) == Ok(Tar) ==>
      (r.Err? <==> fileExists && mode in TarImpl.CreateModes) && (r.Err? ==> r.error == FileExistsError)
    ensures r.Err? && Dispatch(fileExists, mode, file, probes).Ok? ==>
      r.error == IndexError || r.error == ValueError || r.error == FileExistsError || r.error == NotImplementedError
  {
    match Dispatch(fileExists, mode, file, probes)
    case Err(e) => Err(e)
    case Ok(f) =>
      match f
      case Zip => (match ZipImpl.OpenMode(mode, fileExists) case Ok(m) => Ok((Zip, m)) case Err(e) => Err(e))
      case Tar => (match TarImpl.OpenMode(mode, fileExists) case Ok(m) => Ok((Tar, m)) case Err(e) => Err(e))
      case SevenZip => (match SevenZipImpl.OpenMode(mode, fileExists) case Ok(m) => Ok((SevenZip, m)) case Err(e) => Err(e))
      case Rar => (match RarImpl.OpenMode(mode) case Ok(m) => Ok((Rar, m)) case Err(e) => Err(e))
  }

  /** A new file can only be opened in a mode that does not start with "r", so a new rar
      file is always refused: by its name it is chosen, by its mode it is rejected. */
  lemma NewRarRefused(mode: string, file: Path, probes: Probes)
    requires Dispatch(false, mode, file, probes) == Ok(Rar)
    ensures OpenSpec(false, mode, file, probes).Err?
    ensures mode != "" ==> OpenSpec(false, mode, file, probes) == Err(NotImplementedError)
  {
    assert !StartsWith(mode, "r");
  }

  /** `extract` through any adapter: KeyError exactly when the looked-up name is not listed,
      and otherwise `destination / name`. */
  function ExtractSpec(a: Adapter, member: MemberRef, dest: Path): (e: Effect<Result<Path>>)
    ensures e.result.Ok? <==> LookupName(a, member) in Keys(a)
    ensures e.result.Ok? ==> e.result.value == Div(dest, ReportedName(a, member))
    ensures e.result.Err? ==> e.result.error == KeyError(ReportedName(a, member))
  {
    match a
    case ZipAdapter(z) => ZipImpl.ExtractEffect(z.entries, z.pwd, dest, member)
    case TarAdapter(t) => TarImpl.ExtractEffect(t.entries, dest, member)
    case SevenZipAdapter(s) => SevenZipImpl.ExtractEffect(s.entries, dest, member)
    case RarAdapter(r) => RarImpl.ExtractEffect(r.entries, r.password, dest, member)
  }

  /** `extractall` through any adapter: the destination, or KeyError for a requested name
      that is not listed; every adapter but zip's checks all names before extracting, so
      its error leaves nothing extracted. */
  function ExtractAllSpec(a: Adapter, dest: Path, members: Option<seq<MemberRef>>): (e: Effect<Result<Path>>)
    ensures e.result.Ok? ==> e.result.value == dest
    ensures e.result.Err? ==> e.result.error.KeyError?
    ensures members.Some? && !a.RarAdapter? ==>
      (e.result.Ok? <==> forall i :: 0 <= i < |members.value| ==> LookupName(a, members.value[i]) in Names(Entries(a)))
    ensures members.Some? && a.RarAdapter? ==>
      (e.result.Ok? <==> forall i :: 0 <= i < |members.value| ==> GetMemberName(members.value[i]) in Names(Entries(a)))
    ensures e.result.Err? && !a.ZipAdapter? ==> e.issued == []
    ensures e.result.Ok? ==> e.issued != []
  {
    match a
    case ZipAdapter(z) =>
      ZipExtractAllChecksNames(z.entries, z.pwd, dest, members);
      ZipImpl.ExtractAllEffect(z.entries, z.pwd, dest, members)
    case TarAdapter(t) =>
      TarExtractAllChecksNames(t.entries, dest, members);
      TarImpl.ExtractAllEffect(t.entries, dest, members)
    case SevenZipAdapter(s) => SevenZipImpl.ExtractAllEffect(s.entries, dest, members)
    case RarAdapter(r) =>
      RarExtractAllChecksNames(r.entries, dest, members, r.password);
      RarImpl.ExtractAllEffect(r.entries, dest, members, r.password)
  }

  /** zipfile's `extractall` fails iff a requested name is not listed as given. */
  lemma ZipExtractAllChecksNames(entries: seq<Entry>, pwd: Option<seq<byte>>, dest: Path, members: Option<seq<MemberRef>>)
    ensures members.Some? ==>
      (ZipImpl.ExtractAllEffect(entries, pwd, dest, members).result.Ok?
       <==> forall i :: 0 <= i < |members.value| ==> GetMemberName(members.value[i]) in Names(entries))
    ensures var e := ZipImpl.ExtractAllEffect(entries, pwd, dest, members);
      (e.result.Ok? ==> e.result.value == dest && e.issued != []) && (e.result.Err? ==> e.result.error.KeyError?)
  {
    if members.Some? {
      ValidateNamesSound(MemberNames(members.value), Names(entries));
    }
  }

  /** The tar lookups fail iff a requested name, without its trailing slashes, is unlisted,
      and then nothing is extracted. */
  lemma TarExtractAllChecksNames(entries: seq<Entry>, dest: Path, members: Option<seq<MemberRef>>)
    ensures members.Some? ==>
      (TarImpl.ExtractAllEffect(entries, dest, members).result.Ok?
       <==> forall i :: 0 <= i < |members.value| ==> RStripSlash(GetMemberName(members.value[i])) in Names(entries))
    ensures var e := TarImpl.ExtractAllEffect(entries, dest, members);
      (e.result.Ok? ==> e.result.value == dest && e.issued != [])
      && (e.result.Err? ==> e.result.error.KeyError? && e.issued == [])
  {
    if members.Some? {
      FirstAbsentComplete(TarImpl.LookupKeys(MemberNames(members.value)), Names(entries));
    }
  }

  /** The rar adapter's own check fails iff a requested name is not in `namelist()` as given. */
  lemma RarExtractAllChecksNames(entries: seq<Entry>, dest: Path, members: Option<seq<MemberRef>>, password: Option<string>)
    ensures members.Some? ==>
      (RarImpl.ExtractAllEffect(entries, dest, members, password).result.Ok?
       <==> forall i :: 0 <= i < |members.value| ==> GetMemberName(members.value[i]) in Names(entries))
    ensures var e := RarImpl.ExtractAllEffect(entries, dest, members, password);
      (e.result.Ok? ==> e.result.value == dest && e.issued != [])
      && (e.result.Err? ==> e.result.error.KeyError? && e.issued == [])
  {
  }

  /** `read_bytes` through any adapter: a name that is listed always reads, and a KeyError
      names a looked-up name that is not listed; only 7z's read goes through its library
      handle (a read, then a reset). */
  function ReadSpec(a: Adapter, member: MemberRef): (e: Effect<Result<seq<byte>>>)
    ensures LookupName(a, member) in Keys(a) && !UnreadableDirectory(a, member) ==> e.result.Ok?
    ensures UnreadableDirectory(a, member) ==> e.result == Err(UnsupportedOperation)
    ensures e.result.Err? && !UnreadableDirectory(a, member) ==>
      e.result.error == KeyError(ReportedName(a, member)) && LookupName(a, member) !in Keys(a)
    ensures e.result.Err? ==> e.issued == []
    ensures !a.SevenZipAdapter? ==> e.issued == []
  {
    match a
    case ZipAdapter(z) => Effect(ZipImpl.ReadEntry(z.entries, GetMemberName(member)), [])
    case TarAdapter(t) => Effect(TarImpl.ReadEntry(t.entries, GetMemberName(member)), [])
    case SevenZipAdapter(s) => SevenZipImpl.ReadEffect(s.entries, member)
    case RarAdapter(r) => Effect(RarImpl.ReadEntry(r.entries, GetMemberName(member)), [])
  }

  /** The source file of a library call that writes one from disk. */
  function Source(c: NativeCall): Option<Path> {
    match c
    case ZipWrite(source, _, _, _) => Some(source)
    case TarAdd(source, _) => Some(source)
    case SevenZipWrite(source, _) => Some(source)
    case _ => None
  }

  /** The member name of a library call that writes one from memory. */
  function WrittenName(c: NativeCall): Option<string> {
    match c
    case ZipWriteStr(name, _, _, _) => Some(name)
    case TarAddFile(header, _) => Some(header.name)
    case SevenZipWriteStr(_, name) => Some(name)
    case _ => None
  }

  /** `write` through any adapter, with the compression keywords reaching zip's only: rar
      refuses; the others write the source exactly when it is a regular file. */
  function WriteSpec(a: Adapter, fs: FileSystem, source: Path, arcname: Option<StrPath>,
                     ctype: Option<CompressionType>, level: Option<int>): (e: Effect<Outcome>)
    ensures a.RarAdapter? ==> e == Effect(Fail(NotImplementedError), [])
    ensures !a.RarAdapter? ==> (e.result.Pass? <==> IsFile(fs, source))
    ensures e.result.Fail? ==> e.issued == []
    ensures e.result.Pass? ==> |e.issued| == 1 && Source(e.issued[0]) == Some(source)
  {
    match a
    case ZipAdapter(z) => ZipImpl.WriteEffect(fs, source, arcname, ctype, level)
    case TarAdapter(t) => TarImpl.WriteEffect(fs, source, arcname)
    case SevenZipAdapter(s) => SevenZipImpl.WriteEffect(fs, source, arcname)
    case RarAdapter(r) => Effect(Fail(NotImplementedError), [])
  }

  /** `write_text` through any adapter: one member named `get_member_name(arcname)` holding
      the text (tar: its UTF-8 bytes), except on rar, which refuses. */
  function WriteTextSpec(a: Adapter, data: string, arcname: StrPath,
                         ctype: Option<CompressionType>, level: Option<int>): (e: Effect<Outcome>)
    ensures a.RarAdapter? ==> e == Effect(Fail(NotImplementedError), [])
    ensures !a.RarAdapter? ==> e.result == Pass && |e.issued| == 1
    ensures !a.RarAdapter? ==> WrittenName(e.issued[0]) == Some(GetMemberName(arcname))
  {
    match a
    case ZipAdapter(_) => Effect(Pass, [ZipWriteStr(GetMemberName(arcname), Text(data), ctype, level)])
    case TarAdapter(_) => Effect(Pass, [TarAddFile(TarHeader(GetMemberName(arcname), |Utf8(data)|), Utf8(data))])
    case SevenZipAdapter(_) => Effect(Pass, [SevenZipWriteStr(Text(data), GetMemberName(arcname))])
    case RarAdapter(_) => Effect(Fail(NotImplementedError), [])
  }

  /** `write_bytes` through any adapter: one member named `get_member_name(arcname)` holding
      the bytes, except on rar, which refuses. */
  function WriteBytesSpec(a: Adapter, data: seq<byte>, arcname: StrPath,
                          ctype: Option<CompressionType>, level: Option<int>): (e: Effect<Outcome>)
    ensures a.RarAdapter? ==> e == Effect(Fail(NotImplementedError), [])
    ensures !a.RarAdapter? ==> e.result == Pass && |e.issued| == 1
    ensures !a.RarAdapter? ==> WrittenName(e.issued[0]) == Some(GetMemberName(arcname))
  {
    match a
    case ZipAdapter(_) => Effect(Pass, [ZipWriteStr(GetMemberName(arcname), Bytes(data), ctype, level)])
    case TarAdapter(_) => Effect(Pass, [TarAddFile(TarHeader(GetMemberName(arcname), |data|), data)])
    case SevenZipAdapter(_) => Effect(Pass, [SevenZipWriteStr(Bytes(data), GetMemberName(arcname))])
    case RarAdapter(_) => Effect(Fail(NotImplementedError), [])
  }

  /** `writeall` through any adapter: rar refuses; the others fail with ValueError, writing
      nothing, when the directory or root check fails, and only ever write regular files
      the glob yielded. */
  function WriteAllSpec(a: Adapter, fs: FileSystem, dir: Path, root: Option<Path>, matches: seq<Path>,
                        ctype: Option<CompressionType>, level: Option<int>): (e: Effect<Outcome>)
    requires BelowDir(matches, dir)
    ensures a.RarAdapter? ==> e == Effect(Fail(NotImplementedError), [])
    ensures !a.RarAdapter? && WriteAllRoot(fs, dir, root).Err? ==> e == Effect(Fail(ValueError), [])
    ensures a.TarAdapter? && WriteAllRoot(fs, dir, root).Ok? ==> e.result == Pass
    ensures (a.ZipAdapter? || a.SevenZipAdapter?) && WriteAllRoot(fs, dir, root).Ok? ==>
      (e.result.Pass? <==> forall x :: x in matches ==> IsFile(fs, x))
    ensures (a.ZipAdapter? || a.SevenZipAdapter?) && WriteAllRoot(fs, dir, root).Ok? ==>
      |e.issued| == FirstNonFile(matches, fs)
    ensures a.TarAdapter? && WriteAllRoot(fs, dir, root).Ok? ==> |e.issued| == |RegularFiles(matches, fs)|
  {
    match a
    case ZipAdapter(_) => ZipImpl.WriteAllEffect(fs, dir, root, matches, ctype, level)
    case TarAdapter(_) => TarImpl.WriteAllEffect(fs, dir, root, matches)
    case SevenZipAdapter(_) => SevenZipImpl.WriteAllEffect(fs, dir, root, matches)
    case RarAdapter(_) => Effect(Fail(NotImplementedError), [])
  }

  /** The zip walk writes the i-th match, a regular file. */
  lemma ZipWriteAllSources(fs: FileSystem, dir: Path, root: Option<Path>, matches: seq<Path>,
                           ctype: Option<CompressionType>, level: Option<int>)
    requires BelowDir(matches, dir)
    ensures var e := ZipImpl.WriteAllEffect(fs, dir, root, matches, ctype, level);
      forall i :: 0 <= i < |e.issued| ==> Source(e.issued[i]) == Some(matches[i]) && IsFile(fs, matches[i])
  {
    ZipImpl.WriteAllCalls(fs, dir, root, matches, ctype, level);
  }

  /** The 7z walk writes the i-th match, a regular file. */
  lemma SevenZipWriteAllSources(fs: FileSystem, dir: Path, root: Option<Path>, matches: seq<Path>)
    requires BelowDir(matches, dir)
    ensures var e := SevenZipImpl.WriteAllEffect(fs, dir, root, matches);
      forall i :: 0 <= i < |e.issued| ==> Source(e.issued[i]) == Some(matches[i]) && IsFile(fs, matches[i])
  {
    SevenZipImpl.WriteAllCalls(fs, dir, root, matches);
  }

  /** The tar walk adds regular files among the matches. */
  lemma TarWriteAllSources(fs: FileSystem, dir: Path, root: Option<Path>, matches: seq<Path>)
    requires BelowDir(matches, dir)
    ensures var e := TarImpl.WriteAllEffect(fs, dir, root, matches);
      forall i :: 0 <= i < |e.issued| ==>
        Source(e.issued[i]).Some? && Source(e.issued[i]).value in matches && IsFile(fs, Source(e.issued[i]).value)
  {
    TarImpl.WriteAllCalls(fs, dir, root, matches);
  }

  /** Whatever the format, `writeall` only ever hands the library regular files the glob
      yielded. */
  lemma WriteAllWritesOnlyMatchedFiles(a: Adapter, fs: FileSystem, dir: Path, root: Option<Path>,
                                       matches: seq<Path>, ctype: Option<CompressionType>, level: Option<int>)
    requires BelowDir(matches, dir)
    ensures var e := WriteAllSpec(a, fs, dir, root, matches, ctype, level);
      forall i :: 0 <= i < |e.issued| ==>
        Source(e.issued[i]).Some? && Source(e.issued[i]).value in matches && IsFile(fs, Source(e.issued[i]).value)
  {
    match a
    case ZipAdapter(_) => ZipWriteAllSources(fs, dir, root, matches, ctype, level);
    case TarAdapter(_) => TarWriteAllSources(fs, dir, root, matches);
    case SevenZipAdapter(_) => SevenZipWriteAllSources(fs, dir, root, matches);
    case RarAdapter(_) =>
  }

  /** A `writeall` that succeeds has handed the library every regular file the glob yielded. */
  lemma WriteAllWritesEveryFile(a: Adapter, fs: FileSystem, dir: Path, root: Option<Path>, matches: seq<Path>,
                                ctype: Option<CompressionType>, level: Option<int>, x: Path)
    requires BelowDir(matches, dir)
    requires WriteAllSpec(a, fs, dir, root, matches, ctype, level).result.Pass?
    requires x in matches && IsFile(fs, x)
    ensures var e := WriteAllSpec(a, fs, dir, root, matches, ctype, level);
      exists i :: 0 <= i < |e.issued| && Source(e.issued[i]) == Some(x)
  {
    var e := WriteAllSpec(a, fs, dir, root, matches, ctype, level);
    var j :| 0 <= j < |matches| && matches[j] == x;
    match a
    case ZipAdapter(_) =>
      ZipWriteAllSources(fs, dir, root, matches, ctype, level);
      assert Source(e.issued[j]) == Some(x);
    case SevenZipAdapter(_) =>
      SevenZipWriteAllSources(fs, dir, root, matches);
      assert Source(e.issued[j]) == Some(x);
    case TarAdapter(_) =>
      TarImpl.WriteAllWritesEveryFile(fs, dir, root, matches, x);
      var i :| 0 <= i < |e.issued| && e.issued[i].source == x;
      TarImpl.WriteAllCalls(fs, dir, root, matches);
      assert Source(e.issued[i]) == Some(x);
  }

  class ArchiveFile {
    /** The adapter built for the file. */
    const adapter: Adapter
    /** The mode as requested, which the repr shows. */
    const requestedMode: string

    constructor (adapter: Adapter, mode: string)
      ensures this.adapter == adapter && requestedMode == mode
    {
      this.adapter := adapter;
      requestedMode := mode;
    }

    /** `ArchiveFile(file, mode, password=...)` for the resolved `file`: the dispatcher picks
        the format, and that format's adapter is built once with the file, the mode and the
        password as given; `entries` is the listing its library reads. */
    static method Open(file: Path, mode: string, password: Option<string>, fileExists: bool,
                       probes: Probes, entries: seq<Entry>) returns (r: Result<ArchiveFile>)
      ensures r.Err? <==> OpenSpec(fileExists, mode, file, probes).Err?
      ensures r.Err? ==> r.error == OpenSpec(fileExists, mode, file, probes).error
      ensures r.Ok? ==> fresh(r.value) && fresh(Handle(r.value.adapter))
      ensures r.Ok? ==>
        var a := r.value.adapter;
        (FormatOf(a), AdapterMode(a)) == OpenSpec(fileExists, mode, file, probes).value
        && AdapterFile(a) == file && AdapterPassword(a) == password && Entries(a) == entries
        && Calls(a) == [] && r.value.requestedMode == mode
    {
      var format := Dispatch(fileExists, mode, file, probes);
      if format.Err? {
        return Err(format.error);
      }
      var a: Adapter;
      match format.value {
        case Zip =>
          var z := ZipImpl.ZipFileAdapter.Open(file, mode, password, fileExists, entries);
          if z.Err? {
            return Err(z.error);
          }
          a := ZipAdapter(z.value);
        case Tar =>
          var t := TarImpl.TarFileAdapter.Open(file, mode, password, fileExists, entries);
          if t.Err? {
            return Err(t.error);
          }
          a := TarAdapter(t.value);
        case SevenZip =>
          var s := SevenZipImpl.SevenZipFileAdapter.Open(file, mode, password, fileExists, entries);
          if s.Err? {
            return Err(s.error);
          }
          a := SevenZipAdapter(s.value);
        case Rar =>
          var rar := RarImpl.RarFileAdapter.Open(file, mode, password, entries);
          if rar.Err? {
            return Err(rar.error);
          }
          a := RarAdapter(rar.value);
      }
      var archive := new ArchiveFile(a, mode);
      return Ok(archive);
    }

    /** The `file`, `mode` and `password` properties are the adapter's. */
    function File(): (f: Path)
      ensures f == AdapterFile(adapter)
    {
      match adapter
      case ZipAdapter(z) => z.file
      case TarAdapter(t) => t.file
      case SevenZipAdapter(s) => s.file
      case RarAdapter(r) => r.file
    }

    function Mode(): (m: string)
      ensures m == AdapterMode(adapter)
    {
      match adapter
      case ZipAdapter(z) => z.mode
      case TarAdapter(t) => t.mode
      case SevenZipAdapter(s) => s.mode
      case RarAdapter(r) => r.mode
    }

    function Password(): (p: Option<string>)
      ensures p == AdapterPassword(adapter)
    {
      match adapter
      case ZipAdapter(z) => z.password
      case TarAdapter(t) => t.password
      case SevenZipAdapter(s) => s.password
      case RarAdapter(r) => r.password
    }

    function GetNames(): (r: seq<string>)
      ensures r == Names(Entries(adapter))
    {
      match adapter
      case ZipAdapter(z) => z.GetNames()
      case TarAdapter(t) => t.GetNames()
      case SevenZipAdapter(s) => s.GetNames()
      case RarAdapter(r) => r.GetNames()
    }

    /** `get_members()`: one member per listed name, in listing order. */
    function GetMembers(): (r: seq<ArchiveMember>)
      ensures |r| == |GetNames()|
      ensures forall i :: 0 <= i < |r| ==> r[i].name == GetNames()[i]
    {
      match adapter
      case ZipAdapter(z) => z.GetMembers()
      case TarAdapter(t) => t.GetMembers()
      case SevenZipAdapter(s) => s.GetMembers()
      case RarAdapter(r) => r.GetMembers()
    }

    /** `get_member(name)`: a member `get_members()` lists under the looked-up name, or
        KeyError when that name is not listed. */
    function GetMember(member: StrPath): (r: Result<ArchiveMember>)
      ensures r.Err? <==> LookupName(adapter, member) !in Keys(adapter)
      ensures r.Err? ==> r.error == KeyError(ReportedName(adapter, member))
      ensures r.Ok? ==> r.value in GetMembers()
      ensures r.Ok? && !adapter.RarAdapter? ==> r.value.name == LookupName(adapter, member)
      ensures r.Ok? && adapter.RarAdapter? ==> RStripSlash(r.value.name) == LookupName(adapter, member)
    {
      match adapter
      case ZipAdapter(z) =>
        assert GetMembers() == ZipImpl.Members(z.entries);
        z.GetMember(member)
      case TarAdapter(t) =>
        assert GetMembers() == TarImpl.Members(t.entries);
        t.GetMember(member)
      case SevenZipAdapter(s) =>
        assert GetMembers() == SevenZipImpl.Members(s.entries);
        s.GetMember(member)
      case RarAdapter(r) =>
        assert GetMembers() == RarImpl.Members(r.entries);
        r.GetMember(member)
    }

    method ReadBytes(member: MemberRef) returns (r: Result<seq<byte>>)
      modifies Handle(adapter)
      ensures r == ReadSpec(adapter, member).result
      ensures Calls(adapter) == old(Calls(adapter)) + ReadSpec(adapter, member).issued
    {
      match adapter {
        case ZipAdapter(z) => r := z.ReadBytes(member);
        case TarAdapter(t) => r := t.ReadBytes(member);
        case SevenZipAdapter(s) => r := s.ReadBytes(member);
        case RarAdapter(rar) => r := rar.ReadBytes(member);
      }
    }

    method Extract(member: MemberRef, dest: Path) returns (r: Result<Path>)
      modifies Handle(adapter)
      ensures r == ExtractSpec(adapter, member, dest).result
      ensures Calls(adapter) == old(Calls(adapter)) + ExtractSpec(adapter, member, dest).issued
    {
      match adapter {
        case ZipAdapter(z) => r := z.Extract(member, dest);
        case TarAdapter(t) => r := t.Extract(member, dest);
        case SevenZipAdapter(s) => r := s.Extract(member, dest);
        case RarAdapter(rar) => r := rar.Extract(member, dest);
      }
    }

    method ExtractAll(dest: Path, members: Option<seq<MemberRef>>) returns (r: Result<Path>)
      modifies Handle(adapter)
      ensures r == ExtractAllSpec(adapter, dest, members).result
      ensures Calls(adapter) == old(Calls(adapter)) + ExtractAllSpec(adapter, dest, members).issued
    {
      match adapter {
        case ZipAdapter(z) => r := z.ExtractAll(dest, members);
        case TarAdapter(t) => r := t.ExtractAll(dest, members);
        case SevenZipAdapter(s) => r := s.ExtractAll(dest, members);
        case RarAdapter(rar) => r := rar.ExtractAll(dest, members);
      }
    }

    /** `write`, forwarding the compression keywords to the zip adapter only. */
    method Write(source: Path, arcname: Option<StrPath>, ctype: Option<CompressionType>,
                 level: Option<int>, fs: FileSystem) returns (r: Outcome)
      modifies Handle(adapter)
      ensures r == WriteSpec(adapter, fs, source, arcname, ctype, level).result
      ensures Calls(adapter) == old(Calls(adapter)) + WriteSpec(adapter, fs, source, arcname, ctype, level).issued
    {
      match adapter {
        case ZipAdapter(z) => r := z.Write(source, arcname, ctype, level, fs);
        case TarAdapter(t) => r := t.Write(source, arcname, fs);
        case SevenZipAdapter(s) => r := s.Write(source, arcname, fs);
        case RarAdapter(rar) => r := rar.Write(source, arcname);
      }
    }

    /** `write` as the facade forwards it: with the compression keywords for every adapter,
        which binds only for zip and raises TypeError, before anything is written, for the
        others. */
    method WriteAsWritten(source: Path, arcname: Option<StrPath>, ctype: Option<CompressionType>,
                          level: Option<int>, fs: FileSystem) returns (r: Outcome)
      modifies Handle(adapter)
      ensures !adapter.ZipAdapter? ==> r == Fail(TypeError) && Calls(adapter) == old(Calls(adapter))
      ensures adapter.ZipAdapter? ==> r == WriteSpec(adapter, fs, source, arcname, ctype, level).result
      ensures adapter.ZipAdapter? ==>
        Calls(adapter) == old(Calls(adapter)) + WriteSpec(adapter, fs, source, arcname, ctype, level).issued
    {
      var binding := BindWriteKeywords(FormatOf(adapter), true);
      if binding.Fail? {
        return binding;
      }
      r := Write(source, arcname, ctype, level, fs);
    }

    method WriteText(data: string, arcname: StrPath, ctype: Option<CompressionType>, level: Option<int>)
      returns (r: Outcome)
      modifies Handle(adapter)
      ensures r == WriteTextSpec(adapter, data, arcname, ctype, level).result
      ensures Calls(adapter) == old(Calls(adapter)) + WriteTextSpec(adapter, data, arcname, ctype, level).issued
    {
      r := Pass;
      match adapter {
        case ZipAdapter(z) => z.WriteText(data, arcname, ctype, level);
        case TarAdapter(t) => t.WriteText(data, arcname);
        case SevenZipAdapter(s) => s.WriteText(data, arcname);
        case RarAdapter(rar) => r := rar.WriteText(data, arcname);
      }
    }

    method WriteBytes(data: seq<byte>, arcname: StrPath, ctype: Option<CompressionType>, level: Option<int>)
      returns (r: Outcome)
      modifies Handle(adapter)
      ensures r == WriteBytesSpec(adapter, data, arcname, ctype, level).result
      ensures Calls(adapter) == old(Calls(adapter)) + WriteBytesSpec(adapter, data, arcname, ctype, level).issued
    {
      r := Pass;
      match adapter {
        case ZipAdapter(z) => z.WriteBytes(data, arcname, ctype, level);
        case TarAdapter(t) => t.WriteBytes(data, arcname);
        case SevenZipAdapter(s) => s.WriteBytes(data, arcname);
        case RarAdapter(rar) => r := rar.WriteBytes(data, arcname);
      }
    }

    /** `writeall`, with `matches` the paths the glob yields below `dir`, in glob order. */
    method WriteAll(dir: Path, root: Option<Path>, matches: seq<Path>, ctype: Option<CompressionType>,
                    level: Option<int>, fs: FileSystem) returns (r: Outcome)
      requires BelowDir(matches, dir)
      modifies Handle(adapter)
      ensures r == WriteAllSpec(adapter, fs, dir, root, matches, ctype, level).result
      ensures Calls(adapter) == old(Calls(adapter)) + WriteAllSpec(adapter, fs, dir, root, matches, ctype, level).issued
    {
      match adapter {
        case ZipAdapter(z) => r := z.WriteAll(dir, root, matches, ctype, level, fs);
        case TarAdapter(t) => r := t.WriteAll(dir, root, matches, fs);
        case SevenZipAdapter(s) => r := s.WriteAll(dir, root, matches, fs);
        case RarAdapter(rar) => r := rar.WriteAll(dir, root);
      }
    }

    /** `write_text` as the facade forwards it: with the compression keywords, which only the
        zip adapter declares. */
    method WriteTextAsWritten(data: string, arcname: StrPath, ctype: Option<CompressionType>, level: Option<int>)
      returns (r: Outcome)
      modifies Handle(adapter)
      ensures !adapter.ZipAdapter? ==> r == Fail(TypeError) && Calls(adapter) == old(Calls(adapter))
      ensures adapter.ZipAdapter? ==> r == WriteTextSpec(adapter, data, arcname, ctype, level).result
      ensures adapter.ZipAdapter? ==>
        Calls(adapter) == old(Calls(adapter)) + WriteTextSpec(adapter, data, arcname, ctype, level).issued
    {
      var binding := BindWriteKeywords(FormatOf(adapter), true);
      if binding.Fail? {
        return binding;
      }
      r := WriteText(data, arcname, ctype, level);
    }

    /** `write_bytes` as the facade forwards it: with the compression keywords, which only the
        zip adapter declares. */
    method WriteBytesAsWritten(data: seq<byte>, arcname: StrPath, ctype: Option<CompressionType>, level: Option<int>)
      returns (r: Outcome)
      modifies Handle(adapter)
      ensures !adapter.ZipAdapter? ==> r == Fail(TypeError) && Calls(adapter) == old(Calls(adapter))
      ensures adapter.ZipAdapter? ==> r == WriteBytesSpec(adapter, data, arcname, ctype, level).result
      ensures adapter.ZipAdapter? ==>
        Calls(adapter) == old(Calls(adapter)) + WriteBytesSpec(adapter, data, arcname, ctype, level).issued
    {
      var binding := BindWriteKeywords(FormatOf(adapter), true);
      if binding.Fail? {
        return binding;
      }
      r := WriteBytes(data, arcname, ctype, level);
    }

    /** `writeall` as the facade forwards it: with the compression keywords, which only the
        zip adapter declares. */
    method WriteAllAsWritten(dir: Path, root: Option<Path>, matches: seq<Path>, ctype: Option<CompressionType>,
                             level: Option<int>, fs: FileSystem) returns (r: Outcome)
      requires BelowDir(matches, dir)
      modifies Handle(adapter)
      ensures !adapter.ZipAdapter? ==> r == Fail(TypeError) && Calls(adapter) == old(Calls(adapter))
      ensures adapter.ZipAdapter? ==> r == WriteAllSpec(adapter, fs, dir, root, matches, ctype, level).result
      ensures adapter.ZipAdapter? ==>
        Calls(adapter) == old(Calls(adapter)) + WriteAllSpec(adapter, fs, dir, root, matches, ctype, level).issued
    {
      var binding := BindWriteKeywords(FormatOf(adapter), true);
      if binding.Fail? {
        return binding;
      }
      r := WriteAll(dir, root, matches, ctype, level, fs);
    }

    /** `close()`: the adapter closes its library handle. */
    method Close()
      modifies Handle(adapter)
      ensures Calls(adapter) == old(Calls(adapter)) + [CloseHandle]
    {
      match adapter {
        case ZipAdapter(z) => z.Close();
        case TarAdapter(t) => t.Close();
        case SevenZipAdapter(s) => s.Close();
        case RarAdapter(rar) => rar.Close();
      }
    }

    /** Leaving the context manager closes the adapter, as `close()` does. */
    method Exit()
      modifies Handle(adapter)
      ensures Calls(adapter) == old(Calls(adapter)) + [CloseHandle]
    {
      Close();
    }

    /** The facade repr: the adapter's class name, the file, the mode as requested and the
        password text itself. */
    function Repr(): (s: string)
      ensures s == FacadeRepr(ClassName(FormatOf(adapter)), AdapterFile(adapter), requestedMode, AdapterPassword(adapter))
    {
      FacadeRepr(ClassName(FormatOf(adapter)), File(), requestedMode, Password())
    }
  }
}
