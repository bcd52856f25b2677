/** `TarFileAdapter`: the adapter over tarfile.TarFile. */
module Tar {
  import opened Results
  import opened Strings
  import opened Paths
  import opened Enums
  import opened Models
  import opened Utils
  import opened Native
  import opened Base

  /** TarInfo -> ArchiveMember: the compressed size is the size, and the directory and file
      flags are taken independently from tarfile's isdir() and isfile(). */
  /** The modes in which `tarfile.open` creates the file exclusively: "x" alone or with a
      compression it knows. */
  const CreateModes: seq<string> := ["x", "x:", "x:tar", "x:gz", "x:bz2", "x:xz"]

  /** The adapter keeps the mode as requested and passes it to `tarfile.open`, which raises
      FileExistsError when it is to create a file that exists. */
  function OpenMode(mode: string, fileExists: bool): (r: Result<string>)
    ensures r.Err? <==> fileExists && mode in CreateModes
    ensures r.Err? ==> r.error == FileExistsError
    ensures r.Ok? ==> r.value == mode
  {
    if fileExists && mode in CreateModes then Err(FileExistsError) else Ok(mode)
  }

  function ToMember(e: Entry): (m: ArchiveMember)
    ensures m.name == e.filename && m.size == e.size && m.checksum == e.crc
    ensures m.compressedSize == m.size
    ensures m.isDir == e.isDir && m.isFile == e.isFile
  {
    ArchiveMember(e.filename, e.size, e.size, e.crc, e.isDir, e.isFile)
  }

  /** `get_member`: tarfile's `getmember`, which looks the name up with its trailing slashes
      stripped (tarfile lists a directory without one) and takes the last entry of that
      name, or raises KeyError for the name as given. */
  function MemberByName(entries: seq<Entry>, name: string): (r: Result<ArchiveMember>)
    ensures r.Err? <==> RStripSlash(name) !in Names(entries)
    ensures r.Err? ==> r.error == KeyError(name)
    ensures r.Ok? ==> r.value.name == RStripSlash(name) && r.value.compressedSize == r.value.size
    ensures r.Ok? ==> r.value == Members(entries)[LastMatch(entries, RStripSlash(name)).value]
  {
    match LastMatch(entries, RStripSlash(name))
    case None => Err(KeyError(name))
    case Some(i) => Ok(ToMember(entries[i]))
  }

  /** A directory looked up with a trailing "/", as in `get_member("docs/")`, finds the member
      tarfile lists without it. */
  lemma TrailingSlashFindsMember(entries: seq<Entry>, s: string)
    requires s == [] || s[|s| - 1] != '/'
    ensures MemberByName(entries, s + "/").Ok? <==> s in Names(entries)
    ensures s in Names(entries) ==> MemberByName(entries, s + "/") == MemberByName(entries, s)
    ensures s in Names(entries) ==> MemberByName(entries, s + "/").value.name == s
  {
    RStripSlashAppend(s);
    RStripSlashKeeps(s);
  }

  /** `get_members`: one member per TarInfo, in listing order. */
  function Members(entries: seq<Entry>): (r: seq<ArchiveMember>)
    ensures |r| == |entries|
    ensures forall i :: 0 <= i < |entries| ==> r[i] == ToMember(entries[i])
  {
    seq(|entries|, i requires 0 <= i < |entries| => ToMember(entries[i]))
  }

  /** `get_names()` lists the names of `get_members()` in the same order, and no tar member
      ever reports a compressed size different from its size. */
  lemma NamesAreMemberNames(entries: seq<Entry>)
    ensures |Names(entries)| == |Members(entries)|
    ensures forall i :: 0 <= i < |entries| ==> Names(entries)[i] == Members(entries)[i].name
    ensures forall i :: 0 <= i < |entries| ==> Members(entries)[i].compressedSize == Members(entries)[i].size
  {
  }

  /** A GNU tar listing of a directory, asked for as "pyanilist-main/docs/", answers with
      the member named without the slash. */
  lemma DocsDirectoryWithSlash()
    ensures var docs := Entry("pyanilist-main/docs", 0, 0, 5024, true, false, []);
      MemberByName([docs], "pyanilist-main/docs/")
      == Ok(ArchiveMember("pyanilist-main/docs", 0, 0, 5024, true, false))
  {
    var docs := Entry("pyanilist-main/docs", 0, 0, 5024, true, false, []);
    assert "pyanilist-main/docs/" == "pyanilist-main/docs" + "/";
    TrailingSlashFindsMember([docs], "pyanilist-main/docs");
  }

  /** `read_bytes`: tarfile's `extractfile` of the member, found as `getmember` finds it
      (KeyError if absent); a member that is not a regular file has no file object and reads
      as b"". */
  function ReadEntry(entries: seq<Entry>, name: string): (r: Result<seq<byte>>)
    ensures r.Err? <==> RStripSlash(name) !in Names(entries)
    ensures r.Err? ==> r.error == KeyError(name)
    ensures r.Ok? ==>
      var e := entries[LastMatch(entries, RStripSlash(name)).value];
      r.value == if e.isFile then e.data else []
  {
    match LastMatch(entries, RStripSlash(name))
    case None => Err(KeyError(name))
    case Some(i) => Ok(if entries[i].isFile then entries[i].data else [])
  }

  /** The names `getmember` compares with the listing, one per requested name. */
  function LookupKeys(names: seq<string>): (r: seq<string>)
    ensures |r| == |names|
    ensures forall i :: 0 <= i < |names| ==> r[i] == RStripSlash(names[i])
  {
    seq(|names|, i requires 0 <= i < |names| => RStripSlash(names[i]))
  }

  lemma LookupKeysAppend(a: seq<string>, b: seq<string>)
    ensures LookupKeys(a + b) == LookupKeys(a) + LookupKeys(b)
  {
    forall i | 0 <= i < |a| + |b|
      ensures LookupKeys(a + b)[i] == (LookupKeys(a) + LookupKeys(b))[i]
    {
      if i < |a| {
        assert (a + b)[i] == a[i];
      } else {
        assert (a + b)[i] == b[i - |a|];
      }
    }
  }

  /** The first name missing from `all` among `names`, from the one among all but the last. */
  lemma LookupKeysSnoc(names: seq<string>, all: seq<string>)
    requires names != []
    ensures var prefix := names[..|names| - 1];
      var k := FirstAbsent(LookupKeys(prefix), all);
      FirstAbsent(LookupKeys(names), all)
      == if k < |prefix| then k else if RStripSlash(names[|names| - 1]) in all then |names| else |prefix|
  {
    var prefix := names[..|names| - 1];
    assert names == prefix + [names[|names| - 1]];
    LookupKeysAppend(prefix, [names[|names| - 1]]);
    FirstAbsentSnoc(LookupKeys(prefix), RStripSlash(names[|names| - 1]), all);
  }

  /** The TarInfo `getmember(name)` returns: the last entry named like `name` without its
      trailing slashes, if there is one. */
  function Found(entries: seq<Entry>, name: string): (r: Option<Entry>)
    ensures r.None? <==> RStripSlash(name) !in Names(entries)
    ensures r.Some? ==> r.value == entries[LastMatch(entries, RStripSlash(name)).value]
    ensures r.Some? ==> r.value.filename == RStripSlash(name)
  {
    match LastMatch(entries, RStripSlash(name))
    case None => None
    case Some(k) => Some(entries[k])
  }

  /** `getmember` for each name in turn: the TarInfos, or KeyError at the first name whose
      stripped form is not listed. */
  function LookupAll(entries: seq<Entry>, names: seq<string>): (r: Result<seq<Entry>>)
    ensures r.Err? <==> FirstAbsent(LookupKeys(names), Names(entries)) < |names|
    ensures r.Err? ==> r.error == KeyError(names[FirstAbsent(LookupKeys(names), Names(entries))])
    ensures r.Ok? ==> |r.value| == |names|
    ensures r.Ok? ==> forall i :: 0 <= i < |names| ==> r.value[i].filename == RStripSlash(names[i])
    ensures r.Ok? ==> forall i :: 0 <= i < |names| ==> Found(entries, names[i]) == Some(r.value[i])
  {
    if names == [] then Ok([])
    else
      var prefix := names[..|names| - 1];
      var last := names[|names| - 1];
      LookupKeysSnoc(names, Names(entries));
      match LookupAll(entries, prefix)
      case Err(err) => Err(err)
      case Ok(infos) =>
        match Found(entries, last)
        case None => Err(KeyError(last))
        case Some(info) =>
          FoundSnoc(entries, names, infos, info);
          Ok(infos + [info])
  }

  /** One more name found: the records so far extended by its record. */
  lemma FoundSnoc(entries: seq<Entry>, names: seq<string>, infos: seq<Entry>, info: Entry)
    requires names != [] && |infos| == |names| - 1
    requires forall i :: 0 <= i < |infos| ==> Found(entries, names[..|names| - 1][i]) == Some(infos[i])
    requires Found(entries, names[|names| - 1]) == Some(info)
    ensures forall i :: 0 <= i < |names| ==> Found(entries, names[i]) == Some((infos + [info])[i])
    ensures forall i :: 0 <= i < |names| ==> (infos + [info])[i].filename == RStripSlash(names[i])
  {
    forall i | 0 <= i < |names|
      ensures Found(entries, names[i]) == Some((infos + [info])[i])
    {
      if i < |infos| {
        assert names[..|names| - 1][i] == names[i];
      }
    }
  }

  /** Once a lookup fails, looking up more names does not change the error. */
  lemma LookupAllAppend(entries: seq<Entry>, a: seq<string>, b: seq<string>)
    requires LookupAll(entries, a).Err?
    ensures LookupAll(entries, a + b) == LookupAll(entries, a)
  {
    LookupKeysAppend(a, b);
    FirstAbsentAppend(LookupKeys(a), LookupKeys(b), Names(entries));
    assert (a + b)[FirstAbsent(LookupKeys(a), Names(entries))] == a[FirstAbsent(LookupKeys(a), Names(entries))];
  }

  /** One more name looked up: the lookups so far extended by this one's. */
  lemma LookupAllStep(entries: seq<Entry>, ms: seq<MemberRef>, i: nat)
    requires i < |ms|
    ensures var name := GetMemberName(ms[i]);
      LookupAll(entries, MemberNames(ms[..i + 1]))
      == match LookupAll(entries, MemberNames(ms[..i]))
         case Err(err) => Err(err)
         case Ok(infos) =>
           match Found(entries, name)
           case None => Err(KeyError(name))
           case Some(info) => Ok(infos + [info])
  {
    var names := MemberNames(ms[..i + 1]);
    assert names[..|names| - 1] == MemberNames(ms[..i]);
  }

  /** A name that is missing decides the lookup of the whole request. */
  lemma LookupAllMissing(entries: seq<Entry>, ms: seq<MemberRef>, i: nat)
    requires i < |ms| && LookupAll(entries, MemberNames(ms[..i + 1])).Err?
    ensures LookupAll(entries, MemberNames(ms)) == LookupAll(entries, MemberNames(ms[..i + 1]))
  {
    LookupAllAppend(entries, MemberNames(ms[..i + 1]), MemberNames(ms[i + 1..]));
    MemberNamesSplit(ms, i + 1);
  }

  /** A requested name that is not found fails the whole `extractall` with its KeyError. */
  lemma ExtractAllMissing(entries: seq<Entry>, dest: Path, ms: seq<MemberRef>, i: nat)
    requires i < |ms| && LookupAll(entries, MemberNames(ms[..i])).Ok?
    requires Found(entries, GetMemberName(ms[i])).None?
    ensures ExtractAllEffect(entries, dest, Some(ms)) == Effect(Err(KeyError(GetMemberName(ms[i]))), [])
  {
    LookupAllStep(entries, ms, i);
    LookupAllMissing(entries, ms, i);
  }

  /** `extractall`: with members, every name is looked up before anything is extracted, so a
      missing name raises KeyError and nothing is handed to tarfile; without (or with no)
      members, everything is extracted. */
  function ExtractAllEffect(entries: seq<Entry>, dest: Path, members: Option<seq<MemberRef>>): (e: Effect<Result<Path>>)
    ensures members.None? || members.value == [] ==> e == Effect(Ok(dest), [TarExtractAll(dest, None)])
    ensures members.Some? && members.value != [] ==>
      var names := MemberNames(members.value);
      var k := FirstAbsent(LookupKeys(names), Names(entries));
      (e.result.Err? <==> k < |names|) && (e.result.Err? ==> e.result.error == KeyError(names[k]) && e.issued == [])
    ensures e.result.Ok? ==> e.result.value == dest && |e.issued| == 1 && e.issued[0].TarExtractAll?
    ensures e.result.Ok? && members.Some? && members.value != [] ==>
      var infos := e.issued[0].tarMembers;
      infos.Some? && |infos.value| == |members.value|
      && (forall i :: 0 <= i < |members.value| ==> infos.value[i].filename == RStripSlash(GetMemberName(members.value[i])))
      && forall i :: 0 <= i < |members.value| ==> Found(entries, GetMemberName(members.value[i])) == Some(infos.value[i])
  {
    if members.None? || members.value == [] then Effect(Ok(dest), [TarExtractAll(dest, None)])
    else
      match LookupAll(entries, MemberNames(members.value))
      case Err(err) => Effect(Err(err), [])
      case Ok(infos) => Effect(Ok(dest), [TarExtractAll(dest, Some(infos))])
  }

  /** `extract`: tarfile is asked to extract the member by name, finds it as `getmember`
      does and raises KeyError when it is not listed; otherwise the result is
      `destination / name`, with the name as given. */
  function ExtractEffect(entries: seq<Entry>, dest: Path, member: MemberRef): (e: Effect<Result<Path>>)
    ensures e.issued == [TarExtract(GetMemberName(member), dest)]
    ensures e.result.Ok? <==> RStripSlash(GetMemberName(member)) in Names(entries)
    ensures e.result.Ok? ==> e.result.value == Div(dest, GetMemberName(member))
    ensures e.result.Err? ==> e.result.error == KeyError(GetMemberName(member))
  {
    var name := GetMemberName(member);
    Effect(if RStripSlash(name) in Names(entries) then Ok(Div(dest, name)) else Err(KeyError(name)),
           [TarExtract(name, dest)])
  }

  /** `write`: the source must be a regular file (else ValueError, nothing added); the
      archive name defaults to its basename. */
  function WriteEffect(fs: FileSystem, source: Path, arcname: Option<StrPath>): (e: Effect<Outcome>)
    ensures e.result.Pass? <==> IsFile(fs, source)
    ensures e.result.Fail? ==> e.result.error == ValueError && e.issued == []
    ensures e.result.Pass? ==> e.issued == [TarAdd(source, DefaultArcname(source, arcname))]
  {
    if !IsFile(fs, source) then Effect(Fail(ValueError), [])
    else Effect(Pass, [TarAdd(source, DefaultArcname(source, arcname))])
  }

  /** The TarFile.add calls `writeall` issues for the given files, relative to `root`. */
  function AddCalls(files: seq<Path>, root: Path): (r: seq<NativeCall>)
    requires forall x :: x in files ==> IsRelativeTo(x, root)
    ensures |r| == |files|
    ensures forall i :: 0 <= i < |files| ==> r[i] == TarAdd(files[i], ByPath(RelativeTo(files[i], root)))
  {
    seq(|files|, i requires 0 <= i < |files| => TarAdd(files[i], ByPath(RelativeTo(files[i], root))))
  }

  /** The adds issued for the first `i` matches, one match at a time as the loop of
      `writeall` visits them. */
  function AddedCalls(matches: seq<Path>, i: nat, root: Path, fs: FileSystem): (r: seq<NativeCall>)
    requires i <= |matches|
    requires forall x :: x in matches ==> IsRelativeTo(x, root)
    ensures |r| <= i
  {
    if i == 0 then []
    else
      var file := matches[i - 1];
      AddedCalls(matches, i - 1, root, fs)
        + (if IsFile(fs, file) then [TarAdd(file, ByPath(RelativeTo(file, root)))] else [])
  }

  /** Visiting the matches one at a time adds exactly the regular files among them, in order. */
  lemma {:induction false} AddedCallsFiltered(matches: seq<Path>, i: nat, root: Path, fs: FileSystem)
    requires i <= |matches|
    requires forall x :: x in matches ==> IsRelativeTo(x, root)
    ensures forall x :: x in RegularFiles(matches[..i], fs) ==> IsRelativeTo(x, root)
    ensures AddedCalls(matches, i, root, fs) == AddCalls(RegularFiles(matches[..i], fs), root)
  {
    PrefixMembers(matches, i);
    if i > 0 {
      AddedCallsFiltered(matches, i - 1, root, fs);
      RegularFilesStep(matches, i - 1, fs);
    }
  }

  /** `writeall`: after the directory and root checks, the glob matches that are regular files
      are added, in glob order, under their path relative to the root; other matches are
      skipped. */
  function WriteAllEffect(fs: FileSystem, dir: Path, root: Option<Path>, matches: seq<Path>): (e: Effect<Outcome>)
    requires BelowDir(matches, dir)
    ensures WriteAllRoot(fs, dir, root).Err? ==> e == Effect(Fail(ValueError), [])
    ensures WriteAllRoot(fs, dir, root).Ok? ==> e.result == Pass
    ensures WriteAllRoot(fs, dir, root).Ok? ==> |e.issued| == |RegularFiles(matches, fs)|
  {
    match WriteAllRoot(fs, dir, root)
    case Err(err) => Effect(Fail(err), [])
    case Ok(rt) =>
      MatchesBelowRoot(matches, dir, rt);
      Effect(Pass, AddCalls(RegularFiles(matches, fs), rt))
  }

  /** Every add of `writeall` is of a regular file among the matches, under its path relative
      to the root. */
  lemma WriteAllCalls(fs: FileSystem, dir: Path, root: Option<Path>, matches: seq<Path>)
    requires BelowDir(matches, dir)
    ensures var e := WriteAllEffect(fs, dir, root, matches);
      forall i :: 0 <= i < |e.issued| ==>
        e.issued[i].TarAdd? && e.issued[i].source in matches && IsFile(fs, e.issued[i].source)
    ensures var e := WriteAllEffect(fs, dir, root, matches);
      forall i :: 0 <= i < |e.issued| ==>
        var rt := WriteAllRoot(fs, dir, root).value;
        e.issued[i].arcname.ByPath? && Path(rt.anchor, rt.parts + e.issued[i].arcname.path.parts) == e.issued[i].source
  {
    if WriteAllRoot(fs, dir, root).Ok? {
      MatchesBelowRoot(matches, dir, WriteAllRoot(fs, dir, root).value);
    }
  }

  /** Every regular file the glob yields is added, once the checks pass. */
  lemma WriteAllWritesEveryFile(fs: FileSystem, dir: Path, root: Option<Path>, matches: seq<Path>, x: Path)
    requires BelowDir(matches, dir) && WriteAllRoot(fs, dir, root).Ok?
    requires x in matches && IsFile(fs, x)
    ensures exists i :: 0 <= i < |WriteAllEffect(fs, dir, root, matches).issued|
                        && WriteAllEffect(fs, dir, root, matches).issued[i].source == x
  {
    RegularFilesComplete(matches, fs, x);
    var files := RegularFiles(matches, fs);
    var i :| 0 <= i < |files| && files[i] == x;
    assert WriteAllEffect(fs, dir, root, matches).issued[i].source == x;
  }

  class TarFileAdapter {
    /** The resolved archive path. */
    const file: Path
    /** The mode exactly as requested, compression suffix included. */
    const mode: string
    const password: Option<string>
    /** The listing of the TarFile this adapter holds. */
    const entries: seq<Entry>
    /** The calls issued to the TarFile, in order. */
    var calls: seq<NativeCall>

    /** `TarFileAdapter(file, mode, password=...)`, with `entries` the listing tarfile reads. */
    constructor (file: Path, mode: string, password: Option<string>, entries: seq<Entry>)
      ensures this.file == file && this.mode == mode && this.password == password
      ensures this.entries == entries && calls == []
    {
      this.file := file;
      this.mode := mode;
      this.password := password;
      this.entries := entries;
      calls := [];
    }

    /** `TarFileAdapter(file, mode, password=...)`, with `fileExists` whether the file is
        there and `entries` the listing tarfile reads. */
    static method Open(file: Path, mode: string, password: Option<string>, fileExists: bool, entries: seq<Entry>)
      returns (r: Result<TarFileAdapter>)
      ensures OpenMode(mode, fileExists).Err? ==> r == Err(FileExistsError)
      ensures OpenMode(mode, fileExists).Ok? ==> r.Ok? && fresh(r.value)
      ensures OpenMode(mode, fileExists).Ok? ==>
        r.value.file == file && r.value.mode == mode && r.value.password == password
        && r.value.entries == entries && r.value.calls == []
    {
      if fileExists && mode in CreateModes {
        return Err(FileExistsError);
      }
      var a := new TarFileAdapter(file, mode, password, entries);
      return Ok(a);
    }

    /** The `compression_type` and `compression_level` properties: always None. */
    function Compression(): (r: (Option<CompressionType>, Option<int>))
      ensures r.0.None? && r.1.None?
    {
      (None, None)
    }

    function GetMember(member: StrPath): (r: Result<ArchiveMember>)
    {
      MemberByName(entries, GetMemberName(member))
    }

    function GetMembers(): (r: seq<ArchiveMember>)
    {
      Members(entries)
    }

    function GetNames(): (r: seq<string>)
    {
      Names(entries)
    }

    function ReadBytes(member: MemberRef): (r: Result<seq<byte>>)
    {
      ReadEntry(entries, GetMemberName(member))
    }

    method Extract(member: MemberRef, dest: Path) returns (r: Result<Path>)
      modifies this
      ensures r == ExtractEffect(entries, dest, member).result
      ensures calls == old(calls) + ExtractEffect(entries, dest, member).issued
    {
      var name := GetMemberName(member);
      calls := calls + [TarExtract(name, dest)];
      if RStripSlash(name) !in Names(entries) {
        return Err(KeyError(name));
      }
      return Ok(Div(dest, name));
    }

    method ExtractAll(dest: Path, members: Option<seq<MemberRef>>) returns (r: Result<Path>)
      modifies this
      ensures r == ExtractAllEffect(entries, dest, members).result
      ensures calls == old(calls) + ExtractAllEffect(entries, dest, members).issued
    {
      if members.Some? && members.value != [] {
        var ms := members.value;
        var infos: seq<Entry> := [];
        var i := 0;
        while i < |ms|
          invariant 0 <= i <= |ms|
          invariant LookupAll(entries, MemberNames(ms[..i])) == Ok(infos)
          invariant calls == old(calls)
        {
          var name := GetMemberName(ms[i]);
          var info := Found(entries, name);
          LookupAllStep(entries, ms, i);
          if info.None? {
            ExtractAllMissing(entries, dest, ms, i);
            return Err(KeyError(name));
          }
          infos := infos + [info.value];
          i := i + 1;
        }
        assert ms[..i] == ms;
        calls := calls + [TarExtractAll(dest, Some(infos))];
      } else {
        calls := calls + [TarExtractAll(dest, None)];
      }
      return Ok(dest);
    }

    method Write(source: Path, arcname: Option<StrPath>, fs: FileSystem) returns (r: Outcome)
      modifies this
      ensures r == WriteEffect(fs, source, arcname).result
      ensures calls == old(calls) + WriteEffect(fs, source, arcname).issued
    {
      var name := if arcname.None? then ByName(Name(source)) else arcname.value;
      if !IsFile(fs, source) {
        return Fail(ValueError);
      }
      calls := calls + [TarAdd(source, name)];
      return Pass;
    }

    /** `write_bytes`: a TarInfo named `get_member_name(arcname)` whose size is set to the
        length of the data, added with the data. */
    method WriteBytes(data: seq<byte>, arcname: StrPath)
      modifies this
      ensures calls == old(calls) + [TarAddFile(TarHeader(GetMemberName(arcname), |data|), data)]
    {
      var header := TarHeader(GetMemberName(arcname), 0);
      header := header.(size := |data|);
      calls := calls + [TarAddFile(header, data)];
    }

    /** `write_text`: `write_bytes` of the UTF-8 encoding of the text. */
    method WriteText(text: string, arcname: StrPath)
      modifies this
      ensures calls == old(calls) + [TarAddFile(TarHeader(GetMemberName(arcname), |Utf8(text)|), Utf8(text))]
    {
      WriteBytes(Utf8(text), arcname);
    }

    /** The loop of `writeall`: each match that is a regular file is added, in turn, under its
        path relative to `root`; the others are skipped. */
    method AddMatches(matches: seq<Path>, root: Path, fs: FileSystem)
      requires forall x :: x in matches ==> IsRelativeTo(x, root)
      modifies this
      ensures calls == old(calls) + AddCalls(RegularFiles(matches, fs), root)
    {
      var i := 0;
      while i < |matches|
        invariant 0 <= i <= |matches|
        invariant calls == old(calls) + AddedCalls(matches, i, root, fs)
      {
        var file := matches[i];
        if IsFile(fs, file) {
          var w := Write(file, Some(ByPath(RelativeTo(file, root))), fs);
        }
        i := i + 1;
      }
      AddedCallsFiltered(matches, i, root, fs);
      assert matches[..i] == matches;
    }

    /** `writeall`, with `matches` the paths the glob yields below `dir`, in glob order. */
    method WriteAll(dir: Path, root: Option<Path>, matches: seq<Path>, fs: FileSystem) returns (r: Outcome)
      requires BelowDir(matches, dir)
      modifies this
      ensures r == WriteAllEffect(fs, dir, root, matches).result
      ensures calls == old(calls) + WriteAllEffect(fs, dir, root, matches).issued
    {
      if !IsDir(fs, dir) {
        return Fail(ValueError);
      }
      var rt := if root.None? then Parent(dir) else root.value;
      if !IsRelativeTo(dir, rt) {
        return Fail(ValueError);
      }
      MatchesBelowRoot(matches, dir, rt);
      AddMatches(matches, rt, fs);
      return Pass;
    }

    /** `close()` and leaving the context manager both close the TarFile. */
    method Close()
      modifies this
      ensures calls == old(calls) + [CloseHandle]
    {
      calls := calls + [CloseHandle];
    }

    function Repr(): (s: string)
    {
      AdapterRepr(ClassName(Tar), file, mode, password)
    }
  }
}
