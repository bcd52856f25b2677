/** `SevenZipFileAdapter`: the adapter over py7zr.SevenZipFile. */
module SevenZip {
  import opened Results
  import opened Strings
  import opened Paths
  import opened Enums
  import opened Models
  import opened Utils
  import opened Native
  import opened Base

  /** The mode the adapter opens with: the first character of the requested mode, where
      `x` fails on an existing file and otherwise becomes `w`, and `a` on a missing file
      becomes `w`. `SevenZipFile` then refuses any other mode than "r", "w" and "a" with
      ValueError, and "r" on a missing file with FileNotFoundError. */
  function OpenMode(mode: string, fileExists: bool): (r: Result<string>)
    ensures r.Ok? <==>
      mode != "" && (mode[0] in "wa" || (mode[0] == 'r' && fileExists) || (mode[0] == 'x' && !fileExists))
    ensures mode == "" ==> r == Err(IndexError)
    ensures mode != "" && mode[0] == 'x' && fileExists ==> r == Err(FileExistsError)
    ensures mode != "" && mode[0] !in "rwxa" ==> r == Err(ValueError)
    ensures mode != "" && mode[0] == 'r' && !fileExists ==> r == Err(FileNotFoundError)
    ensures r.Ok? ==> r.value in ["r", "w", "a"]
    ensures r.Ok? && mode[0] in {'x', 'a'} && !fileExists ==> r.value == "w"
    ensures r.Ok? && !(mode[0] in {'x', 'a'} && !fileExists) ==> StartsWith(mode, r.value)
  {
    if mode == "" then Err(IndexError)
    else if mode[0] == 'x' then (if fileExists then Err(FileExistsError) else Ok("w"))
    else if mode[0] == 'a' && !fileExists then Ok("w")
    else if mode[0] !in "rwa" then Err(ValueError)
    else if mode[0] == 'r' && !fileExists then Err(FileNotFoundError)
    else
      assert mode[..1] == [mode[0]];
      Ok(mode[..1])
  }

  /** The name 7z matching uses: `get_member_name(member)` without one trailing "/". */
  function TargetName(member: MemberRef): (r: string)
    ensures EndsWith(GetMemberName(member), "/") ==> r + "/" == GetMemberName(member)
    ensures !EndsWith(GetMemberName(member), "/") ==> r == GetMemberName(member)
  {
    RemoveSuffix(GetMemberName(member), "/")
  }

  /** Exactly one "/" is removed: a name ending in "//" still ends in "/" afterwards. */
  lemma TargetNameStripsOne(member: MemberRef)
    requires EndsWith(GetMemberName(member), "//")
    ensures EndsWith(TargetName(member), "/")
  {
    var n := GetMemberName(member);
    SuffixesNest(n, "/", "//");
    assert TargetName(member) + "/" == n;
    assert TargetName(member)[|TargetName(member)| - 1] == n[|n| - 2];
  }

  function TargetNames(members: seq<MemberRef>): (r: seq<string>)
    ensures |r| == |members|
    ensures forall i :: 0 <= i < |members| ==> r[i] == TargetName(members[i])
  {
    seq(|members|, i requires 0 <= i < |members| => TargetName(members[i]))
  }

  /** FileInfo -> ArchiveMember: a compressed size of 0 is replaced by the uncompressed
      size, and a member is a file exactly when it is not a directory. */
  function ToMember(e: Entry): (m: ArchiveMember)
    ensures m.name == e.filename && m.size == e.size && m.checksum == e.crc
    ensures e.compressed != 0 ==> m.compressedSize == e.compressed
    ensures e.compressed == 0 ==> m.compressedSize == e.size
    ensures m.compressedSize == 0 ==> m.size == 0
    ensures m.isDir == e.isDir && m.isFile != m.isDir
  {
    ArchiveMember(e.filename, e.size, if e.compressed != 0 then e.compressed else e.size, e.crc, e.isDir, !e.isDir)
  }

  /** `get_member`: the first FileInfo of the listing with that filename, or KeyError. */
  function MemberByName(entries: seq<Entry>, name: string): (r: Result<ArchiveMember>)
    ensures r.Err? <==> name !in Names(entries)
    ensures r.Err? ==> r.error == KeyError(name)
    ensures r.Ok? ==> r.value.name == name && r.value == Members(entries)[FirstMatch(entries, name).value]
  {
    match FirstMatch(entries, name)
    case None => Err(KeyError(name))
    case Some(i) => Ok(ToMember(entries[i]))
  }

  /** `get_members`: one member per FileInfo, in listing order. */
  function Members(entries: seq<Entry>): (r: seq<ArchiveMember>)
    ensures |r| == |entries|
    ensures forall i :: 0 <= i < |entries| ==> r[i] == ToMember(entries[i])
  {
    seq(|entries|, i requires 0 <= i < |entries| => ToMember(entries[i]))
  }

  /** `get_names()` lists the names of `get_members()` in the same order; a looked-up member
      is the first one `get_members()` lists under that name. */
  lemma NamesAreMemberNames(entries: seq<Entry>, name: string)
    ensures |Names(entries)| == |Members(entries)|
    ensures forall i :: 0 <= i < |entries| ==> Names(entries)[i] == Members(entries)[i].name
    ensures name in Names(entries) ==> MemberByName(entries, name) == Ok(Members(entries)[FirstMatch(entries, name).value])
  {
  }

  /** A member name with one trailing "/" finds the same member as the name without it. */
  lemma TrailingSlashIgnored(entries: seq<Entry>, s: string)
    requires !EndsWith(s, "/")
    ensures TargetName(ByName(s + "/")) == TargetName(ByName(s))
  {
    assert EndsWith(s + "/", "/");
    assert (s + "/")[..|s|] == s;
  }

  /** `extract`: a name that is not listed raises KeyError before py7zr is called; otherwise
      py7zr extracts that one target and is reset, and the result is `destination / name`. */
  function ExtractEffect(entries: seq<Entry>, dest: Path, member: MemberRef): (e: Effect<Result<Path>>)
    ensures TargetName(member) !in Names(entries) ==> e == Effect(Err(KeyError(TargetName(member))), [])
    ensures TargetName(member) in Names(entries) ==>
      e == Effect(Ok(Div(dest, TargetName(member))), [SevenZipExtract(dest, {TargetName(member)}), SevenZipReset])
  {
    var name := TargetName(member);
    if name in Names(entries) then Effect(Ok(Div(dest, name)), [SevenZipExtract(dest, {name}), SevenZipReset])
    else Effect(Err(KeyError(name)), [])
  }

  /** `extractall`: with members, every name is checked against the listing first and the
      first missing one raises KeyError before py7zr is called; the checked names are
      extracted as one target set. Without (or with no) members, everything is extracted. */
  function ExtractAllEffect(entries: seq<Entry>, dest: Path, members: Option<seq<MemberRef>>): (e: Effect<Result<Path>>)
    ensures members.None? || members.value == [] ==>
      e == Effect(Ok(dest), [SevenZipExtractAll(dest), SevenZipReset])
    ensures members.Some? && members.value != [] ==>
      var names := TargetNames(members.value);
      (e.result.Ok? <==> forall i :: 0 <= i < |names| ==> names[i] in Names(entries))
      && (e.result.Err? ==> e.result.error == ValidateNames(names, Names(entries)).error && e.issued == [])
      && (e.result.Ok? ==> e == Effect(Ok(dest), [SevenZipExtract(dest, set i | 0 <= i < |names| :: names[i]), SevenZipReset]))
  {
    if members.None? || members.value == [] then Effect(Ok(dest), [SevenZipExtractAll(dest), SevenZipReset])
    else
      ValidateNamesSound(TargetNames(members.value), Names(entries));
      match ValidateNames(TargetNames(members.value), Names(entries))
      case Err(err) => Effect(Err(err), [])
      case Ok(targets) => Effect(Ok(dest), [SevenZipExtract(dest, targets), SevenZipReset])
  }

  /** A validated request of at least one member yields a non-empty target set, so the
      adapter never falls back to extracting everything once members were given. */
  lemma CheckedTargetsNonEmpty(ms: seq<MemberRef>, all: seq<string>)
    requires ms != [] && ValidateNames(TargetNames(ms), all).Ok?
    ensures TargetName(ms[0]) in ValidateNames(TargetNames(ms), all).value
  {
    assert TargetNames(ms)[0] == TargetName(ms[0]);
  }

  /** `read_bytes`: a name that is not listed raises KeyError before py7zr is called;
      otherwise py7zr reads that target and is reset, and a directory (which py7zr returns
      no file object for) reads as b"". */
  function ReadEffect(entries: seq<Entry>, member: MemberRef): (e: Effect<Result<seq<byte>>>)
    ensures TargetName(member) !in Names(entries) ==> e == Effect(Err(KeyError(TargetName(member))), [])
    ensures TargetName(member) in Names(entries) ==>
      e.issued == [SevenZipRead({TargetName(member)}), SevenZipReset] && e.result.Ok?
    ensures TargetName(member) in Names(entries) ==>
      var entry := entries[LastMatch(entries, TargetName(member)).value];
      e.result.value == if entry.isDir then [] else entry.data
  {
    var name := TargetName(member);
    match LastMatch(entries, name)
    case None => Effect(Err(KeyError(name)), [])
    case Some(k) =>
      Effect(Ok(if entries[k].isDir then [] else entries[k].data), [SevenZipRead({name}), SevenZipReset])
  }

  /** `write`: the source must be a regular file (else ValueError, nothing written); the
      archive name is the one given, written as `get_member_name` writes it, or the source's
      basename. */
  function WriteEffect(fs: FileSystem, source: Path, arcname: Option<StrPath>): (e: Effect<Outcome>)
    ensures e.result.Pass? <==> IsFile(fs, source)
    ensures e.result.Fail? ==> e.result.error == ValueError && e.issued == []
    ensures e.result.Pass? ==> e.issued == [SevenZipWrite(source, GetMemberName(DefaultArcname(source, arcname)))]
  {
    if !IsFile(fs, source) then Effect(Fail(ValueError), [])
    else Effect(Pass, [SevenZipWrite(source, GetMemberName(DefaultArcname(source, arcname)))])
  }

  /** The SevenZipFile.write calls `writeall` issues for the given files, relative to `root`. */
  function WriteCalls(files: seq<Path>, root: Path): (r: seq<NativeCall>)
    requires forall x :: x in files ==> IsRelativeTo(x, root)
    ensures |r| == |files|
    ensures forall i :: 0 <= i < |files| ==>
      r[i] == SevenZipWrite(files[i], GetMemberName(ByPath(RelativeTo(files[i], root))))
  {
    seq(|files|, i requires 0 <= i < |files| =>
      SevenZipWrite(files[i], GetMemberName(ByPath(RelativeTo(files[i], root)))))
  }

  /** `writeall`: after the directory and root checks, every glob match goes to `write` with
      its path relative to the root, written with "/" separators, as archive name; the first
      match that is not a regular file stops the walk with write's ValueError. */
  function WriteAllEffect(fs: FileSystem, dir: Path, root: Option<Path>, matches: seq<Path>): (e: Effect<Outcome>)
    requires BelowDir(matches, dir)
    ensures WriteAllRoot(fs, dir, root).Err? ==> e == Effect(Fail(ValueError), [])
    ensures WriteAllRoot(fs, dir, root).Ok? ==>
      (e.result.Pass? <==> forall x :: x in matches ==> IsFile(fs, x))
    ensures e.result.Fail? ==> e.result.error == ValueError
    ensures |e.issued| <= |matches|
    ensures WriteAllRoot(fs, dir, root).Ok? ==> |e.issued| == FirstNonFile(matches, fs)
  {
    match WriteAllRoot(fs, dir, root)
    case Err(err) => Effect(Fail(err), [])
    case Ok(rt) =>
      MatchesBelowRoot(matches, dir, rt);
      var k := FirstNonFile(matches, fs);
      assert forall x :: x in matches[..k] ==> x in matches;
      Effect(if k < |matches| then Fail(ValueError) else Pass, WriteCalls(matches[..k], rt))
  }

  /** The i-th write of `writeall` is of the i-th match, a regular file, under its path
      relative to the root written with "/". */
  lemma WriteAllCalls(fs: FileSystem, dir: Path, root: Option<Path>, matches: seq<Path>)
    requires BelowDir(matches, dir)
    ensures var e := WriteAllEffect(fs, dir, root, matches);
      forall i :: 0 <= i < |e.issued| ==>
        e.issued[i].SevenZipWrite? && e.issued[i].source == matches[i] && IsFile(fs, matches[i])
    ensures var e := WriteAllEffect(fs, dir, root, matches);
      forall i :: 0 <= i < |e.issued| ==>
        var rt := WriteAllRoot(fs, dir, root).value;
        IsRelativeTo(matches[i], rt) && e.issued[i].arcnameStr == Join(RelativeTo(matches[i], rt).parts)
  {
    if WriteAllRoot(fs, dir, root).Ok? {
      MatchesBelowRoot(matches, dir, WriteAllRoot(fs, dir, root).value);
    }
  }

  class SevenZipFileAdapter {
    /** The resolved archive path. */
    const file: Path
    /** The mode py7zr was opened with: `r`, `w` or `a`-style single character, never `x`. */
    const mode: string
    const password: Option<string>
    /** The listing of the SevenZipFile this adapter holds. */
    const entries: seq<Entry>
    /** The calls issued to the SevenZipFile, in order. */
    var calls: seq<NativeCall>

    constructor (file: Path, mode: string, password: Option<string>, entries: seq<Entry>)
      ensures this.file == file && this.mode == mode && this.password == password
      ensures this.entries == entries && calls == []
    {
      this.file := file;
      this.mode := mode;
      this.password := password;
      this.entries := entries;
      calls := [];
    }

    /** `SevenZipFileAdapter(file, mode, password=...)`: the mode is rewritten step by step
        before py7zr is opened; `entries` is the listing py7zr reads. */
    static method Open(file: Path, mode: string, password: Option<string>, fileExists: bool, entries: seq<Entry>)
      returns (r: Result<SevenZipFileAdapter>)
      ensures OpenMode(mode, fileExists).Err? ==> r == Err(OpenMode(mode, fileExists).error)
      ensures OpenMode(mode, fileExists).Ok? ==> r.Ok? && fresh(r.value)
      ensures OpenMode(mode, fileExists).Ok? ==>
        r.value.file == file && r.value.mode == OpenMode(mode, fileExists).value
        && r.value.password == password && r.value.entries == entries && r.value.calls == []
    {
      if |mode| == 0 {
        return Err(IndexError);
      }
      var m := mode[..1];
      assert m == [mode[0]];
      if m == "x" {
        if fileExists {
          return Err(FileExistsError);
        } else {
          m := "w";
        }
      }
      if m == "a" && !fileExists {
        m := "w";
      }
      if m[0] !in "rwa" {
        return Err(ValueError);
      }
      if m == "r" && !fileExists {
        return Err(FileNotFoundError);
      }
      var a := new SevenZipFileAdapter(file, m, password, entries);
      return Ok(a);
    }

    /** The `compression_type` and `compression_level` properties: always None. */
    function Compression(): (r: (Option<CompressionType>, Option<int>))
      ensures r.0.None? && r.1.None?
    {
      (None, None)
    }

    function GetMember(member: MemberRef): (r: Result<ArchiveMember>)
    {
      MemberByName(entries, TargetName(member))
    }

    function GetMembers(): (r: seq<ArchiveMember>)
    {
      Members(entries)
    }

    function GetNames(): (r: seq<string>)
    {
      Names(entries)
    }

    method Extract(member: MemberRef, dest: Path) returns (r: Result<Path>)
      modifies this
      ensures r == ExtractEffect(entries, dest, member).result
      ensures calls == old(calls) + ExtractEffect(entries, dest, member).issued
    {
      var name := RemoveSuffix(GetMemberName(member), "/");
      if name in GetNames() {
        calls := calls + [SevenZipExtract(dest, {name})];
      } else {
        return Err(KeyError(name));
      }
      calls := calls + [SevenZipReset];
      return Ok(Div(dest, name));
    }

    /** The validating loop of `extractall`: each requested name, without one trailing "/",
        must be listed; the first that is not raises KeyError; otherwise the set of names. */
    method CheckTargets(ms: seq<MemberRef>) returns (r: Result<set<string>>)
      ensures r == ValidateNames(TargetNames(ms), Names(entries))
    {
      var names: set<string> := {};
      var all := Names(entries);
      ghost var targets := TargetNames(ms);
      var i := 0;
      while i < |ms|
        invariant 0 <= i <= |ms|
        invariant ValidateNames(targets[..i], all) == Ok(names)
      {
        var name := TargetName(ms[i]);
        ValidateNamesStep(targets, i, all, names);
        if name !in all {
          return Err(KeyError(name));
        }
        names := names + {name};
        i := i + 1;
      }
      assert targets[..i] == targets;
      return Ok(names);
    }

    method ExtractAll(dest: Path, members: Option<seq<MemberRef>>) returns (r: Result<Path>)
      modifies this
      ensures r == ExtractAllEffect(entries, dest, members).result
      ensures calls == old(calls) + ExtractAllEffect(entries, dest, members).issued
    {
      var names: set<string> := {};
      if members.Some? && members.value != [] {
        var checked := CheckTargets(members.value);
        if checked.Err? {
          return Err(checked.error);
        }
        names := checked.value;
        CheckedTargetsNonEmpty(members.value, Names(entries));
      }
      if names != {} {
        calls := calls + [SevenZipExtract(dest, names)];
      } else {
        calls := calls + [SevenZipExtractAll(dest)];
      }
      calls := calls + [SevenZipReset];
      return Ok(dest);
    }

    method ReadBytes(member: MemberRef) returns (r: Result<seq<byte>>)
      modifies this
      ensures r == ReadEffect(entries, member).result
      ensures calls == old(calls) + ReadEffect(entries, member).issued
    {
      var name := RemoveSuffix(GetMemberName(member), "/");
      if name !in GetNames() {
        return Err(KeyError(name));
      }
      calls := calls + [SevenZipRead({name})];
      calls := calls + [SevenZipReset];
      var k := LastMatch(entries, name).value;
      if entries[k].isDir {
        return Ok([]);
      }
      return Ok(entries[k].data);
    }

    /** `write`: the archive name is the one given (a Path written with "/" separators and
        without its anchor) or the source's basename; the source must be a regular file. */
    method Write(source: Path, arcname: Option<StrPath>, fs: FileSystem) returns (r: Outcome)
      modifies this
      ensures r == WriteEffect(fs, source, arcname).result
      ensures calls == old(calls) + WriteEffect(fs, source, arcname).issued
    {
      var name: string;
      match arcname {
        case None => name := Name(source);
        case Some(a) =>
          if a.ByPath? {
            name := AsPosix(RelativeTo(a.path, Path(a.path.anchor, [])));
          } else {
            name := a.name;
          }
      }
      if !IsFile(fs, source) {
        return Fail(ValueError);
      }
      calls := calls + [SevenZipWrite(source, name)];
      return Pass;
    }

    /** `write_text`: SevenZipFile.writestr under `get_member_name(arcname)`. */
    method WriteText(data: string, arcname: StrPath)
      modifies this
      ensures calls == old(calls) + [SevenZipWriteStr(Text(data), GetMemberName(arcname))]
    {
      calls := calls + [SevenZipWriteStr(Text(data), GetMemberName(arcname))];
    }

    /** `write_bytes`: SevenZipFile.writestr under `get_member_name(arcname)`. */
    method WriteBytes(data: seq<byte>, arcname: StrPath)
      modifies this
      ensures calls == old(calls) + [SevenZipWriteStr(Bytes(data), GetMemberName(arcname))]
    {
      calls := calls + [SevenZipWriteStr(Bytes(data), GetMemberName(arcname))];
    }

    /** The loop of `writeall`: each match in turn goes to `write` under its path relative to
        `root`, until the first one that is not a regular file. */
    method WriteMatches(matches: seq<Path>, root: Path, fs: FileSystem) returns (r: Outcome)
      requires forall x :: x in matches ==> IsRelativeTo(x, root)
      modifies this
      ensures var k := FirstNonFile(matches, fs);
        r == (if k < |matches| then Fail(ValueError) else Pass)
        && calls == old(calls) + WriteCalls(matches[..k], root)
    {
      var i := 0;
      while i < |matches|
        invariant 0 <= i <= |matches|
        invariant forall j :: 0 <= j < i ==> IsFile(fs, matches[j])
        invariant forall x :: x in matches[..i] ==> x in matches
        invariant calls == old(calls) + WriteCalls(matches[..i], root)
      {
        var file := matches[i];
        var w := Write(file, Some(ByPath(RelativeTo(file, root))), fs);
        assert WriteEffect(fs, file, Some(ByPath(RelativeTo(file, root)))).issued
          == if IsFile(fs, file) then [SevenZipWrite(file, GetMemberName(ByPath(RelativeTo(file, root))))] else [];
        if w.Fail? {
          assert FirstNonFile(matches, fs) == i;
          return w;
        }
        assert matches[..i + 1] == matches[..i] + [file];
        i := i + 1;
      }
      assert matches[..i] == matches;
      return Pass;
    }

    /** `writeall`, with `matches` the paths the glob yields below `dir`, in glob order. */
    method WriteAll(dir: Path, root: Option<Path>, matches: seq<Path>, fs: FileSystem) returns (r: Outcome)
      requires BelowDir(matches, dir)
      modifies this
      ensures r == WriteAllEffect(fs, dir, root, matches).result
      ensures calls == old(calls) + WriteAllEffect(fs, dir, root, matches).issued
    {
      if !IsDir(fs, dir) {
        return Fail(ValueError);
      }
      var rt := if root.None? then Parent(dir) else root.value;
      if !IsRelativeTo(dir, rt) {
        return Fail(ValueError);
      }
      MatchesBelowRoot(matches, dir, rt);
      r := WriteMatches(matches, rt, fs);
    }

    /** `close()` and leaving the context manager both close the SevenZipFile. */
    method Close()
      modifies this
      ensures calls == old(calls) + [CloseHandle]
    {
      calls := calls + [CloseHandle];
    }

    function Repr(): (s: string)
    {
      AdapterRepr(ClassName(SevenZip), file, mode, password)
    }
  }
}
