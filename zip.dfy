/** `ZipFileAdapter`: the adapter over zipfile.ZipFile. */
module Zip {
  import opened Results
  import opened Strings
  import opened Paths
  import opened Enums
  import opened Models
  import opened Utils
  import opened Native
  import opened Base

  /** The mode the adapter keeps and opens with: the first character of the requested mode
      (`mode[0]`, an IndexError on the empty string), which `ZipFile` then refuses with
      ValueError unless it is one of "r", "w", "x" and "a"; opening the file raises
      FileNotFoundError for "r" on a missing file and FileExistsError for "x" on an
      existing one. */
  function OpenMode(mode: string, fileExists: bool): (r: Result<string>)
    ensures mode == "" ==> r == Err(IndexError)
    ensures mode != "" && mode[0] !in "rwxa" ==> r == Err(ValueError)
    ensures mode != "" && mode[0] == 'r' && !fileExists ==> r == Err(FileNotFoundError)
    ensures mode != "" && mode[0] == 'x' && fileExists ==> r == Err(FileExistsError)
    ensures r.Ok? <==>
      mode != "" && (mode[0] in "wa" || (mode[0] == 'r' && fileExists) || (mode[0] == 'x' && !fileExists))
    ensures r.Ok? ==> |r.value| == 1 && StartsWith(mode, r.value)
  {
    if mode == "" then Err(IndexError)
    else if mode[0] !in "rwxa" then Err(ValueError)
    else if mode[0] == 'r' && !fileExists then Err(FileNotFoundError)
    else if mode[0] == 'x' && fileExists then Err(FileExistsError)
    else Ok(mode[..1])
  }

  /** The password zipfile receives: the UTF-8 encoding of a truthy password, else None. */
  function NativePassword(password: Option<string>): (r: Option<seq<byte>>)
    ensures r.None? <==> !Truthy(password)
    ensures r.Some? ==> r.value == Utf8(password.value) && |r.value| >= |password.value| > 0
  {
    if Truthy(password) then
      Utf8Length(password.value);
      Some(Utf8(password.value))
    else None
  }

  /** ZipInfo -> ArchiveMember: filename, file_size, compress_size and CRC are copied, and
      a member is a file exactly when it is not a directory. */
  function ToMember(e: Entry): (m: ArchiveMember)
    ensures m.name == e.filename && m.size == e.size && m.compressedSize == e.compressed
    ensures m.checksum == e.crc
    ensures m.isDir == e.isDir && m.isFile != m.isDir
  {
    ArchiveMember(e.filename, e.size, e.compressed, e.crc, e.isDir, !e.isDir)
  }

  /** `get_member`: zipfile's `getinfo` (the last entry of that name), or KeyError. */
  function MemberByName(entries: seq<Entry>, name: string): (r: Result<ArchiveMember>)
    ensures r.Err? <==> name !in Names(entries)
    ensures r.Err? ==> r.error == KeyError(name)
    ensures r.Ok? ==> r.value.name == name
    ensures r.Ok? ==> r.value == Members(entries)[LastMatch(entries, name).value]
  {
    match LastMatch(entries, name)
    case None => Err(KeyError(name))
    case Some(i) => Ok(ToMember(entries[i]))
  }

  /** `get_members`: one member per ZipInfo of the listing, in listing order. */
  function Members(entries: seq<Entry>): (r: seq<ArchiveMember>)
    ensures |r| == |entries|
    ensures forall i :: 0 <= i < |entries| ==> r[i] == ToMember(entries[i])
  {
    seq(|entries|, i requires 0 <= i < |entries| => ToMember(entries[i]))
  }

  /** `get_names()` lists the names of `get_members()`, in the same order; every member is
      exactly one of file and directory. */
  lemma NamesAreMemberNames(entries: seq<Entry>)
    ensures |Names(entries)| == |Members(entries)|
    ensures forall i :: 0 <= i < |entries| ==> Names(entries)[i] == Members(entries)[i].name
    ensures forall i :: 0 <= i < |entries| ==> Members(entries)[i].isFile != Members(entries)[i].isDir
  {
  }

  /** `read_bytes`: zipfile's `read` of the entry, or KeyError. */
  function ReadEntry(entries: seq<Entry>, name: string): (r: Result<seq<byte>>)
    ensures r.Err? <==> name !in Names(entries)
    ensures r.Err? ==> r.error == KeyError(name)
    ensures r.Ok? ==> r.value == entries[LastMatch(entries, name).value].data
  {
    match LastMatch(entries, name)
    case None => Err(KeyError(name))
    case Some(i) => Ok(entries[i].data)
  }

  /** `extract`: zipfile is asked to extract the member by name and raises KeyError when it is
      not listed; otherwise the result is `destination / name`. */
  function ExtractEffect(entries: seq<Entry>, pwd: Option<seq<byte>>, dest: Path, member: MemberRef): (e: Effect<Result<Path>>)
    ensures e.issued == [ZipExtract(GetMemberName(member), dest, pwd)]
    ensures e.result.Ok? <==> GetMemberName(member) in Names(entries)
    ensures e.result.Ok? ==> e.result.value == Div(dest, GetMemberName(member))
    ensures e.result.Err? ==> e.result.error == KeyError(GetMemberName(member))
  {
    var name := GetMemberName(member);
    Effect(if name in Names(entries) then Ok(Div(dest, name)) else Err(KeyError(name)), [ZipExtract(name, dest, pwd)])
  }

  /** write's level fixup: BZIP2 rejects level 0, so a requested BZIP2 level of 0 becomes 1;
      every other pair passes through unchanged. */
  function EffectiveLevel(ctype: Option<CompressionType>, level: Option<int>): (r: Option<int>)
    ensures ctype == Some(Bzip2) && level == Some(0) ==> r == Some(1)
    ensures !(ctype == Some(Bzip2) && level == Some(0)) ==> r == level
  {
    if ctype == Some(Bzip2) && level == Some(0) then Some(1) else level
  }

  /** BZIP2 is never asked for level 0, and the fixup is idempotent. */
  lemma EffectiveLevelSound(ctype: Option<CompressionType>, level: Option<int>)
    ensures ctype == Some(Bzip2) ==> EffectiveLevel(ctype, level) != Some(0)
    ensures EffectiveLevel(ctype, EffectiveLevel(ctype, level)) == EffectiveLevel(ctype, level)
    ensures level.Some? && 0 <= level.value <= 9 ==> EffectiveLevel(ctype, level).value == ClampCompressionLevel(EffectiveLevel(ctype, level).value)
  {
  }

  /** `write`: the source must be a regular file (else ValueError, nothing written); the
      archive name defaults to its basename; BZIP2 at level 0 is written at level 1. */
  function WriteEffect(fs: FileSystem, source: Path, arcname: Option<StrPath>,
                       ctype: Option<CompressionType>, level: Option<int>): (e: Effect<Outcome>)
    ensures e.result.Pass? <==> IsFile(fs, source)
    ensures e.result.Fail? ==> e.result.error == ValueError && e.issued == []
    ensures e.result.Pass? ==> |e.issued| == 1 && e.issued[0].ZipWrite? && e.issued[0].source == source
    ensures e.result.Pass? ==> e.issued[0].arcname == DefaultArcname(source, arcname)
    ensures e.result.Pass? ==> e.issued[0].compressType == ctype && e.issued[0].compressLevel == EffectiveLevel(ctype, level)
  {
    if !IsFile(fs, source) then Effect(Fail(ValueError), [])
    else Effect(Pass, [ZipWrite(source, DefaultArcname(source, arcname), ctype, EffectiveLevel(ctype, level))])
  }

  /** `extractall`'s names: None when `members` is None or empty, else the requested names. */
  function RequestedNames(members: Option<seq<MemberRef>>): (r: Option<seq<string>>)
    ensures r.None? <==> (members.None? || members.value == [])
    ensures r.Some? ==> r.value == MemberNames(members.value) && r.value != []
  {
    if members.None? || members.value == [] then None else Some(MemberNames(members.value))
  }

  /** `extractall`: the names are handed to zipfile without checking them first; zipfile looks
      them up in order and raises KeyError at the first one that is missing. */
  function ExtractAllEffect(entries: seq<Entry>, pwd: Option<seq<byte>>, dest: Path, members: Option<seq<MemberRef>>): (e: Effect<Result<Path>>)
    ensures e.issued == [ZipExtractAll(dest, RequestedNames(members), pwd)]
    ensures RequestedNames(members).None? ==> e.result == Ok(dest)
    ensures RequestedNames(members).Some? ==>
      var v := ValidateNames(RequestedNames(members).value, Names(entries));
      e.result == if v.Ok? then Ok(dest) else Err(v.error)
  {
    var names := RequestedNames(members);
    var call := ZipExtractAll(dest, names, pwd);
    if names.None? then Effect(Ok(dest), [call])
    else
      match ValidateNames(names.value, Names(entries))
      case Ok(_) => Effect(Ok(dest), [call])
      case Err(err) => Effect(Err(err), [call])
  }

  /** The ZipFile.write calls `writeall` issues for the given files, relative to `root`. */
  function WriteCalls(files: seq<Path>, root: Path, ctype: Option<CompressionType>, level: Option<int>): (r: seq<NativeCall>)
    requires forall x :: x in files ==> IsRelativeTo(x, root)
    ensures |r| == |files|
    ensures forall i :: 0 <= i < |files| ==>
      r[i] == ZipWrite(files[i], ByPath(RelativeTo(files[i], root)), ctype, EffectiveLevel(ctype, level))
  {
    seq(|files|, i requires 0 <= i < |files| =>
      ZipWrite(files[i], ByPath(RelativeTo(files[i], root)), ctype, EffectiveLevel(ctype, level)))
  }

  /** `writeall`: after the directory and root checks, every glob match goes to `write` with
      its path relative to the root as archive name; the first match that is not a regular
      file (a sub-directory, say) stops the walk with write's ValueError. */
  function WriteAllEffect(fs: FileSystem, dir: Path, root: Option<Path>, matches: seq<Path>,
                          ctype: Option<CompressionType>, level: Option<int>): (e: Effect<Outcome>)
    requires BelowDir(matches, dir)
    ensures WriteAllRoot(fs, dir, root).Err? ==> e == Effect(Fail(ValueError), [])
    ensures WriteAllRoot(fs, dir, root).Ok? ==>
      (e.result.Pass? <==> forall x :: x in matches ==> IsFile(fs, x))
    ensures e.result.Fail? ==> e.result.error == ValueError
    ensures |e.issued| <= |matches|
    ensures WriteAllRoot(fs, dir, root).Ok? ==> |e.issued| == FirstNonFile(matches, fs)
  {
    match WriteAllRoot(fs, dir, root)
    case Err(err) => Effect(Fail(err), [])
    case Ok(rt) =>
      MatchesBelowRoot(matches, dir, rt);
      var k := FirstNonFile(matches, fs);
      assert forall x :: x in matches[..k] ==> x in matches;
      Effect(if k < |matches| then Fail(ValueError) else Pass, WriteCalls(matches[..k], rt, ctype, level))
  }

  /** The i-th write of `writeall` is of the i-th match, a regular file, at the fixed-up level,
      under its path relative to the root. */
  lemma WriteAllCalls(fs: FileSystem, dir: Path, root: Option<Path>, matches: seq<Path>,
                      ctype: Option<CompressionType>, level: Option<int>)
    requires BelowDir(matches, dir)
    ensures var e := WriteAllEffect(fs, dir, root, matches, ctype, level);
      forall i :: 0 <= i < |e.issued| ==>
        e.issued[i].ZipWrite? && e.issued[i].source == matches[i] && IsFile(fs, matches[i])
        && e.issued[i].compressLevel == EffectiveLevel(ctype, level)
    ensures var e := WriteAllEffect(fs, dir, root, matches, ctype, level);
      forall i :: 0 <= i < |e.issued| ==>
        var rt := WriteAllRoot(fs, dir, root).value;
        e.issued[i].arcname.ByPath? && Path(rt.anchor, rt.parts + e.issued[i].arcname.path.parts) == matches[i]
  {
    if WriteAllRoot(fs, dir, root).Ok? {
      MatchesBelowRoot(matches, dir, WriteAllRoot(fs, dir, root).value);
    }
  }

  class ZipFileAdapter {
    /** The resolved archive path. */
    const file: Path
    /** The stored mode: one character. */
    const mode: string
    const password: Option<string>
    /** The password handed to zipfile. */
    const pwd: Option<seq<byte>>
    /** The listing of the ZipFile this adapter holds. */
    const entries: seq<Entry>
    /** The calls issued to the ZipFile, in order. */
    var calls: seq<NativeCall>

    constructor (file: Path, mode: string, password: Option<string>, entries: seq<Entry>)
      ensures this.file == file && this.mode == mode && this.password == password
      ensures this.pwd == NativePassword(password) && this.entries == entries && calls == []
    {
      this.file := file;
      this.mode := mode;
      this.password := password;
      this.pwd := NativePassword(password);
      this.entries := entries;
      calls := [];
    }

    /** `ZipFileAdapter(file, mode, password=...)`, with `fileExists` whether the file is
        there and `entries` the listing zipfile reads. */
    static method Open(file: Path, mode: string, password: Option<string>, fileExists: bool, entries: seq<Entry>)
      returns (r: Result<ZipFileAdapter>)
      ensures OpenMode(mode, fileExists).Err? ==> r == Err(OpenMode(mode, fileExists).error)
      ensures OpenMode(mode, fileExists).Ok? ==> r.Ok? && fresh(r.value)
      ensures OpenMode(mode, fileExists).Ok? ==>
        r.value.file == file && r.value.mode == OpenMode(mode, fileExists).value && r.value.password == password
        && r.value.pwd == NativePassword(password) && r.value.entries == entries && r.value.calls == []
    {
      if |mode| == 0 {
        return Err(IndexError);
      }
      var m := mode[..1];
      if mode[0] !in "rwxa" {
        return Err(ValueError);
      }
      if m == "r" && !fileExists {
        return Err(FileNotFoundError);
      }
      if m == "x" && fileExists {
        return Err(FileExistsError);
      }
      var a := new ZipFileAdapter(file, m, password, entries);
      return Ok(a);
    }

    function GetMember(member: StrPath): (r: Result<ArchiveMember>)
    {
      MemberByName(entries, GetMemberName(member))
    }

    function GetMembers(): (r: seq<ArchiveMember>)
    {
      Members(entries)
    }

    function GetNames(): (r: seq<string>)
    {
      Names(entries)
    }

    function ReadBytes(member: MemberRef): (r: Result<seq<byte>>)
    {
      ReadEntry(entries, GetMemberName(member))
    }

    method Extract(member: MemberRef, dest: Path) returns (r: Result<Path>)
      modifies this
      ensures r == ExtractEffect(entries, pwd, dest, member).result
      ensures calls == old(calls) + ExtractEffect(entries, pwd, dest, member).issued
    {
      var name := GetMemberName(member);
      calls := calls + [ZipExtract(name, dest, pwd)];
      if name !in Names(entries) {
        return Err(KeyError(name));
      }
      return Ok(Div(dest, name));
    }

    method ExtractAll(dest: Path, members: Option<seq<MemberRef>>) returns (r: Result<Path>)
      modifies this
      ensures r == ExtractAllEffect(entries, pwd, dest, members).result
      ensures calls == old(calls) + ExtractAllEffect(entries, pwd, dest, members).issued
    {
      var names: seq<string> := [];
      if members.Some? && members.value != [] {
        var ms := members.value;
        var i := 0;
        while i < |ms|
          invariant 0 <= i <= |ms|
          invariant names == MemberNames(ms[..i])
        {
          names := names + [GetMemberName(ms[i])];
          i := i + 1;
        }
        assert ms[..i] == ms;
      }
      if names != [] {
        calls := calls + [ZipExtractAll(dest, Some(names), pwd)];
        var v := ValidateNames(names, Names(entries));
        if v.Err? {
          return Err(v.error);
        }
      } else {
        calls := calls + [ZipExtractAll(dest, None, pwd)];
      }
      return Ok(dest);
    }

    method Write(source: Path, arcname: Option<StrPath>, ctype: Option<CompressionType>,
                 level: Option<int>, fs: FileSystem) returns (r: Outcome)
      modifies this
      ensures r == WriteEffect(fs, source, arcname, ctype, level).result
      ensures calls == old(calls) + WriteEffect(fs, source, arcname, ctype, level).issued
    {
      var name := if arcname.None? then ByName(Name(source)) else arcname.value;
      if !IsFile(fs, source) {
        return Fail(ValueError);
      }
      var compressLevel := level;
      if ctype == Some(Bzip2) {
        if level == Some(0) {
          compressLevel := Some(1);
        }
      }
      calls := calls + [ZipWrite(source, name, ctype, compressLevel)];
      return Pass;
    }

    /** `write_text`: ZipFile.writestr under `get_member_name(arcname)`, type and level as given. */
    method WriteText(data: string, arcname: StrPath, ctype: Option<CompressionType>, level: Option<int>)
      modifies this
      ensures calls == old(calls) + [ZipWriteStr(GetMemberName(arcname), Text(data), ctype, level)]
    {
      calls := calls + [ZipWriteStr(GetMemberName(arcname), Text(data), ctype, level)];
    }

    /** `write_bytes`: ZipFile.writestr under `get_member_name(arcname)`, type and level as given. */
    method WriteBytes(data: seq<byte>, arcname: StrPath, ctype: Option<CompressionType>, level: Option<int>)
      modifies this
      ensures calls == old(calls) + [ZipWriteStr(GetMemberName(arcname), Bytes(data), ctype, level)]
    {
      calls := calls + [ZipWriteStr(GetMemberName(arcname), Bytes(data), ctype, level)];
    }

    /** The loop of `writeall`: each match in turn goes to `write` under its path relative to
        `root`, until the first one that is not a regular file. */
    method WriteMatches(matches: seq<Path>, root: Path, ctype: Option<CompressionType>,
                        level: Option<int>, fs: FileSystem) returns (r: Outcome)
      requires forall x :: x in matches ==> IsRelativeTo(x, root)
      modifies this
      ensures var k := FirstNonFile(matches, fs);
        r == (if k < |matches| then Fail(ValueError) else Pass)
        && calls == old(calls) + WriteCalls(matches[..k], root, ctype, level)
    {
      var i := 0;
      while i < |matches|
        invariant 0 <= i <= |matches|
        invariant forall j :: 0 <= j < i ==> IsFile(fs, matches[j])
        invariant forall x :: x in matches[..i] ==> x in matches
        invariant calls == old(calls) + WriteCalls(matches[..i], root, ctype, level)
      {
        var file := matches[i];
        var w := Write(file, Some(ByPath(RelativeTo(file, root))), ctype, level, fs);
        if w.Fail? {
          assert FirstNonFile(matches, fs) == i;
          return w;
        }
        assert matches[..i + 1] == matches[..i] + [file];
        i := i + 1;
      }
      assert matches[..i] == matches;
      return Pass;
    }

    /** `writeall`, with `matches` the paths the glob yields below `dir`, in glob order. */
    method WriteAll(dir: Path, root: Option<Path>, matches: seq<Path>, ctype: Option<CompressionType>,
                    level: Option<int>, fs: FileSystem) returns (r: Outcome)
      requires BelowDir(matches, dir)
      modifies this
      ensures r == WriteAllEffect(fs, dir, root, matches, ctype, level).result
      ensures calls == old(calls) + WriteAllEffect(fs, dir, root, matches, ctype, level).issued
    {
      if !IsDir(fs, dir) {
        return Fail(ValueError);
      }
      var rt := if root.None? then Parent(dir) else root.value;
      if !IsRelativeTo(dir, rt) {
        return Fail(ValueError);
      }
      MatchesBelowRoot(matches, dir, rt);
      r := WriteMatches(matches, rt, ctype, level, fs);
    }

    /** `close()` and leaving the context manager both close the ZipFile. */
    method Close()
      modifies this
      ensures calls == old(calls) + [CloseHandle]
    {
      calls := calls + [CloseHandle];
    }

    function Repr(): (s: string)
    {
      AdapterRepr(ClassName(Zip), file, mode, password)
    }
  }
}
