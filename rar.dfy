/** `RarFileAdapter`: the read-only adapter over rarfile.RarFile. */
module Rar {
  import opened Results
  import opened Strings
  import opened Paths
  import opened Enums
  import opened Models
  import opened Utils
  import opened Native
  import opened Base

  /** The adapter keeps the first character of the requested mode (an IndexError on the empty
      string) and opens only for reading: any other first character is NotImplementedError. */
  function OpenMode(mode: string): (r: Result<string>)
    ensures mode == "" ==> r == Err(IndexError)
    ensures mode != "" && mode[0] != 'r' ==> r == Err(NotImplementedError)
    ensures r.Ok? <==> StartsWith(mode, "r")
    ensures r.Ok? ==> r.value == "r"
  {
    if mode == "" then Err(IndexError)
    else if mode[0] != 'r' then Err(NotImplementedError)
    else Ok("r")
  }

  /** RarInfo -> ArchiveMember: a member is a directory exactly when its filename ends in "/"
      (the library's own directory flag is not consulted), and a file otherwise. */
  function ToMember(e: Entry): (m: ArchiveMember)
    ensures m.name == e.filename && m.size == e.size && m.compressedSize == e.compressed
    ensures m.checksum == e.crc
    ensures m.isDir <==> EndsWith(e.filename, "/")
    ensures m.isFile <==> !m.isDir
  {
    var isDir := EndsWith(e.filename, "/");
    ArchiveMember(e.filename, e.size, e.compressed, e.crc, isDir, !isDir)
  }

  /** The keys of rarfile's index of the listing: every filename without its trailing
      slashes. */
  function InfoKeys(entries: seq<Entry>): (r: seq<string>)
    ensures |r| == |entries|
    ensures forall i :: 0 <= i < |entries| ==> r[i] == RStripSlash(entries[i].filename)
  {
    seq(|entries|, i requires 0 <= i < |entries| => RStripSlash(entries[i].filename))
  }

  lemma InfoKeysSnoc(entries: seq<Entry>)
    requires entries != []
    ensures InfoKeys(entries) == InfoKeys(entries[..|entries| - 1]) + [InfoKeys(entries)[|entries| - 1]]
  {
  }

  /** The last entry whose key is `key`. */
  function LastKeyMatch(entries: seq<Entry>, key: string): (r: Option<nat>)
    ensures r.None? <==> key !in InfoKeys(entries)
    ensures r.Some? ==> r.value < |entries| && InfoKeys(entries)[r.value] == key
    ensures r.Some? ==> forall j :: r.value < j < |entries| ==> InfoKeys(entries)[j] != key
  {
    if entries == [] then None
    else
      InfoKeysSnoc(entries);
      if InfoKeys(entries)[|entries| - 1] == key then Some(|entries| - 1)
      else LastKeyMatch(entries[..|entries| - 1], key)
  }

  /** rarfile's `getinfo`: the requested name without its trailing slashes is looked up in
      the index, where a later entry with the same key replaces an earlier one. */
  function GetInfo(entries: seq<Entry>, name: string): (r: Option<nat>)
    ensures r.None? <==> RStripSlash(name) !in InfoKeys(entries)
    ensures r.Some? ==> r.value < |entries| && RStripSlash(entries[r.value].filename) == RStripSlash(name)
    ensures r.Some? ==> forall j :: r.value < j < |entries| ==> RStripSlash(entries[j].filename) != RStripSlash(name)
  {
    LastKeyMatch(entries, RStripSlash(name))
  }

  /** `get_member`: the entry rarfile's `getinfo` finds, or KeyError for the name as given
      in place of rarfile's own NoRarEntry. */
  function MemberByName(entries: seq<Entry>, name: string): (r: Result<ArchiveMember>)
    ensures r.Err? <==> RStripSlash(name) !in InfoKeys(entries)
    ensures r.Err? ==> r.error == KeyError(name)
    ensures r.Ok? ==> RStripSlash(r.value.name) == RStripSlash(name) && (r.value.isDir <==> EndsWith(r.value.name, "/"))
    ensures r.Ok? ==> r.value == Members(entries)[GetInfo(entries, name).value]
  {
    match GetInfo(entries, name)
    case None => Err(KeyError(name))
    case Some(i) => Ok(ToMember(entries[i]))
  }

  /** With or without a trailing "/", a name finds the same member. */
  lemma TrailingSlashIgnored(entries: seq<Entry>, s: string)
    ensures MemberByName(entries, s + "/").Ok? <==> MemberByName(entries, s).Ok?
    ensures MemberByName(entries, s).Ok? ==> MemberByName(entries, s + "/") == MemberByName(entries, s)
  {
    RStripSlashAppend(s);
  }

  /** A rar listing names a directory "pyanilist-main/docs/"; asking for it without the slash
      finds it, named as listed. */
  lemma DocsDirectoryWithoutSlash()
    ensures var docs := Entry("pyanilist-main/docs/", 0, 0, 0, true, false, []);
      MemberByName([docs], "pyanilist-main/docs")
      == Ok(ArchiveMember("pyanilist-main/docs/", 0, 0, 0, true, false))
  {
    var docs := Entry("pyanilist-main/docs/", 0, 0, 0, true, false, []);
    assert "pyanilist-main/docs/" == "pyanilist-main/docs" + "/";
    RStripSlashAppend("pyanilist-main/docs");
    RStripSlashKeeps("pyanilist-main/docs");
    assert RStripSlash(docs.filename) == "pyanilist-main/docs";
  }

  /** `get_members`: one member per RarInfo of the listing, in listing order. */
  function Members(entries: seq<Entry>): (r: seq<ArchiveMember>)
    ensures |r| == |entries|
    ensures forall i :: 0 <= i < |entries| ==> r[i] == ToMember(entries[i])
  {
    seq(|entries|, i requires 0 <= i < |entries| => ToMember(entries[i]))
  }

  /** `get_names()` lists the names of `get_members()` in the same order, and the members that
      are directories are exactly the names ending in "/". */
  lemma NamesAreMemberNames(entries: seq<Entry>)
    ensures |Names(entries)| == |Members(entries)|
    ensures forall i :: 0 <= i < |entries| ==> Names(entries)[i] == Members(entries)[i].name
    ensures forall i :: 0 <= i < |entries| ==> (Members(entries)[i].isDir <==> EndsWith(Names(entries)[i], "/"))
  {
  }

  /** `read_bytes`: a name ending in "/" reads as no bytes without a lookup; any other name
      is read by rarfile, which finds it as `getinfo` does, raises NoRarEntry (turned into
      KeyError) when it is not listed and UnsupportedOperation when it finds a directory. */
  function ReadEntry(entries: seq<Entry>, name: string): (r: Result<seq<byte>>)
    ensures EndsWith(name, "/") ==> r == Ok([])
    ensures !EndsWith(name, "/") ==>
      (r.Ok? <==> GetInfo(entries, name).Some? && !entries[GetInfo(entries, name).value].isDir)
    ensures r.Err? ==> r.error == KeyError(name) || r.error == UnsupportedOperation
    ensures r.Err? ==> (r.error == KeyError(name) <==> RStripSlash(name) !in InfoKeys(entries))
    ensures !EndsWith(name, "/") && r.Ok? ==> r.value == entries[GetInfo(entries, name).value].data
  {
    if EndsWith(name, "/") then Ok([])
    else
      RStripSlashKeeps(name);
      match GetInfo(entries, name)
      case None => Err(KeyError(name))
      case Some(i) => if entries[i].isDir then Err(UnsupportedOperation) else Ok(entries[i].data)
  }

  /** A directory asked for without its slash is found, and rarfile refuses to read it. */
  lemma DirectoryWithoutSlashUnreadable(entries: seq<Entry>, s: string)
    requires s != [] && s[|s| - 1] != '/'
    requires s + "/" in Names(entries)
    requires forall e :: e in entries && RStripSlash(e.filename) == s ==> e.isDir
    ensures ReadEntry(entries, s) == Err(UnsupportedOperation)
  {
    RStripSlashAppend(s);
    RStripSlashKeeps(s);
    var k :| 0 <= k < |entries| && entries[k].filename == s + "/";
    assert InfoKeys(entries)[k] == s;
    assert entries[GetInfo(entries, s).value] in entries;
  }

  /** A directory name reads as empty whether or not it is listed. */
  lemma DirectoryReadsEmpty(entries: seq<Entry>, others: seq<Entry>, name: string)
    requires EndsWith(name, "/")
    ensures ReadEntry(entries, name) == ReadEntry(others, name) == Ok([])
  {
  }

  /** `extract`: rarfile is asked to extract the member by name, with the raw password; it
      finds the member as `getinfo` does, and its NoRarEntry becomes KeyError; otherwise the
      result is `destination / name`, with the name as given. */
  function ExtractEffect(entries: seq<Entry>, password: Option<string>, dest: Path, member: MemberRef): (e: Effect<Result<Path>>)
    ensures e.issued == [RarExtract(GetMemberName(member), dest, password)]
    ensures e.result.Ok? <==> RStripSlash(GetMemberName(member)) in InfoKeys(entries)
    ensures e.result.Ok? ==> e.result.value == Div(dest, GetMemberName(member))
    ensures e.result.Err? ==> e.result.error == KeyError(GetMemberName(member))
  {
    var name := GetMemberName(member);
    Effect(if RStripSlash(name) in InfoKeys(entries) then Ok(Div(dest, name)) else Err(KeyError(name)),
           [RarExtract(name, dest, password)])
  }

  /** `extractall`: with members, every requested name is checked against the listing first
      and the first missing one raises KeyError before rarfile is called; rarfile is then
      handed the set of checked names (the empty set when no members were given) with the
      raw password. */
  function ExtractAllEffect(entries: seq<Entry>, dest: Path, members: Option<seq<MemberRef>>,
                            password: Option<string>): (e: Effect<Result<Path>>)
    ensures members.None? || members.value == [] ==>
      e == Effect(Ok(dest), [RarExtractAll(dest, {}, password)])
    ensures members.Some? && members.value != [] ==>
      var names := MemberNames(members.value);
      (e.result.Ok? <==> forall i :: 0 <= i < |names| ==> names[i] in Names(entries))
      && (e.result.Err? ==> e.result.error == ValidateNames(names, Names(entries)).error && e.issued == [])
      && (e.result.Ok? ==> e == Effect(Ok(dest), [RarExtractAll(dest, set i | 0 <= i < |names| :: names[i], password)]))
  {
    if members.None? || members.value == [] then Effect(Ok(dest), [RarExtractAll(dest, {}, password)])
    else
      var names := MemberNames(members.value);
      ValidateNamesSound(names, Names(entries));
      match ValidateNames(names, Names(entries))
      case Err(err) => Effect(Err(err), [])
      case Ok(s) => Effect(Ok(dest), [RarExtractAll(dest, s, password)])
  }

  /** A request naming a member that is not listed extracts nothing at all. */
  lemma ExtractAllIsAllOrNothing(entries: seq<Entry>, dest: Path, ms: seq<MemberRef>,
                                 password: Option<string>, k: nat)
    requires k < |ms| && GetMemberName(ms[k]) !in Names(entries)
    ensures ExtractAllEffect(entries, dest, Some(ms), password).result.Err?
    ensures ExtractAllEffect(entries, dest, Some(ms), password).issued == []
  {
    assert MemberNames(ms)[k] !in Names(entries);
  }

  class RarFileAdapter {
    /** The resolved archive path. */
    const file: Path
    /** The stored mode: always "r". */
    const mode: string
    const password: Option<string>
    /** The listing of the RarFile this adapter holds. */
    const entries: seq<Entry>
    /** The calls issued to the RarFile, in order. */
    var calls: seq<NativeCall>

    constructor (file: Path, password: Option<string>, entries: seq<Entry>)
      ensures this.file == file && mode == "r" && this.password == password
      ensures this.entries == entries && calls == []
    {
      this.file := file;
      mode := "r";
      this.password := password;
      this.entries := entries;
      calls := [];
    }

    /** `RarFileAdapter(file, mode, password=...)`, with `entries` the listing rarfile reads. */
    static method Open(file: Path, mode: string, password: Option<string>, entries: seq<Entry>)
      returns (r: Result<RarFileAdapter>)
      ensures OpenMode(mode).Err? ==> r == Err(OpenMode(mode).error)
      ensures OpenMode(mode).Ok? ==> r.Ok? && fresh(r.value)
      ensures OpenMode(mode).Ok? ==>
        r.value.file == file && r.value.mode == OpenMode(mode).value && r.value.password == password
        && r.value.entries == entries && r.value.calls == []
    {
      if |mode| == 0 {
        return Err(IndexError);
      }
      var m := mode[0];
      if m != 'r' {
        return Err(NotImplementedError);
      }
      var a := new RarFileAdapter(file, password, entries);
      return Ok(a);
    }

    /** rarfile cannot write, so the adapter reports no compression type and no level. */
    function Compression(): (r: (Option<CompressionType>, Option<int>))
      ensures r.0.None? && r.1.None?
    {
      (None, None)
    }

    function GetMember(member: StrPath): (r: Result<ArchiveMember>)
    {
      MemberByName(entries, GetMemberName(member))
    }

    function GetMembers(): (r: seq<ArchiveMember>)
    {
      Members(entries)
    }

    function GetNames(): (r: seq<string>)
    {
      Names(entries)
    }

    function ReadBytes(member: MemberRef): (r: Result<seq<byte>>)
    {
      ReadEntry(entries, GetMemberName(member))
    }

    method Extract(member: MemberRef, dest: Path) returns (r: Result<Path>)
      modifies this
      ensures r == ExtractEffect(entries, password, dest, member).result
      ensures calls == old(calls) + ExtractEffect(entries, password, dest, member).issued
    {
      var name := GetMemberName(member);
      calls := calls + [RarExtract(name, dest, password)];
      if RStripSlash(name) !in InfoKeys(entries) {
        return Err(KeyError(name));
      }
      return Ok(Div(dest, name));
    }

    /** The validating loop of `extractall`: the first requested name that is not listed
        raises KeyError; otherwise the set of the requested names. */
    method CheckNames(ms: seq<MemberRef>) returns (r: Result<set<string>>)
      ensures r == ValidateNames(MemberNames(ms), Names(entries))
    {
      var names: set<string> := {};
      var all := Names(entries);
      ghost var requested := MemberNames(ms);
      var i := 0;
      while i < |ms|
        invariant 0 <= i <= |ms|
        invariant ValidateNames(requested[..i], all) == Ok(names)
      {
        var name := GetMemberName(ms[i]);
        ValidateNamesStep(requested, i, all, names);
        if name !in all {
          return Err(KeyError(name));
        }
        names := names + {name};
        i := i + 1;
      }
      assert requested[..i] == requested;
      return Ok(names);
    }

    method ExtractAll(dest: Path, members: Option<seq<MemberRef>>) returns (r: Result<Path>)
      modifies this
      ensures r == ExtractAllEffect(entries, dest, members, password).result
      ensures calls == old(calls) + ExtractAllEffect(entries, dest, members, password).issued
    {
      var names: set<string> := {};
      if members.Some? && members.value != [] {
        var checked := CheckNames(members.value);
        if checked.Err? {
          return Err(checked.error);
        }
        names := checked.value;
      }
      calls := calls + [RarExtractAll(dest, names, password)];
      return Ok(dest);
    }

    /** `write`, `write_text`, `write_bytes` and `writeall` all raise NotImplementedError and
        issue nothing: a rar archive is never written. */
    method Write(source: Path, arcname: Option<StrPath>) returns (r: Outcome)
      ensures r == Fail(NotImplementedError)
    {
      return Fail(NotImplementedError);
    }

    method WriteText(data: string, arcname: StrPath) returns (r: Outcome)
      ensures r == Fail(NotImplementedError)
    {
      return Fail(NotImplementedError);
    }

    method WriteBytes(data: seq<byte>, arcname: StrPath) returns (r: Outcome)
      ensures r == Fail(NotImplementedError)
    {
      return Fail(NotImplementedError);
    }

    method WriteAll(dir: Path, root: Option<Path>) returns (r: Outcome)
      ensures r == Fail(NotImplementedError)
    {
      return Fail(NotImplementedError);
    }

    /** `close()` and leaving the context manager both close the RarFile. */
    method Close()
      modifies this
      ensures calls == old(calls) + [CloseHandle]
    {
      calls := calls + [CloseHandle];
    }

    function Repr(): (s: string)
    {
      AdapterRepr(ClassName(Rar), file, mode, password)
    }
  }
}
