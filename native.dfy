/** The boundary to the four format libraries (zipfile, tarfile, py7zr, rarfile) and to the
    filesystem. A library handle is modelled by the listing it reads at open time and by the
    log of the calls the adapter issues to it; the filesystem by a map from resolved paths to
    nodes. */
module Native {
  import opened Results
  import opened Strings
  import opened Paths
  import opened Enums
  import opened Utils

  /** One record of a container's native listing (ZipInfo, TarInfo, py7zr FileInfo, RarInfo).
      `isDir`/`isFile` are the library's own flags (ZipInfo.is_dir(), TarInfo.isdir()/isfile(),
      FileInfo.is_directory); `data` is what the codec decodes for the entry. */
  datatype Entry = Entry(
    filename: string,
    size: nat,
    compressed: nat,
    crc: int,
    isDir: bool,
    isFile: bool,
    data: seq<byte>)

  /** The filenames of a listing, in listing order (namelist(), getnames()). */
  function Names(entries: seq<Entry>): (r: seq<string>)
    ensures |r| == |entries|
    ensures forall i :: 0 <= i < |entries| ==> r[i] == entries[i].filename
  {
    seq(|entries|, i requires 0 <= i < |entries| => entries[i].filename)
  }

  /** The entry a library's by-name lookup returns (zipfile's and rarfile's name maps and
      tarfile's reversed search all keep the LAST entry of a repeated name). */
  function LastMatch(entries: seq<Entry>, name: string): (r: Option<nat>)
    ensures r.None? <==> name !in Names(entries)
    ensures r.Some? ==> r.value < |entries| && entries[r.value].filename == name
    ensures r.Some? ==> forall j :: r.value < j < |entries| ==> entries[j].filename != name
  {
    if entries == [] then None
    else if entries[|entries| - 1].filename == name then Some(|entries| - 1)
    else
      var r := LastMatch(entries[..|entries| - 1], name);
      assert Names(entries) == Names(entries[..|entries| - 1]) + [entries[|entries| - 1].filename];
      r
  }

  /** The first entry, in listing order, with the given filename. */
  function FirstMatch(entries: seq<Entry>, name: string): (r: Option<nat>)
    ensures r.None? <==> name !in Names(entries)
    ensures r.Some? ==> r.value < |entries| && entries[r.value].filename == name
    ensures r.Some? ==> forall j :: 0 <= j < r.value ==> entries[j].filename != name
  {
    if entries == [] then None
    else if entries[0].filename == name then Some(0)
    else
      var r := FirstMatch(entries[1..], name);
      assert Names(entries) == [entries[0].filename] + Names(entries[1..]);
      if r.Some? then Some(r.value + 1) else None
  }

  /** A node of the (resolved) filesystem. */
  datatype Node = RegularFile(content: seq<byte>) | Directory | OtherNode

  type FileSystem = map<Path, Node>

  /** `path.exists()`, `path.is_file()`, `path.is_dir()` */
  predicate Exists(fs: FileSystem, p: Path) { p in fs }
  predicate IsFile(fs: FileSystem, p: Path) { p in fs && fs[p].RegularFile? }
  predicate IsDir(fs: FileSystem, p: Path) { p in fs && fs[p].Directory? }

  /** What `dir.rglob(glob)` / `dir.glob(glob)` may yield: paths strictly below `dir`. */
  predicate BelowDir(matches: seq<Path>, dir: Path) {
    forall i :: 0 <= i < |matches| ==> IsRelativeTo(matches[i], dir) && |matches[i].parts| > |dir.parts|
  }

  /** The data handed to a library's "write from memory" call. */
  datatype Payload = Text(text: string) | Bytes(bytes: seq<byte>)

  /** The header tarfile.addfile receives: a TarInfo(name) whose size the adapter sets. */
  datatype TarHeader = TarHeader(name: string, size: nat)

  /** The calls an adapter issues to its library, in issue order. */
  datatype NativeCall =
    // zipfile.ZipFile
    | ZipExtract(name: string, dest: Path, zipPwd: Option<seq<byte>>)
    | ZipExtractAll(dest: Path, zipMembers: Option<seq<string>>, zipPwd: Option<seq<byte>>)
    | ZipWrite(source: Path, arcname: StrPath, compressType: Option<CompressionType>, compressLevel: Option<int>)
    | ZipWriteStr(arcnameStr: string, payload: Payload, compressType: Option<CompressionType>, compressLevel: Option<int>)
    // tarfile.TarFile
    | TarExtract(name: string, dest: Path)
    | TarExtractAll(dest: Path, tarMembers: Option<seq<Entry>>)
    | TarAdd(source: Path, arcname: StrPath)
    | TarAddFile(header: TarHeader, data: seq<byte>)
    // py7zr.SevenZipFile
    | SevenZipExtract(dest: Path, targets: set<string>)
    | SevenZipExtractAll(dest: Path)
    | SevenZipRead(targets: set<string>)
    | SevenZipReset
    | SevenZipWrite(source: Path, arcnameStr: string)
    | SevenZipWriteStr(payload: Payload, arcnameStr: string)
    // rarfile.RarFile
    | RarExtract(name: string, dest: Path, rarPwd: Option<string>)
    | RarExtractAll(dest: Path, rarMembers: set<string>, rarPwd: Option<string>)
    // every library
    | CloseHandle

  /** The index of the first requested name that is not in `all` (|requested| if none). */
  function FirstAbsent(requested: seq<string>, all: seq<string>): (k: nat)
    ensures k <= |requested|
    ensures forall j :: 0 <= j < k ==> requested[j] in all
    ensures k < |requested| ==> requested[k] !in all
  {
    if requested == [] then 0
    else if requested[0] !in all then 0
    else 1 + FirstAbsent(requested[1..], all)
  }

  /** Appending one name moves the first absent index only when everything before was present. */
  lemma {:induction false} FirstAbsentSnoc(a: seq<string>, x: string, all: seq<string>)
    ensures FirstAbsent(a + [x], all)
         == if FirstAbsent(a, all) < |a| then FirstAbsent(a, all) else if x in all then |a| + 1 else |a|
  {
    if a != [] {
      assert (a + [x])[0] == a[0];
      assert (a + [x])[1..] == a[1..] + [x];
      FirstAbsentSnoc(a[1..], x, all);
    }
  }

  /** Nothing is absent exactly when every requested name is in `all`. */
  lemma FirstAbsentComplete(requested: seq<string>, all: seq<string>)
    ensures FirstAbsent(requested, all) == |requested| <==> forall i :: 0 <= i < |requested| ==> requested[i] in all
  {
  }

  /** The pre-validation of extractall (7z, rar): every requested name must be listed;
      the first one that is not raises KeyError; otherwise the set of requested names.
      Defined on prefixes, in the order the adapters' loops visit the names. */
  function ValidateNames(requested: seq<string>, all: seq<string>): (r: Result<set<string>>)
    ensures r.Ok? <==> FirstAbsent(requested, all) == |requested|
    ensures r.Ok? ==> r.value == set i | 0 <= i < |requested| :: requested[i]
    ensures r.Err? ==> r.error == KeyError(requested[FirstAbsent(requested, all)])
  {
    if requested == [] then Ok({})
    else
      var prefix := requested[..|requested| - 1];
      var last := requested[|requested| - 1];
      assert requested == prefix + [last];
      FirstAbsentSnoc(prefix, last, all);
      match ValidateNames(prefix, all)
      case Err(e) => Err(e)
      case Ok(s) =>
        if last in all then
          assert (set i | 0 <= i < |requested| :: requested[i]) == s + {last} by {
            assert forall i :: 0 <= i < |prefix| ==> prefix[i] == requested[i];
          }
          Ok(s + {last})
        else Err(KeyError(last))
  }

  /** Once a name is missing, requesting more names does not change the error. */
  lemma {:induction false} FirstAbsentAppend(a: seq<string>, b: seq<string>, all: seq<string>)
    requires FirstAbsent(a, all) < |a|
    ensures FirstAbsent(a + b, all) == FirstAbsent(a, all)
  {
    assert (a + b)[0] == a[0];
    if a[0] in all {
      assert (a + b)[1..] == a[1..] + b;
      FirstAbsentAppend(a[1..], b, all);
    }
  }

  lemma ValidateNamesAppend(a: seq<string>, b: seq<string>, all: seq<string>)
    requires ValidateNames(a, all).Err?
    ensures ValidateNames(a + b, all) == ValidateNames(a, all)
  {
    FirstAbsentAppend(a, b, all);
    assert (a + b)[FirstAbsent(a, all)] == a[FirstAbsent(a, all)];
  }

  /** Validating one more name: the validation so far, extended by this name's. */
  lemma ValidateNamesSnoc(a: seq<string>, x: string, all: seq<string>)
    ensures ValidateNames(a + [x], all)
      == match ValidateNames(a, all)
         case Err(err) => Err(err)
         case Ok(s) => if x in all then Ok(s + {x}) else Err(KeyError(x))
  {
    assert (a + [x])[..|a|] == a;
  }

  /** One step of a validating loop over `requested`: a listed name joins the set, and the
      first unlisted one decides the outcome of the whole validation. */
  lemma ValidateNamesStep(requested: seq<string>, i: nat, all: seq<string>, names: set<string>)
    requires i < |requested| && ValidateNames(requested[..i], all) == Ok(names)
    ensures requested[i] in all ==> ValidateNames(requested[..i + 1], all) == Ok(names + {requested[i]})
    ensures requested[i] !in all ==> ValidateNames(requested, all) == Err(KeyError(requested[i]))
  {
    assert requested[..i + 1] == requested[..i] + [requested[i]];
    ValidateNamesSnoc(requested[..i], requested[i], all);
    if requested[i] !in all {
      ValidateNamesAppend(requested[..i + 1], requested[i + 1..], all);
      assert requested[..i + 1] + requested[i + 1..] == requested;
    }
  }

  /** Everything requested is listed exactly when the validation passes, and then every
      validated name is one that was requested and is listed. */
  lemma ValidateNamesSound(requested: seq<string>, all: seq<string>)
    ensures ValidateNames(requested, all).Ok? <==> forall i :: 0 <= i < |requested| ==> requested[i] in all
    ensures ValidateNames(requested, all).Ok? ==> forall n :: n in ValidateNames(requested, all).value ==> n in all
  {
  }

  /** What a modelled operation does: its result, and the library calls it issues, in order. */
  datatype Effect<+T> = Effect(result: T, issued: seq<NativeCall>)

  /** The index of the first path that is not a regular file (|paths| if none). */
  function FirstNonFile(paths: seq<Path>, fs: FileSystem): (k: nat)
    ensures k <= |paths|
    ensures forall j :: 0 <= j < k ==> IsFile(fs, paths[j])
    ensures k < |paths| ==> !IsFile(fs, paths[k])
  {
    if paths == [] then 0
    else if !IsFile(fs, paths[0]) then 0
    else 1 + FirstNonFile(paths[1..], fs)
  }

  /** The paths that are regular files, in their original order. */
  function RegularFiles(paths: seq<Path>, fs: FileSystem): (r: seq<Path>)
    ensures |r| <= |paths|
    ensures forall x :: x in r ==> x in paths && IsFile(fs, x)
  {
    if paths == [] then []
    else
      var prefix := paths[..|paths| - 1];
      var last := paths[|paths| - 1];
      var rest := RegularFiles(prefix, fs);
      assert forall x :: x in prefix ==> x in paths;
      if IsFile(fs, last) then rest + [last] else rest
  }

  lemma PrefixMembers(paths: seq<Path>, i: nat)
    requires i <= |paths|
    ensures forall x :: x in paths[..i] ==> x in paths
  {
  }

  /** Filtering one more path: the filtered prefix, extended by that path when it is a regular
      file. */
  lemma RegularFilesStep(paths: seq<Path>, i: nat, fs: FileSystem)
    requires i < |paths|
    ensures RegularFiles(paths[..i + 1], fs)
         == RegularFiles(paths[..i], fs) + (if IsFile(fs, paths[i]) then [paths[i]] else [])
  {
    assert paths[..i + 1][..i] == paths[..i];
  }

  /** Nothing that is a regular file is left out by the filter. */
  lemma {:induction false} RegularFilesComplete(paths: seq<Path>, fs: FileSystem, x: Path)
    requires x in paths && IsFile(fs, x)
    ensures x in RegularFiles(paths, fs)
  {
    var prefix := paths[..|paths| - 1];
    if x != paths[|paths| - 1] {
      assert paths == prefix + [paths[|paths| - 1]];
      RegularFilesComplete(prefix, fs, x);
    }
  }
}
