# archivefile: dispatch and adapter layer

This project models the core of `archivefile`, a Python library that puts one interface
(`ArchiveFile`) over four container formats: zip (zipfile), tar (tarfile), 7z (py7zr) and
rar (rarfile). The model covers:

- The facade's choice of adapter. It depends on whether the file exists, on the requested
  mode, on the lower-cased file name matched against four end-anchored extension patterns,
  and on four content probes tried in a fixed order. It is a pure decision (`Core.Dispatch`).
- The four adapters, as classes with a `seq<Entry>` listing of the archive and a log of the
  calls they issue to their library. Each adapter models:
  - mode normalisation: the first character; 7z's `x`/`a` rewrite; rar's read-only rule; the
    modes zipfile and py7zr refuse;
  - member-name normalisation: 7z drops one trailing `/`; tarfile's `getmember` and rarfile's
    `getinfo` drop all of them, and rar infers directories from the listed name's `/`;
  - lookup, with the libraries' errors turned into `KeyError`;
  - the mapping of native records into `ArchiveMember`;
  - `extract`, `extractall`, `read_bytes`, `write`, `write_text`, `write_bytes`, `writeall`,
    `close` and `repr`.
- The facade class `ArchiveFile`, which builds one adapter and forwards every operation to it.
- The helpers `clamp_compression_level`, `get_member_name` and `is_archive`.
- The `ArchiveMember` value type, and the `CompressionType` and `CommonExtensions` enums.

Every adapter operation that changes the library handle is a method. Its contract ties the
result and the new call log to an `...Effect` function of the inputs:
`calls == old(calls) + XEffect(...).issued`. The properties the source promises are proved
about those functions, as their own contracts or as lemmas. The facade's `...Spec`
functions state what holds for every format at once.

Modules, one per file: `Results`, `Strings`, `Paths` (a pure POSIX `pathlib` model), `Enums`,
`Models`, `Utils`, `Native` (the library and filesystem boundary), `Base`, `Zip`, `Tar`,
`SevenZip`, `Rar` and `Core`.

Three behaviours of the code are easy to miss, and the model follows the code in each:

- The `writeall` docstring (`src/archivefile/_core.py:668-680`) says that only files matching
  the glob are written to the archive. The zip and 7z adapters hand every glob match to
  `write` (`src/archivefile/_adapters/_zip.py:259-261`,
  `src/archivefile/_adapters/_sevenzip.py:341-343`), so a matched sub-directory stops the walk
  with `write`'s ValueError. Only tar filters the matches on `is_file()`
  (`src/archivefile/_adapters/_tar.py:279-282`). See `Zip.WriteAllEffect`,
  `SevenZip.WriteAllEffect`, `Tar.WriteAllEffect` and `Core.WriteAllWritesEveryFile`.
- `extractall` with `members` (`src/archivefile/_core.py:365-405`) fails differently by format.
  The zip adapter does not check the names itself (`src/archivefile/_adapters/_zip.py:163-171`):
  it hands them to zipfile, so the library call is issued and zipfile raises the KeyError.
  Tar, 7z and rar look up every name first and extract nothing when one is missing. See
  `Core.ExtractAllSpec`.
- `is_archive` accepts a self-extracting rar (`src/archivefile/_utils.py:48`). The dispatcher
  does not probe for one (`src/archivefile/_core.py:101-114`). See `Core.SfxArchiveRefused`.

## Model

| member | source | states |
|---|---|---|
| Enums.Code | src/archivefile/_enums.py:6-24 | each compression type has its constant value, one of 0, 8, 12, 14 |
| Enums.FromCode | src/archivefile/_enums.py:6-24 | looking up a value succeeds exactly for 0, 8, 12 and 14 |
| Enums.CodeRoundTrip | src/archivefile/_enums.py:9-24 | value lookup inverts the constant, in both directions |
| Enums.CodesDistinct | src/archivefile/_enums.py:9-24 | two compression types have the same value iff they are the same type |
| Enums.Extensions | src/archivefile/_enums.py:28-32 | each extension group lists lower-case extensions that start with a dot |
| Enums.ExtensionGroupsDisjoint | src/archivefile/_enums.py:28-32 | no extension belongs to two groups |
| Models.NewMember | src/archivefile/_models.py:19-45 | the name is kept; an omitted field and a field passed as None both take the default (0, 0, 0, False, False) |
| Models.NameOnly | src/archivefile/_models.py:34-38 | a name-only member is neither a directory nor a file |
| Models.NoneIsDefault | src/archivefile/_models.py:40-45 | passing None and passing the defaults build the same member |
| Models.NewMemberEquality | src/archivefile/_models.py:11-17 | two members are equal iff their names and their fields (None read as the default) are equal |
| Models.Str | src/archivefile/_models.py:47-52 | `str(member)` is the member's name |
| Utils.ClampCompressionLevel | src/archivefile/_utils.py:67-71 | the result lies in 0..9; identity on 0..9; below 0 gives 0; above 9 gives 9 |
| Utils.ClampIdempotent | src/archivefile/_utils.py:71 | clamping twice is clamping once |
| Utils.ClampMonotone | src/archivefile/_utils.py:71 | clamping preserves order |
| Utils.GetMemberName | src/archivefile/_utils.py:53-64 | a member gives its name; a string is returned untouched; a path gives its parts joined with "/", or "." |
| Utils.PathNameIsRelative | src/archivefile/_utils.py:60-61 | the name of an absolute path is relative: it does not start with "/" and parses back to the same parts |
| Utils.IsArchive | src/archivefile/_utils.py:31-50 | false for a missing file; for an existing file, true iff one of the five probes holds |
| Paths.AsPosixParse | src/archivefile/_utils.py:61 | the "/"-joined form of a valid path parses back to the same path |
| Native.ValidateNames | src/archivefile/_adapters/_rar.py:208-216 | passes iff every requested name is listed, giving the set of requested names; otherwise KeyError names the first unlisted one |
| Native.ValidateNamesStep | src/archivefile/_adapters/_sevenzip.py:233-240 | one loop step: a listed name joins the set; the first unlisted name decides the whole validation |
| Native.ValidateNamesSound | src/archivefile/_adapters/_rar.py:211-216 | validation passes iff every requested name is listed, and then every validated name is listed |
| Native.RegularFilesComplete | src/archivefile/_adapters/_tar.py:279-280 | the `is_file()` filter keeps every regular file it is given |
| Base.ClassName | src/archivefile/_adapters/_base.py:148 | each adapter's class name ends in "FileAdapter" |
| Base.ClassNamesDistinct | src/archivefile/_adapters/_base.py:148 | the four class names are pairwise distinct |
| Base.MaskedPassword | src/archivefile/_adapters/_base.py:147 | a truthy password shows as the fixed mask, and None or "" shows as None |
| Base.AdapterRepr | src/archivefile/_adapters/_base.py:146-148 | the adapter repr has the shape `ClassName("...` and ends in `password=<mask or None>)` |
| Base.AdapterReprHidesPassword | src/archivefile/_adapters/_base.py:147-148 | the adapter repr does not depend on the password text, only on whether it is truthy |
| Base.AdapterReprShowsPresence | src/archivefile/_adapters/_base.py:147-148 | a truthy and a falsy password give different adapter reprs |
| Base.FacadeRepr | src/archivefile/_core.py:746-747 | the facade repr has the shape `ClassName("...` and ends in `password="<raw text>")` |
| Base.FacadeReprRevealsPassword | src/archivefile/_core.py:746-747 | two different password texts always give different facade reprs |
| Base.BindWriteKeywords | src/archivefile/_adapters/_base.py:114-142 | passing the compression keywords binds only for zip; otherwise TypeError |
| Base.FacadeWriteBindingAsWritten | src/archivefile/_core.py:538-540 | as forwarded, the write call binds for zip and raises TypeError for tar, 7z and rar |
| Base.TarWriteRaisesTypeError | src/archivefile/_core.py:538-540 | the concrete case: a facade write into a tar archive raises TypeError |
| Base.PassesCompressionKeywords | src/archivefile/_adapters/_zip.py:188-195 | the corrected facade passes the keywords exactly to the adapters that declare them |
| Base.FacadeWriteBindingCorrected | src/archivefile/_core.py:538-540 | with corrected forwarding, the call binds for every format |
| Base.MemberNames | src/archivefile/_adapters/_zip.py:163-166 | one `get_member_name` per requested member, in order |
| Base.DefaultArcname | src/archivefile/_adapters/_zip.py:198-199 | the given archive name, else the source file's basename |
| Base.WriteAllRoot | src/archivefile/_adapters/_zip.py:246-255 | ValueError if `dir` is not a directory or not below the root; the root defaults to `dir`'s parent; on success `dir` is below the root |
| Base.MatchesBelowRoot | src/archivefile/_adapters/_zip.py:257-260 | every glob match lies below the root, so its relative path exists |
| Base.DefaultRootKeepsDirName | src/archivefile/_adapters/_zip.py:249-260 | with the default root, every archive name starts with the directory's own name |
| Zip.OpenMode | src/archivefile/_adapters/_zip.py:42-45 | IndexError on an empty mode; zipfile's ValueError for a first character outside r/w/x/a; FileNotFoundError for `r` on a missing file; FileExistsError for `x` on an existing one; otherwise the first character |
| Zip.NativePassword | src/archivefile/_adapters/_zip.py:44 | None iff the password is not truthy; otherwise its UTF-8 encoding, non-empty |
| Zip.ToMember | src/archivefile/_adapters/_zip.py:71-79 | name, size, compressed size and CRC are copied; a member is a file iff it is not a directory |
| Zip.MemberByName | src/archivefile/_adapters/_zip.py:67-79 | KeyError iff the name is not listed; otherwise the member `get_members()` lists at the last entry of that name |
| Zip.Members | src/archivefile/_adapters/_zip.py:81-93 | one member per listed entry, in listing order |
| Zip.NamesAreMemberNames | src/archivefile/_adapters/_zip.py:81-96 | `get_names()` lists the names of `get_members()` in order; each member is exactly one of file and directory |
| Zip.ReadEntry | src/archivefile/_adapters/_zip.py:175-177 | KeyError iff the name is not listed; otherwise the entry's data |
| Zip.ExtractEffect | src/archivefile/_adapters/_zip.py:149-155 | one extract call with the name and the native password; KeyError iff the name is not listed; otherwise `destination / name` |
| Zip.EffectiveLevel | src/archivefile/_adapters/_zip.py:204-206 | BZIP2 with level 0 becomes level 1; every other pair is unchanged |
| Zip.EffectiveLevelSound | src/archivefile/_adapters/_zip.py:204-206 | BZIP2 is never asked for level 0; the fixup is idempotent and keeps levels in 0..9 |
| Zip.WriteEffect | src/archivefile/_adapters/_zip.py:188-208 | writes iff the source is a regular file, else ValueError and nothing written; one write with the default archive name and the fixed-up level |
| Zip.RequestedNames | src/archivefile/_adapters/_zip.py:163-168 | no names iff `members` is None or empty; otherwise the requested names |
| Zip.ExtractAllEffect | src/archivefile/_adapters/_zip.py:157-173 | one extractall call, of everything or of exactly the requested names; KeyError at the first unlisted name |
| Zip.WriteAllEffect | src/archivefile/_adapters/_zip.py:234-261 | ValueError from the dir/root checks with nothing written; otherwise passes iff every match is a regular file, a failure is ValueError, and exactly the matches before the first non-file are written |
| Zip.WriteAllCalls | src/archivefile/_adapters/_zip.py:257-261 | the i-th write is of the i-th match, a regular file, at the fixed-up level, under its path relative to the root |
| Zip.ZipFileAdapter.Open | src/archivefile/_adapters/_zip.py:38-45 | fails exactly as `Zip.OpenMode` does; otherwise a fresh adapter with the file, the first-character mode, the password and its native form, and no calls |
| Zip.ZipFileAdapter.Extract | src/archivefile/_adapters/_zip.py:149-155 | the result and the new call log are those of `Zip.ExtractEffect` |
| Zip.ZipFileAdapter.ExtractAll | src/archivefile/_adapters/_zip.py:157-173 | the result and the new call log are those of `Zip.ExtractAllEffect` |
| Zip.ZipFileAdapter.Write | src/archivefile/_adapters/_zip.py:188-208 | the result and the new call log are those of `Zip.WriteEffect` |
| Zip.ZipFileAdapter.WriteText | src/archivefile/_adapters/_zip.py:210-220 | one writestr of the text under `get_member_name(arcname)`, type and level passed through without the fixup |
| Zip.ZipFileAdapter.WriteBytes | src/archivefile/_adapters/_zip.py:222-232 | one writestr of the bytes under `get_member_name(arcname)`, type and level passed through without the fixup |
| Zip.ZipFileAdapter.WriteMatches | src/archivefile/_adapters/_zip.py:259-261 | the loop writes the matches before the first one that is not a regular file, and then fails with ValueError iff there is one |
| Zip.ZipFileAdapter.WriteAll | src/archivefile/_adapters/_zip.py:234-261 | the result and the new call log are those of `Zip.WriteAllEffect` |
| Zip.ZipFileAdapter.Close | src/archivefile/_adapters/_zip.py:263-264 | one close call is issued |
| Tar.OpenMode | src/archivefile/_adapters/_tar.py:55-57 | the mode is passed on unchanged; FileExistsError iff the file exists and the mode is one of tarfile's exclusive-create modes |
| Tar.ToMember | src/archivefile/_adapters/_tar.py:102-110 | the compressed size is the size; the directory and file flags come independently from the library |
| Tar.MemberByName | src/archivefile/_adapters/_tar.py:97-110 | KeyError for the name as given iff the name without trailing slashes is not listed; otherwise the member `get_members()` lists at the last entry of that stripped name, named by it, with compressed size equal to size |
| Tar.TrailingSlashFindsMember | src/archivefile/_adapters/_tar.py:97-100 | a name asked for with a trailing "/" finds the same member as without it, named without the slash |
| Tar.DocsDirectoryWithSlash | tests/test_member.py:361-367 | `get_member("pyanilist-main/docs/")` on a tar answers with the member "pyanilist-main/docs" |
| Tar.Members | src/archivefile/_adapters/_tar.py:112-124 | one member per listed entry, in listing order |
| Tar.NamesAreMemberNames | src/archivefile/_adapters/_tar.py:104-127 | `get_names()` lists the names of `get_members()` in order; no member's compressed size differs from its size |
| Tar.ReadEntry | src/archivefile/_adapters/_tar.py:206-211 | KeyError for the name as given iff the name without trailing slashes is not listed; a regular file reads its data, anything else reads b"" |
| Tar.Found | src/archivefile/_adapters/_tar.py:196-197 | `getmember`: nothing iff the slash-stripped name is unlisted; otherwise the last entry listed under it |
| Tar.LookupAll | src/archivefile/_adapters/_tar.py:194-197 | KeyError for the first name whose slash-stripped form is unlisted; otherwise, for each name, the entry `getmember` finds for it, named by the stripped name |
| Tar.LookupAllAppend | src/archivefile/_adapters/_tar.py:196-197 | once a lookup fails, looking up more names keeps the same error |
| Tar.LookupAllStep | src/archivefile/_adapters/_tar.py:196-197 | one loop step extends the lookups so far by this name's lookup |
| Tar.LookupAllMissing | src/archivefile/_adapters/_tar.py:196-197 | a missing name decides the lookup of the whole request |
| Tar.ExtractAllMissing | src/archivefile/_adapters/_tar.py:194-197 | when the names before it are found, a missing name makes `extractall` raise KeyError for it with no library call |
| Tar.ExtractAllEffect | src/archivefile/_adapters/_tar.py:188-204 | everything when `members` is None or empty; otherwise KeyError for the first name whose slash-stripped form is unlisted, with nothing issued, else one extractall of the records `getmember` finds for the names, in order |
| Tar.ExtractEffect | src/archivefile/_adapters/_tar.py:180-186 | one extract call; KeyError iff the name without trailing slashes is not listed; otherwise `destination / name` with the name as given |
| Tar.WriteEffect | src/archivefile/_adapters/_tar.py:222-236 | adds iff the source is a regular file, else ValueError and nothing added; one add under the default archive name |
| Tar.WriteAllEffect | src/archivefile/_adapters/_tar.py:256-282 | ValueError from the dir/root checks with nothing added; otherwise passes with one add per regular file among the matches |
| Tar.WriteAllCalls | src/archivefile/_adapters/_tar.py:279-282 | every add is of a regular file among the matches, under its path relative to the root |
| Tar.AddedCallsFiltered | src/archivefile/_adapters/_tar.py:279-282 | visiting the matches one at a time adds exactly the regular files among them, in glob order |
| Tar.WriteAllWritesEveryFile | src/archivefile/_adapters/_tar.py:279-282 | once the checks pass, every regular file the glob yields is added |
| Tar.TarFileAdapter.Open | src/archivefile/_adapters/_tar.py:44-57 | fails exactly as `Tar.OpenMode` does; otherwise a fresh adapter with the file, mode, password and listing as given and no calls |
| Tar.TarFileAdapter.Compression | src/archivefile/_adapters/_tar.py:81-91 | compression type and level are always None |
| Tar.TarFileAdapter.Extract | src/archivefile/_adapters/_tar.py:180-186 | the result and the new call log are those of `Tar.ExtractEffect` |
| Tar.TarFileAdapter.ExtractAll | src/archivefile/_adapters/_tar.py:188-204 | the result and the new call log are those of `Tar.ExtractAllEffect` |
| Tar.TarFileAdapter.Write | src/archivefile/_adapters/_tar.py:222-236 | the result and the new call log are those of `Tar.WriteEffect` |
| Tar.TarFileAdapter.WriteBytes | src/archivefile/_adapters/_tar.py:246-254 | one addfile whose header has the name `get_member_name(arcname)` and size `len(data)` |
| Tar.TarFileAdapter.WriteText | src/archivefile/_adapters/_tar.py:238-244 | `write_bytes` of the UTF-8 encoding of the text |
| Tar.TarFileAdapter.AddMatches | src/archivefile/_adapters/_tar.py:279-282 | the loop adds the regular files among the matches, in order, under their paths relative to the root |
| Tar.TarFileAdapter.WriteAll | src/archivefile/_adapters/_tar.py:256-282 | the result and the new call log are those of `Tar.WriteAllEffect` |
| Tar.TarFileAdapter.Close | src/archivefile/_adapters/_tar.py:284-285 | one close call is issued |
| SevenZip.OpenMode | src/archivefile/_adapters/_sevenzip.py:54-74 | IndexError on an empty mode; FileExistsError for `x` on an existing file; `x` or `a` on a missing file becomes `w`; py7zr's ValueError for a first character outside r/w/x/a; FileNotFoundError for `r` on a missing file; otherwise the first character; never `x` |
| SevenZip.TargetName | src/archivefile/_adapters/_sevenzip.py:115 | `get_member_name` without one trailing "/", if there is one |
| SevenZip.TargetNameStripsOne | src/archivefile/_adapters/_sevenzip.py:115 | exactly one "/" is removed: a name ending in "//" still ends in "/" |
| SevenZip.TargetNames | src/archivefile/_adapters/_sevenzip.py:233-236 | one target name per requested member, in order |
| SevenZip.ToMember | src/archivefile/_adapters/_sevenzip.py:126-136 | a compressed size of 0 becomes the uncompressed size; a member is a file iff it is not a directory |
| SevenZip.MemberByName | src/archivefile/_adapters/_sevenzip.py:112-136 | KeyError iff the name is not listed; otherwise the member, of that name, that `get_members()` lists at the first entry of that name |
| SevenZip.Members | src/archivefile/_adapters/_sevenzip.py:138-150 | one member per listed entry, in listing order |
| SevenZip.NamesAreMemberNames | src/archivefile/_adapters/_sevenzip.py:112-153 | `get_names()` lists the names of `get_members()` in order; a lookup finds the first listed member of that name |
| SevenZip.TrailingSlashIgnored | src/archivefile/_adapters/_sevenzip.py:113-115 | "name/" and "name" are matched as the same member |
| SevenZip.ExtractEffect | src/archivefile/_adapters/_sevenzip.py:206-222 | KeyError with no library call iff the target is not listed; otherwise one extract of that target, a reset, and `destination / name` |
| SevenZip.ExtractAllEffect | src/archivefile/_adapters/_sevenzip.py:224-248 | everything when `members` is None or empty; otherwise KeyError with nothing issued iff a target is unlisted, else one extract of the target set; then a reset |
| SevenZip.ReadEffect | src/archivefile/_adapters/_sevenzip.py:250-272 | KeyError with no library call iff the target is not listed; otherwise a read and a reset; a directory reads b"" |
| SevenZip.WriteEffect | src/archivefile/_adapters/_sevenzip.py:283-300 | writes iff the source is a regular file, else ValueError and nothing written; the archive name is written as `get_member_name` writes it |
| SevenZip.WriteCalls | src/archivefile/_adapters/_sevenzip.py:341-343 | one write per file, named by its path relative to the root |
| SevenZip.WriteAllEffect | src/archivefile/_adapters/_sevenzip.py:318-343 | ValueError from the dir/root checks with nothing written; otherwise passes iff every match is a regular file, a failure is ValueError, and exactly the matches before the first non-file are written |
| SevenZip.WriteAllCalls | src/archivefile/_adapters/_sevenzip.py:339-343 | the i-th write is of the i-th match, a regular file, under its path relative to the root written with "/" |
| SevenZip.SevenZipFileAdapter.Open | src/archivefile/_adapters/_sevenzip.py:43-74 | fails exactly as `SevenZip.OpenMode` does; otherwise a fresh adapter with the rewritten mode and no calls |
| SevenZip.SevenZipFileAdapter.Compression | src/archivefile/_adapters/_sevenzip.py:96-106 | compression type and level are always None |
| SevenZip.SevenZipFileAdapter.Extract | src/archivefile/_adapters/_sevenzip.py:206-222 | the result and the new call log are those of `SevenZip.ExtractEffect` |
| SevenZip.SevenZipFileAdapter.CheckTargets | src/archivefile/_adapters/_sevenzip.py:230-240 | the validating loop gives the name validation of the target names |
| SevenZip.CheckedTargetsNonEmpty | src/archivefile/_adapters/_sevenzip.py:230-243 | a validated request of at least one member gives a non-empty target set, so py7zr's extract, never its extractall, is called |
| SevenZip.SevenZipFileAdapter.ExtractAll | src/archivefile/_adapters/_sevenzip.py:224-248 | the result and the new call log are those of `SevenZip.ExtractAllEffect` |
| SevenZip.SevenZipFileAdapter.ReadBytes | src/archivefile/_adapters/_sevenzip.py:250-272 | the result and the new call log are those of `SevenZip.ReadEffect` |
| SevenZip.SevenZipFileAdapter.Write | src/archivefile/_adapters/_sevenzip.py:283-300 | the result and the new call log are those of `SevenZip.WriteEffect` |
| SevenZip.SevenZipFileAdapter.WriteText | src/archivefile/_adapters/_sevenzip.py:302-308 | one writestr of the text under `get_member_name(arcname)` |
| SevenZip.SevenZipFileAdapter.WriteBytes | src/archivefile/_adapters/_sevenzip.py:310-316 | one writestr of the bytes under `get_member_name(arcname)` |
| SevenZip.SevenZipFileAdapter.WriteMatches | src/archivefile/_adapters/_sevenzip.py:341-343 | the loop writes the matches before the first one that is not a regular file, and then fails with ValueError iff there is one |
| SevenZip.SevenZipFileAdapter.WriteAll | src/archivefile/_adapters/_sevenzip.py:318-343 | the result and the new call log are those of `SevenZip.WriteAllEffect` |
| SevenZip.SevenZipFileAdapter.Close | src/archivefile/_adapters/_sevenzip.py:345-346 | one close call is issued |
| Rar.OpenMode | src/archivefile/_adapters/_rar.py:56-62 | IndexError on an empty mode; NotImplementedError for any other first character than `r`; opens iff the mode starts with `r`, kept as "r" |
| Rar.ToMember | src/archivefile/_adapters/_rar.py:108-128 | a member is a directory iff its filename ends in "/", and a file iff it is not a directory |
| Rar.GetInfo | src/archivefile/_adapters/_rar.py:104 | rarfile's `getinfo`: nothing iff the name without trailing slashes is no listed name without its trailing slashes; otherwise the last entry listed under that key |
| Rar.MemberByName | src/archivefile/_adapters/_rar.py:98-117 | KeyError for the name as given iff its slash-stripped form is no entry's key; otherwise the member `get_members()` lists at the entry `getinfo` finds, named as listed, a directory iff that name ends in "/" |
| Rar.TrailingSlashIgnored | src/archivefile/_adapters/_rar.py:98-106 | a name and the same name with "/" appended find the same member, or both fail |
| Rar.DocsDirectoryWithoutSlash | src/archivefile/_adapters/_rar.py:98-117 | asking for "pyanilist-main/docs" finds the listed directory "pyanilist-main/docs/", named as listed |
| Rar.Members | src/archivefile/_adapters/_rar.py:119-131 | one member per listed entry, in listing order |
| Rar.NamesAreMemberNames | src/archivefile/_adapters/_rar.py:119-134 | `get_names()` lists the names of `get_members()` in order; the directories are exactly the names ending in "/" |
| Rar.ReadEntry | src/archivefile/_adapters/_rar.py:221-232 | a name ending in "/" reads b""; any other name reads iff `getinfo` finds a file entry for it, giving that entry's data; KeyError iff its slash-stripped form is no key; UnsupportedOperation when the entry found is a directory |
| Rar.DirectoryWithoutSlashUnreadable | src/archivefile/_adapters/_rar.py:221-232 | a listed directory asked for without its "/" raises rarfile's UnsupportedOperation, not KeyError |
| Rar.DirectoryReadsEmpty | src/archivefile/_adapters/_rar.py:224-225 | a name ending in "/" reads b"" whatever the archive lists |
| Rar.ExtractEffect | src/archivefile/_adapters/_rar.py:187-200 | one extract call with the raw password; KeyError for the name as given iff its slash-stripped form is no entry's key; otherwise `destination / name` |
| Rar.ExtractAllEffect | src/archivefile/_adapters/_rar.py:202-219 | the empty set when `members` is None or empty; otherwise KeyError with nothing issued iff a name is unlisted, else one extractall of the requested set |
| Rar.ExtractAllIsAllOrNothing | src/archivefile/_adapters/_rar.py:208-218 | one unlisted requested name means an error and no library call |
| Rar.RarFileAdapter.Open | src/archivefile/_adapters/_rar.py:45-62 | fails exactly as `Rar.OpenMode` does; otherwise a fresh adapter in mode "r" with no calls |
| Rar.RarFileAdapter.Compression | src/archivefile/_adapters/_rar.py:84-92 | compression type and level are always None |
| Rar.RarFileAdapter.Extract | src/archivefile/_adapters/_rar.py:187-200 | the result and the new call log are those of `Rar.ExtractEffect` |
| Rar.RarFileAdapter.CheckNames | src/archivefile/_adapters/_rar.py:208-216 | the validating loop gives the name validation of the requested names |
| Rar.RarFileAdapter.ExtractAll | src/archivefile/_adapters/_rar.py:202-219 | the result and the new call log are those of `Rar.ExtractAllEffect` |
| Rar.RarFileAdapter.Write | src/archivefile/_adapters/_rar.py:243-249 | always NotImplementedError |
| Rar.RarFileAdapter.WriteText | src/archivefile/_adapters/_rar.py:251-257 | always NotImplementedError |
| Rar.RarFileAdapter.WriteBytes | src/archivefile/_adapters/_rar.py:259-265 | always NotImplementedError |
| Rar.RarFileAdapter.WriteAll | src/archivefile/_adapters/_rar.py:267-275 | always NotImplementedError |
| Rar.RarFileAdapter.Close | src/archivefile/_adapters/_rar.py:277-278 | one close call is issued |
| Core.PatternEndings | src/archivefile/_core.py:88-95 | every alternative of the four patterns starts with a dot and has at least three characters |
| Core.ByExtension | src/archivefile/_core.py:86-97 | picks a matching pattern with no earlier one matching; NotImplementedError iff no pattern matches |
| Core.ByProbes | src/archivefile/_core.py:101-114 | picks a format whose probe holds, with no earlier probe holding; NotImplementedError iff no probe holds |
| Core.Dispatch | src/archivefile/_core.py:84-114 | missing file with an `r` mode: FileNotFoundError; missing file otherwise: by lower-cased name; existing file: by probes only; no other error |
| Core.AnchoredKey | src/archivefile/_core.py:88-95 | a name matching an ending ends, before an optional newline, in that ending's last three characters |
| Core.EndingKeyFormat | src/archivefile/_core.py:88-95 | the last three characters of every alternative of a pattern identify that pattern's format |
| Core.KeyOfAnchored | src/archivefile/_core.py:88-95 | a name that matches an alternative has that alternative's last three characters as its key |
| Core.PatternKey | src/archivefile/_core.py:88-95 | a name a pattern matches has a key, and that key identifies the pattern's format |
| Core.PatternsExclusive | src/archivefile/_core.py:88-95 | at most one of the four patterns matches any name |
| Core.ExtensionMatchesGroup | src/archivefile/_core.py:84-95 | any stem, in any casing, followed by an extension of a group lower-cases to a name that group's pattern matches |
| Core.ExtensionSelectsGroup | src/archivefile/_core.py:86-95 | a new file named stem plus any extension of a group, in any casing of the stem, gets that group's adapter |
| Core.PatternIsExtensionGroup | src/archivefile/_enums.py:28-32 | each pattern matches exactly the names ending in one of its group's extensions |
| Core.UnknownExtensionRefused | src/archivefile/_core.py:96-97 | a new file is refused, with NotImplementedError, iff its name ends in no extension of any group |
| Core.SfxArchiveRefused | src/archivefile/_core.py:101-114 | `is_archive` and the dispatcher disagree exactly on files only the SFX probe recognises |
| Core.LookupName | src/archivefile/_adapters/_sevenzip.py:115 | 7z matches by the target name, tarfile and rarfile by the name without trailing slashes, zip by `get_member_name` |
| Core.OpenSpec | src/archivefile/_core.py:84-116 | dispatch errors pass through; otherwise the dispatched format, with tar's mode unchanged and the others' one character among r/w/x/a, rar's "r"; for tar, FileExistsError iff the file exists and the mode is an exclusive-create mode; a failure after dispatch is IndexError, ValueError, FileExistsError or NotImplementedError |
| Core.NewRarRefused | src/archivefile/_core.py:94-95 | a new rar file is chosen by name but always refused by the rar adapter |
| Core.ExtractSpec | src/archivefile/_core.py:362 | every format: KeyError for the reported name iff the looked-up name is not among the library's keys (rarfile's slash-stripped keys for rar); otherwise `destination / name` |
| Core.ExtractAllSpec | src/archivefile/_core.py:405 | every format: the destination, or KeyError iff some requested name's looked-up form (slash-stripped for tar, exact for rar) is unlisted; only zip issues a call before failing |
| Core.ReadSpec | src/archivefile/_core.py:433 | every format: a looked-up name among the library's keys reads, except a rar directory asked for without its "/", which raises UnsupportedOperation; any other error is KeyError for the reported name of a name not among the keys; a failure issues nothing |
| Core.WriteSpec | src/archivefile/_core.py:538-540 | rar refuses; the others write iff the source is a regular file, with one call whose source is that file |
| Core.WriteTextSpec | src/archivefile/_core.py:598-600 | rar refuses; the others issue one write named `get_member_name(arcname)` |
| Core.WriteBytesSpec | src/archivefile/_core.py:652-654 | rar refuses; the others issue one write named `get_member_name(arcname)` |
| Core.WriteAllSpec | src/archivefile/_core.py:717-724 | rar refuses; failed checks write nothing; tar then passes with one add per regular file; zip and 7z pass iff every match is a regular file and write the matches before the first non-file |
| Core.WriteAllWritesEveryFile | src/archivefile/_core.py:717-724 | a `writeall` that passes has handed every regular file among the matches to the library, in every format |
| Core.WriteAllWritesOnlyMatchedFiles | src/archivefile/_core.py:717-724 | every format writes only regular files the glob yielded |
| Core.ArchiveFile.Open | src/archivefile/_core.py:77-116 | fails iff `Core.OpenSpec` fails, with its error; otherwise one fresh adapter of the dispatched format, with the file, password and listing unaltered and no calls |
| Core.ArchiveFile.File | src/archivefile/_core.py:126-129 | the adapter's file |
| Core.ArchiveFile.Mode | src/archivefile/_core.py:131-134 | the adapter's mode |
| Core.ArchiveFile.Password | src/archivefile/_core.py:136-139 | the adapter's password |
| Core.ArchiveFile.GetNames | src/archivefile/_core.py:215 | the names of the adapter's listing |
| Core.ArchiveFile.GetMembers | src/archivefile/_core.py:190 | one member per name of `get_names()`, with that name |
| Core.ArchiveFile.GetMember | src/archivefile/_core.py:166 | KeyError for the reported name iff the looked-up name is not among the library's keys; otherwise a member of `get_members()` named by the looked-up name (for rar, whose name without trailing slashes is the looked-up name) |
| Core.ArchiveFile.ReadBytes | src/archivefile/_core.py:433 | the result and the new call log are those of `Core.ReadSpec` |
| Core.ArchiveFile.Extract | src/archivefile/_core.py:362 | the result and the new call log are those of `Core.ExtractSpec` |
| Core.ArchiveFile.ExtractAll | src/archivefile/_core.py:405 | the result and the new call log are those of `Core.ExtractAllSpec` |
| Core.ArchiveFile.Write | src/archivefile/_core.py:538-540 | corrected forwarding: the result and the new call log are those of `Core.WriteSpec` |
| Core.ArchiveFile.WriteAsWritten | src/archivefile/_core.py:538-540 | as written: TypeError with no call for tar, 7z and rar; `Core.WriteSpec` for zip |
| Core.ArchiveFile.WriteText | src/archivefile/_core.py:598-600 | corrected forwarding: the result and the new call log are those of `Core.WriteTextSpec` |
| Core.ArchiveFile.WriteTextAsWritten | src/archivefile/_core.py:598-600 | as written: TypeError with no call for tar, 7z and rar; `Core.WriteTextSpec` for zip |
| Core.ArchiveFile.WriteBytes | src/archivefile/_core.py:652-654 | corrected forwarding: the result and the new call log are those of `Core.WriteBytesSpec` |
| Core.ArchiveFile.WriteBytesAsWritten | src/archivefile/_core.py:652-654 | as written: TypeError with no call for tar, 7z and rar; `Core.WriteBytesSpec` for zip |
| Core.ArchiveFile.WriteAll | src/archivefile/_core.py:717-724 | corrected forwarding: the result and the new call log are those of `Core.WriteAllSpec` |
| Core.ArchiveFile.WriteAllAsWritten | src/archivefile/_core.py:717-724 | as written: TypeError with no call for tar, 7z and rar; `Core.WriteAllSpec` for zip |
| Core.ArchiveFile.Close | src/archivefile/_core.py:744 | the adapter issues one close call |
| Core.ArchiveFile.Exit | src/archivefile/_core.py:121-124 | leaving the context closes the adapter, as `close()` does |
| Core.ArchiveFile.Repr | src/archivefile/_core.py:746-747 | the facade repr of the adapter's class name, the file, the requested mode and the raw password |

## Left out

- `realpath` (`expanduser`, `resolve`), `exists`, `is_file`, `is_dir`, `mkdir`, `glob` and `rglob` are filesystem I/O. Paths arrive already resolved, the filesystem is a map from paths to nodes, and the glob result is a parameter that lies below the directory.
- The content probes (`is_zipfile`, `is_tarfile`, `is_7zfile`, `is_rarfile`, `is_rarfile_sfx`) are calls into the libraries. They are booleans given to `Utils.IsArchive` and `Core.Dispatch`.
- The four libraries are foreign: decompression, encryption, tar's extraction filter, and what py7zr's `reset()` does. An archive is its listing (`seq<Entry>`), and each library call is recorded, in order, in the adapter's call log.
- Core.ArchiveFile.WriteText: the libraries do not update the modelled listing after a write, so the round trip of writing a member and then reading or listing it is not stated.
- `print_tree` and `print_table` only render text through bigtree and rich.
- `read_text` is `read_bytes` followed by codec decoding with an error handler, which is library behaviour.
- The `datetime` field of `ArchiveMember` and its timezone handling are not modelled. The other fields are.
- `ArchiveMember`'s sizes are `ByteSize` values; they are modelled as `nat`.
- `pydantic.validate_call` argument coercion is not modelled, and neither are the `**kwargs` passed through to the libraries' constructors.
- `CompressionType.get` is called by the tests but not defined in `src/archivefile/_enums.py`, so there is nothing to model.
- The BaseArchiveAdapter protocol is modelled as the closed datatype `Core.Adapter` over the four adapter classes. The facade dispatches with `match`; an open-ended protocol is not available.
- Strings.Lower: `str.lower()` is modelled on ASCII letters only. The extensions the dispatcher matches are ASCII.
- Paths are PurePosixPath values. Windows path flavours are not modelled.
- Core.OpenSpec: the tar adapter passes the mode to `tarfile.open` unchanged. Of tarfile's own errors only FileExistsError for an exclusive-create mode on an existing file is modelled (`Tar.OpenMode`); its ValueError for unknown modes or for appending to a compressed archive, and CompressionError for an unknown compression, are not.
- Zip.OpenMode, SevenZip.OpenMode: only the errors zipfile and py7zr raise before reading the file are modelled; a file that is not a valid archive of that format is not.
- Tar.ReadEntry: links are not modelled (an entry has no link target). tarfile's `extractfile` follows symbolic and hard links and reads an entry of unknown type as a regular file; the model reads every entry that is not a regular file as b"".
- Rar.ExtractAllEffect: with no members, rarfile is handed the empty set. What rarfile extracts for an empty set is not modelled.
- Rar.ExtractAllEffect: the adapter checks requested names against `namelist()` exactly (`src/archivefile/_adapters/_rar.py:210-216`), so a directory requested without its "/" is a KeyError here although `get_member` and `extract` find it.
- Zip.ExtractAllEffect: the names zipfile extracts before it reaches a missing name are not modelled. The model states the one library call and its KeyError.
- When a name is listed twice, the entry a library returns is fixed by the model. zipfile, tarfile, rarfile and py7zr's `read` take the last entry with the name; the 7z adapter's own lookup takes the first.
- `_types.py`, `_version.py`, `_compat.py`, `__init__.py` and `_exceptions.py` hold no logic. `CompressionLevel`'s range 0..9 is not enforced as a type; levels are plain integers.

## Findings

| source | as written | input that shows it | evidently intended | confidence | as-written member | corrected member |
|---|---|---|---|---|---|---|
| src/archivefile/_core.py:538-540 | `write` passes `compression_type` and `compression_level` to every adapter, but only the zip adapter declares them | `ArchiveFile("a.tar", "w").write("f.txt")`: Python raises TypeError before the tar adapter runs | the keywords only apply to zip and are ignored for other formats (docstring, lines 516-517) | not executed | Core.ArchiveFile.WriteAsWritten, Base.TarWriteRaisesTypeError | Core.ArchiveFile.Write, Base.FacadeWriteBindingCorrected |
| src/archivefile/_core.py:598-600 | `write_text` passes the same two keywords to every adapter | `ArchiveFile("a.7z", "w").write_text("x", arcname="x.txt")` raises TypeError | as above (lines 573-574) | not executed | Core.ArchiveFile.WriteTextAsWritten, Base.FacadeWriteBindingAsWritten | Core.ArchiveFile.WriteText, Base.FacadeWriteBindingCorrected |
| src/archivefile/_core.py:652-654 | `write_bytes` passes the same two keywords to every adapter | `ArchiveFile("a.tar", "w").write_bytes(b"x", arcname="x.bin")` raises TypeError | as above (lines 633-634) | not executed | Core.ArchiveFile.WriteBytesAsWritten, Base.FacadeWriteBindingAsWritten | Core.ArchiveFile.WriteBytes, Base.FacadeWriteBindingCorrected |
| src/archivefile/_core.py:717-724 | `writeall` passes the same two keywords to every adapter | `ArchiveFile("a.tar.gz", "w:gz").writeall("dir")` raises TypeError | as above (lines 694-695) | not executed | Core.ArchiveFile.WriteAllAsWritten, Base.FacadeWriteBindingAsWritten | Core.ArchiveFile.WriteAll, Base.FacadeWriteBindingCorrected |
