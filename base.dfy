/** What the four adapters share: their class names, the password-masking `__repr__` of the
    adapter protocol, the facade's own `__repr__`, and the keyword arguments each adapter's
    write operations accept. */
module Base {
  import opened Results
  import opened Strings
  import opened Paths
  import opened Enums
  import opened Utils
  import opened Native

  /** `adapter.__class__.__name__` for the adapter of each format. */
  function ClassName(f: Format): (s: string)
    ensures EndsWith(s, "FileAdapter")
  {
    match f
    case Zip => "ZipFileAdapter"
    case Tar => "TarFileAdapter"
    case SevenZip => "SevenZipFileAdapter"
    case Rar => "RarFileAdapter"
  }

  lemma ClassNamesDistinct(f: Format, g: Format)
    ensures ClassName(f) == ClassName(g) <==> f == g
  {
  }

  /** A password is "truthy" when it is present and non-empty. */
  predicate Truthy(password: Option<string>) {
    password.Some? && password.value != ""
  }

  /** The text the adapter repr shows for the password: a fixed mask, or None. */
  function MaskedPassword(password: Option<string>): (s: string)
    ensures Truthy(password) ==> s == "\"********\""
    ensures !Truthy(password) ==> s == "None"
  {
    if Truthy(password) then "\"********\"" else "None"
  }

  /** The adapter repr: `ClassName("file", "mode", password=<mask or None>)`. */
  function AdapterRepr(cls: string, file: Path, mode: string, password: Option<string>): (s: string)
    ensures StartsWith(s, cls + "(\"")
    ensures EndsWith(s, "password=" + MaskedPassword(password) + ")")
  {
    var prefix := cls + "(\"" + AsPosix(file) + "\", \"" + mode + "\", ";
    var tail := "password=" + MaskedPassword(password) + ")";
    assert prefix + tail == (cls + "(\"") + (AsPosix(file) + "\", \"" + mode + "\", " + tail);
    prefix + tail
  }

  /** The adapter repr never depends on the password text: any two truthy passwords, and
      likewise None and "", give the same repr. */
  lemma AdapterReprHidesPassword(cls: string, file: Path, mode: string, p: Option<string>, q: Option<string>)
    requires Truthy(p) == Truthy(q)
    ensures AdapterRepr(cls, file, mode, p) == AdapterRepr(cls, file, mode, q)
  {
  }

  /** A truthy and a falsy password are told apart by the repr. */
  lemma AdapterReprShowsPresence(cls: string, file: Path, mode: string, p: Option<string>, q: Option<string>)
    requires Truthy(p) && !Truthy(q)
    ensures AdapterRepr(cls, file, mode, p) != AdapterRepr(cls, file, mode, q)
  {
    var s := AdapterRepr(cls, file, mode, p);
    var t := AdapterRepr(cls, file, mode, q);
    assert s[|s| - 2] == '"';
    assert t[|t| - 2] == 'e';
  }

  /** `f"{password}"` for `str | None` */
  function PasswordText(password: Option<string>): string {
    if password.Some? then password.value else "None"
  }

  /** The facade repr: the adapter's class name, the resolved file, the mode as requested, and
      `password="<text>"` with the raw password text. */
  function FacadeRepr(cls: string, file: Path, mode: string, password: Option<string>): (s: string)
    ensures StartsWith(s, cls + "(\"")
    ensures EndsWith(s, "password=\"" + PasswordText(password) + "\")")
  {
    var prefix := cls + "(\"" + AsPosix(file) + "\", \"" + mode + "\", ";
    var tail := "password=\"" + PasswordText(password) + "\")";
    assert prefix + tail == (cls + "(\"") + (AsPosix(file) + "\", \"" + mode + "\", " + tail);
    prefix + tail
  }

  /** Unlike the adapter repr, the facade repr reveals the password: two different password
      texts always give two different reprs. */
  lemma FacadeReprRevealsPassword(cls: string, file: Path, mode: string, p: string, q: string)
    requires p != q
    ensures FacadeRepr(cls, file, mode, Some(p)) != FacadeRepr(cls, file, mode, Some(q))
  {
    var prefix := cls + "(\"" + AsPosix(file) + "\", \"" + mode + "\", password=\"";
    var s := FacadeRepr(cls, file, mode, Some(p));
    var t := FacadeRepr(cls, file, mode, Some(q));
    assert s == prefix + p + "\")";
    assert t == prefix + q + "\")";
    assert s[|prefix|..|s| - 2] == p;
    assert t[|prefix|..|t| - 2] == q;
  }

  /** Whether an adapter's write, write_text, write_bytes and writeall declare the
      `compression_type` and `compression_level` keywords: only the zip adapter's do. */
  predicate AcceptsCompressionKeywords(f: Format) {
    f == Zip
  }

  /** Python's binding of a keyword call: passing a keyword the callee does not declare
      raises TypeError before the callee runs. */
  function BindWriteKeywords(f: Format, passesCompression: bool): (r: Outcome)
    ensures r.Pass? <==> (!passesCompression || AcceptsCompressionKeywords(f))
    ensures r.Fail? ==> r.error == TypeError
  {
    if passesCompression && !AcceptsCompressionKeywords(f) then Fail(TypeError) else Pass
  }

  /** As written, the facade passes the compression keywords to every adapter's write
      operations, so the call only binds for zip. */
  lemma FacadeWriteBindingAsWritten(f: Format)
    ensures BindWriteKeywords(f, true) == (if f == Zip then Pass else Fail(TypeError))
  {
  }

  /** A concrete case: writing through the facade into a tar archive. */
  lemma TarWriteRaisesTypeError()
    ensures BindWriteKeywords(Tar, true) == Fail(TypeError)
  {
  }

  /** Whether the corrected facade passes the compression keywords: only to adapters that
      declare them. */
  function PassesCompressionKeywords(f: Format): (b: bool)
    ensures b <==> AcceptsCompressionKeywords(f)
  {
    f == Zip
  }

  /** Corrected forwarding always binds, for every format. */
  lemma FacadeWriteBindingCorrected(f: Format)
    ensures BindWriteKeywords(f, PassesCompressionKeywords(f)) == Pass
  {
  }

  /** `[get_member_name(m) for m in members]` */
  function MemberNames(members: seq<MemberRef>): (r: seq<string>)
    ensures |r| == |members|
    ensures forall i :: 0 <= i < |members| ==> r[i] == GetMemberName(members[i])
  {
    seq(|members|, i requires 0 <= i < |members| => GetMemberName(members[i]))
  }

  /** The names of a request split anywhere are the names of its two halves. */
  lemma MemberNamesSplit(ms: seq<MemberRef>, k: nat)
    requires k <= |ms|
    ensures MemberNames(ms[..k]) + MemberNames(ms[k..]) == MemberNames(ms)
  {
    var a := MemberNames(ms[..k]);
    var b := MemberNames(ms[k..]);
    forall i | 0 <= i < |ms|
      ensures (a + b)[i] == MemberNames(ms)[i]
    {
      if i < k {
        assert (a + b)[i] == a[i];
      } else {
        assert (a + b)[i] == b[i - k];
      }
    }
  }

  /** write's archive name: the one given, else the source file's basename. */
  function DefaultArcname(file: Path, arcname: Option<StrPath>): (r: StrPath)
    ensures arcname.Some? ==> r == arcname.value
    ensures arcname.None? ==> r == ByName(Name(file))
  {
    if arcname.Some? then arcname.value else ByName(Name(file))
  }

  /** writeall's checks before any file is written: `dir` must be a directory, and it must
      lie below the root, which defaults to the directory's parent. The root in force. */
  function WriteAllRoot(fs: FileSystem, dir: Path, root: Option<Path>): (r: Result<Path>)
    ensures !IsDir(fs, dir) ==> r == Err(ValueError)
    ensures IsDir(fs, dir) && root.None? ==> r == Ok(Parent(dir))
    ensures IsDir(fs, dir) && root.Some? ==> r == (if IsRelativeTo(dir, root.value) then Ok(root.value) else Err(ValueError))
    ensures r.Ok? ==> IsRelativeTo(dir, r.value)
  {
    if !IsDir(fs, dir) then Err(ValueError)
    else
      var rt := if root.Some? then root.value else Parent(dir);
      ParentContains(dir);
      if IsRelativeTo(dir, rt) then Ok(rt) else Err(ValueError)
  }

  /** Every glob match below `dir` lies below any root `dir` lies below. */
  lemma MatchesBelowRoot(matches: seq<Path>, dir: Path, root: Path)
    requires BelowDir(matches, dir) && IsRelativeTo(dir, root)
    ensures forall x :: x in matches ==> IsRelativeTo(x, root)
  {
    forall x | x in matches
      ensures IsRelativeTo(x, root)
    {
      IsRelativeToTransitive(x, dir, root);
    }
  }

  /** The archive name of a match, relative to the root; with the default root it starts with
      the directory's own name. */
  lemma DefaultRootKeepsDirName(fs: FileSystem, dir: Path, x: Path)
    requires IsDir(fs, dir) && dir.parts != []
    requires IsRelativeTo(x, dir) && |x.parts| > |dir.parts|
    ensures WriteAllRoot(fs, dir, None).Ok?
    ensures IsRelativeTo(x, WriteAllRoot(fs, dir, None).value)
    ensures RelativeTo(x, WriteAllRoot(fs, dir, None).value).parts[0] == Name(dir)
  {
    var rt := Parent(dir);
    IsRelativeToTransitive(x, dir, rt);
    assert x.parts[|rt.parts|] == dir.parts[|rt.parts|];
  }
}
