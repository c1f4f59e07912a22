/** The single-manifest adapters of pkg/projectid that go through Grep and
    Sed (Rust, Flutter) or a whole file (Go), and PythonProject's `IsMe`. */
module Adapters {
  import opened Wrappers
  import opened Errors
  import opened GoInt
  import opened GoStrings
  import opened FileSystem
  import opened Patterns
  import opened TextEdit
  import opened ProjectId
  import LineManifest
  import V = Version

  // ---------------------------------------------------------------------
  // Rust

  /** RustProject.GetVersion: any Grep failure is "version not found"; the
      capture is then parsed and a parse error returned as is. */
  function RustGet(fs: FS, workdir: Path): (r: Result<V.Version, Error>)
    ensures var p := PathJoin(workdir, CargoToml);
            Grep(fs, p, RustRegex).Err? ==> r == Err(VersionNotFound)
    ensures var p := PathJoin(workdir, CargoToml);
            Grep(fs, p, RustRegex).Ok? ==> r == V.Parse(Grep(fs, p, RustRegex).value)
  {
    FixedRegexesSound();
    match Grep(fs, PathJoin(workdir, CargoToml), RustRegex)
    case Err(_) => Err(VersionNotFound)
    case Ok(text) => V.Parse(text)
  }

  /** RustProject.SetVersion: Sed puts the full version text over the
      capture. */
  function RustSet(fs: FS, workdir: Path, v: V.Version): (r: Result<FS, Error>)
    ensures !IsRust(fs, workdir) ==> r == Err(NotExist(PathJoin(workdir, CargoToml)))
    ensures r.Ok? ==> Writes(fs, r.value, PathJoin(workdir, CargoToml))
  {
    FixedRegexesSound();
    Sed(fs, PathJoin(workdir, CargoToml), RustRegex, V.Format(v))
  }

  /** RustProject reads and writes the same span: the capture GetVersion
      parses is exactly what SetVersion replaces, and the rest of the file
      is kept. */
  lemma RustSetReplacesCapture(fs: FS, workdir: Path, v: V.Version)
    requires RustSet(fs, workdir, v).Ok?
    ensures var p := PathJoin(workdir, CargoToml);
            var data := fs[p].data;
            && IsFileAt(fs, p) && RustFind(data).Some?
            && var g := RustFind(data).value.group;
               && Grep(fs, p, RustRegex) == Ok(data[g.start..g.end])
               && RustSet(fs, workdir, v).value[p].data == data[..g.start] + V.Format(v) + data[g.end..]
  {
    FixedRegexesSound();
    var p := PathJoin(workdir, CargoToml);
    SedEffect(fs, p, RustRegex, V.Format(v));
    assert RustRegex.find(fs[p].data) == AsMatch(RustFind(fs[p].data));
  }

  // ---------------------------------------------------------------------
  // Flutter

  /** The version text of FlutterProject.GetVersion: the part before the
      first '+' is parsed, a parse error wrapped, and a non-empty part
      after it becomes the build. */
  function FlutterDecode(raw: string): (r: Result<V.Version, Error>)
    ensures var (base, build, _) := Cut(raw, '+');
            && (V.Parse(base).Err? ==> r == Err(ParseVersionFailed(V.Parse(base).error)))
            && (V.Parse(base).Ok? ==>
                  r.Ok? && r.value.build == build && r.value == V.Parse(base).value.(build := build))
  {
    var (base, build, _) := Cut(raw, '+');
    match V.Parse(base)
    case Err(e) => Err(ParseVersionFailed(e))
    case Ok(v) =>
      V.ParsedHasNoBuild(base);
      Ok(if build != [] then v.(build := build) else v)
  }

  function FlutterGet(fs: FS, workdir: Path): (r: Result<V.Version, Error>)
    ensures var p := PathJoin(workdir, PubspecYaml);
            Grep(fs, p, FlutterRegex).Err? ==> r == Err(VersionNotFound)
    ensures var p := PathJoin(workdir, PubspecYaml);
            Grep(fs, p, FlutterRegex).Ok? ==> r == FlutterDecode(Grep(fs, p, FlutterRegex).value)
  {
    FixedRegexesSound();
    match Grep(fs, PathJoin(workdir, PubspecYaml), FlutterRegex)
    case Err(_) => Err(VersionNotFound)
    case Ok(raw) => FlutterDecode(raw)
  }

  /** The text FlutterProject.SetVersion writes: "%d.%d.%d", then '+' and
      the build when there is one. The pre-release is dropped. */
  function FlutterValue(v: V.Version): (r: string)
    ensures r == V.Format(v.(prerelease := []))
  {
    Itoa(v.major) + "." + Itoa(v.minor) + "." + Itoa(v.patch) + V.Tag('+', v.build)
  }

  function FlutterSet(fs: FS, workdir: Path, v: V.Version): (r: Result<FS, Error>)
    ensures !IsFlutter(fs, workdir) ==> r == Err(NotExist(PathJoin(workdir, PubspecYaml)))
    ensures r.Ok? ==> Writes(fs, r.value, PathJoin(workdir, PubspecYaml))
  {
    FixedRegexesSound();
    Sed(fs, PathJoin(workdir, PubspecYaml), FlutterRegex, FlutterValue(v))
  }

  /** The text FlutterProject.GetVersion reads is exactly what SetVersion
      replaces, and the rest of pubspec.yaml is kept. */
  lemma FlutterSetReplacesCapture(fs: FS, workdir: Path, v: V.Version)
    requires FlutterSet(fs, workdir, v).Ok?
    ensures var p := PathJoin(workdir, PubspecYaml);
            var data := fs[p].data;
            && IsFileAt(fs, p) && FlutterFind(data).Some?
            && var g := FlutterFind(data).value.group;
               && Grep(fs, p, FlutterRegex) == Ok(data[g.start..g.end])
               && FlutterSet(fs, workdir, v).value[p].data == data[..g.start] + FlutterValue(v) + data[g.end..]
  {
    FixedRegexesSound();
    var p := PathJoin(workdir, PubspecYaml);
    SedEffect(fs, p, FlutterRegex, FlutterValue(v));
    assert FlutterRegex.find(fs[p].data) == AsMatch(FlutterFind(fs[p].data));
  }

  /** Decoding what FlutterProject writes gives the version back without its
      pre-release. */
  lemma FlutterValueDecodes(v: V.Version)
    requires V.WellFormed(v)
    ensures FlutterDecode(FlutterValue(v)) == Ok(v.(prerelease := []))
  {
    var core := v.(prerelease := [], build := []);
    var main := V.Format(core);
    CoreText(v);
    V.ParseFormat(core);
    if v.build != [] {
      assert FlutterValue(v) == main + ['+'] + v.build;
      CutAt(main, '+', v.build);
    } else {
      assert FlutterValue(v) == main;
    }
  }

  /** The "%d.%d.%d" part is the text of the version stripped of both
      optional parts, and holds no '+'. */
  lemma CoreText(v: V.Version)
    requires V.WellFormed(v)
    ensures var main := V.Format(v.(prerelease := [], build := []));
            && FlutterValue(v) == main + V.Tag('+', v.build)
            && '+' !in main
  {
    var main := Itoa(v.major) + "." + Itoa(v.minor) + "." + Itoa(v.patch);
    assert V.Format(v.(prerelease := [], build := [])) == main;
    DigitsCanonical(v.major);
    DigitsCanonical(v.minor);
    DigitsCanonical(v.patch);
    V.DigitsExclude(Itoa(v.major), '+');
    V.DigitsExclude(Itoa(v.minor), '+');
    V.DigitsExclude(Itoa(v.patch), '+');
  }

  /** The example of the Flutter adapter: "1.2.3+4" reads as 1.2.3 with
      build "4". */
  lemma FlutterDecodeExample()
    ensures FlutterDecode("1.2.3+4") == Ok(V.Version(1, 2, 3, "", "4"))
  {
    assert "1.2.3+4" == "1.2.3" + ['+'] + "4";
    CutAt("1.2.3", '+', "4");
    V.ParseBasic("1.2.3");
  }

  // ---------------------------------------------------------------------
  // Go

  const VersionTxt: string := "version.txt"

  /** GoProject's cached search: a path found earlier is reused; otherwise
      the tree under the working directory is searched once, and after that
      search an empty result is final too. Returns the path and the new
      cache. */
  function ResolveVersionFile(fs: FS, workdir: Path, cached: Path, found: bool): (r: (Path, Path, bool))
    requires WellFormed(fs)
    ensures r.0 == r.1 && (r.1 == [] ==> r.2)
    ensures cached != [] ==> r == (cached, cached, found)
    ensures cached == [] && found ==> r == ([], [], true)
    ensures cached == [] && !found ==> r.0 == FindFileDown(fs, workdir, VersionTxt).0
  {
    if cached != [] then (cached, cached, found)
    else if !found then
      var (p, _) := FindFileDown(fs, workdir, VersionTxt);
      (p, p, true)
    else ([], [], true)
  }

  /** Asking the cache a second time gives the same path and leaves it as
      it is, whatever the filesystem is by then. */
  lemma ResolveStable(fs: FS, fs2: FS, workdir: Path, cached: Path, found: bool)
    requires WellFormed(fs) && WellFormed(fs2)
    ensures var r := ResolveVersionFile(fs, workdir, cached, found);
            ResolveVersionFile(fs2, workdir, r.1, r.2) == r
  {
  }

  /** What the first search finds: a file named version.txt, in the working
      directory's tree or the working directory itself. */
  lemma ResolveFinds(fs: FS, workdir: Path)
    requires WellFormed(fs)
    ensures var r := ResolveVersionFile(fs, workdir, [], false);
            r.0 != [] ==> && Base(r.0) == VersionTxt
                          && (r.0 == workdir || (Listed(fs, r.0) && workdir < r.0))
  {
  }

  /** GoProject.GetVersion at the resolved path: an unreadable file is
      "version.txt not found" (`os.ReadFile("")` fails too); the trimmed
      content is parsed, a parse error wrapped with the path. */
  function GoGetAt(fs: FS, file: Path): (r: Result<V.Version, Error>)
    ensures file == [] || !IsFileAt(fs, file) ==> r == Err(VersionTxtNotFound)
    ensures file != [] && IsFileAt(fs, file) ==>
              var parsed := V.Parse(TrimSpace(fs[file].data));
              && (parsed.Ok? ==> r == parsed)
              && (parsed.Err? ==> r == Err(VersionTxtParseFailed(file, parsed.error)))
  {
    if file == [] then Err(VersionTxtNotFound)
    else match ReadFile(fs, file)
      case Err(_) => Err(VersionTxtNotFound)
      case Ok(data) =>
        match V.Parse(TrimSpace(data))
        case Err(e) => Err(VersionTxtParseFailed(file, e))
        case Ok(v) => Ok(v)
  }

  /** GoProject.SetVersion at the resolved path: no path is an error and
      writes nothing; otherwise `os.Create` truncates or creates the file
      and the version text is written with no newline. */
  function GoSetAt(fs: FS, file: Path, v: V.Version): (r: Result<FS, Error>)
    ensures file == [] ==> r == Err(VersionTxtMissing)
    ensures file != [] ==> r == WriteFile(fs, file, V.Format(v), true)
  {
    if file == [] then Err(VersionTxtMissing) else WriteFile(fs, file, V.Format(v), true)
  }

  /** Reading back a version GoProject wrote gives that version. */
  lemma GoSetThenGet(fs: FS, file: Path, v: V.Version)
    requires V.WellFormed(v) && GoSetAt(fs, file, v).Ok?
    ensures GoGetAt(GoSetAt(fs, file, v).value, file) == Ok(v)
  {
    var text := V.Format(v);
    V.FormatChars(v);
    assert !IsSpace(text[0]) && !IsSpace(text[|text| - 1]) by {
      assert V.VersionChar(text[0]) && V.VersionChar(text[|text| - 1]);
    }
    TrimSpaceKeeps(text);
    V.ParseFormat(v);
  }

  /** Trailing spaces and newlines after the version in version.txt are
      ignored. */
  lemma GoReadsTrimmed(fs: FS, file: Path, x: string, post: string)
    requires file != [] && IsFileAt(fs, file) && fs[file].data == x + post
    requires AllSpace(post) && |x| > 0 && !IsSpace(x[0]) && !IsSpace(x[|x| - 1])
    ensures GoGetAt(fs, file) == (if V.Parse(x).Ok? then V.Parse(x) else Err(VersionTxtParseFailed(file, V.Parse(x).error)))
  {
    TrimSpaceOf([], x, post);
    assert [] + x + post == x + post;
  }

  /** A version.txt holding "1.2.3" and a newline reads as 1.2.3. */
  lemma GoTrailingNewline(fs: FS, file: Path, x: string)
    requires x == "1.2.3"
    requires file != [] && IsFileAt(fs, file) && fs[file].data == x + "\n"
    ensures GoGetAt(fs, file) == Ok(V.Version(1, 2, 3, "", ""))
  {
    assert !IsSpace(x[0]) && !IsSpace(x[|x| - 1]);
    assert AllSpace("\n");
    GoReadsTrimmed(fs, file, x, "\n");
    V.ParseBasic(x);
  }

  // ---------------------------------------------------------------------
  // PythonProject.IsMe

  /** PythonProject.IsMe as written: it calls `isNode`, so it looks for
      package.json. */
  predicate PythonIsMeAsWritten(fs: FS, workdir: Path) {
    IsNode(fs, workdir)
  }

  /** A directory with only a pyproject.toml, whose version PythonProject
      reads, is not recognised as a Python project by the code as written. */
  lemma PythonIsMeMissesPyproject()
    ensures var fs := map[["w", PyprojectToml] := File("version = \"1.0.0\"\n", true)];
            && LineManifest.ScanFile(fs, PathJoin(["w"], PyprojectToml)).Ok?
            && !PythonIsMeAsWritten(fs, ["w"])
  {
    var fs := map[["w", PyprojectToml] := File("version = \"1.0.0\"\n", true)];
    assert PathJoin(["w"], PyprojectToml) == ["w", PyprojectToml];
    assert PathJoin(["w"], PackageJson)[1] == PackageJson != PyprojectToml by {
      assert |PackageJson| == 12 && |PyprojectToml| == 14;
    }
  }

  /** PythonProject.IsMe as intended: `isPython`. */
  predicate PythonIsMe(fs: FS, workdir: Path) {
    IsPython(fs, workdir)
  }

  /** The intended check agrees with the manifest the adapter opens: it
      holds exactly when GetVersion gets past opening pyproject.toml. */
  lemma PythonIsMeMatchesManifest(fs: FS, workdir: Path)
    ensures PythonIsMe(fs, workdir) <==> LineManifest.ScanFile(fs, PathJoin(workdir, PyprojectToml)).Ok?
  {
  }
}
