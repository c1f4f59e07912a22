/** pkg/projectid: the `Project` interface over the five single-manifest
    kinds and the two composite kinds, `ProjectID.Project`, and the
    composites' scan, agreement check and sequential write.

    A method with a pointer receiver that updates a field (GoProject's
    cached path, a composite's scanned members) becomes a function that
    also returns the updated project. */
module Projects {
  import opened Wrappers
  import opened Errors
  import opened FileSystem
  import opened Patterns
  import opened ProjectId
  import opened Adapters
  import opened TextEdit
  import LineManifest
  import V = Version

  /** A project and the state its methods keep. A composite's empty member
      list is Go's nil slice: never scanned, or scanned and nothing found. */
  datatype Project =
    | PythonProject(workdir: Path)
    | NodeProject(workdir: Path)
    | GoProject(workdir: Path, versionFile: Path, versionFileFound: bool)
    | FlutterProject(workdir: Path)
    | RustProject(workdir: Path)
    | MixProject(workdir: Path, projects: seq<Project>)
    | MultipleProject(workdir: Path, projects: seq<Project>)

  /** What the composites take from outside the files they are declared
      in: the order kinds are tried in (`projectDetectionOrder`), the
      checker of each kind that has one (`projectCheckers`), and the value
      of the `Multiple` kind. */
  datatype Config = Config(order: seq<int>, checkers: map<int, (FS, Path) -> bool>, multiple: int)

  predicate IsComposite(p: Project) {
    p.MixProject? || p.MultipleProject?
  }

  predicate Leaf(p: Project) {
    !IsComposite(p)
  }

  /** `ID()`. */
  function ID(p: Project, cfg: Config): (r: int)
    ensures p.MultipleProject? ==> r == cfg.multiple
    ensures !p.MultipleProject? ==> Known(r) && (p.MixProject? <==> r == Mix)
  {
    match p
    case PythonProject(_) => Python
    case NodeProject(_) => ProjectId.Node
    case GoProject(_, _, _) => Go
    case FlutterProject(_) => Flutter
    case RustProject(_) => Rust
    case MixProject(_, _) => Mix
    case MultipleProject(_, _) => cfg.multiple
  }

  function Ids(ms: seq<Project>, cfg: Config): seq<int> {
    seq(|ms|, i requires 0 <= i < |ms| => ID(ms[i], cfg))
  }

  lemma IdsCons(sub: Project, rest: seq<Project>, cfg: Config)
    ensures Ids([sub] + rest, cfg) == [ID(sub, cfg)] + Ids(rest, cfg)
  {
    var l := [sub] + rest;
    assert forall i :: 0 < i < |l| ==> l[i] == rest[i - 1];
  }

  // ---------------------------------------------------------------------
  // Building and scanning

  /** Whether a scan that skips `skip` keeps kind `id`: it has a checker,
      the checker accepts the directory, and `Project` builds something
      for it. */
  predicate Kept(id: int, skip: int, wd: Path, fs: FS, cfg: Config) {
    id != skip && id in cfg.checkers && cfg.checkers[id](fs, wd) && Known(id)
  }

  /** The kinds of `order` a scan keeps, in order. */
  function KeptIds(order: seq<int>, skip: int, wd: Path, fs: FS, cfg: Config): seq<int> {
    if order == [] then []
    else (if Kept(order[0], skip, wd, fs, cfg) then [order[0]] else []) + KeptIds(order[1..], skip, wd, fs, cfg)
  }

  /** `ProjectID.Project`: a fresh project of a known kind, a Mix one
      already scanned, and Go's nil for any other value. Only Mix is ever
      composite, and the result reports the kind it was asked for. */
  function ProjectFor(id: int, wd: Path, fs: FS, cfg: Config): (r: Option<Project>)
    ensures r.Some? <==> Known(id)
    ensures r.Some? ==> ID(r.value, cfg) == id && r.value.workdir == wd && !r.value.MultipleProject?
    ensures r.Some? && id != Mix ==> Leaf(r.value)
    ensures id == Mix ==>
              r.value.MixProject? && Ids(r.value.projects, cfg) == KeptIds(cfg.order, Mix, wd, fs, cfg)
    decreases if id == Mix then 2 else 0, 0
  {
    if id == Mix then Some(MixProject(wd, ScanOrder(cfg.order, Mix, wd, fs, cfg)))
    else if id == Python then Some(PythonProject(wd))
    else if id == Go then Some(GoProject(wd, [], false))
    else if id == ProjectId.Node then Some(NodeProject(wd))
    else if id == Flutter then Some(FlutterProject(wd))
    else if id == Rust then Some(RustProject(wd))
    else None
  }

  /** The loop of `scanProjects`: one member per kept kind, in the order
      the kinds are tried. A Mix scan only ever holds single-manifest
      members. */
  function ScanOrder(order: seq<int>, skip: int, wd: Path, fs: FS, cfg: Config): (r: seq<Project>)
    ensures Ids(r, cfg) == KeptIds(order, skip, wd, fs, cfg)
    ensures forall i :: 0 <= i < |r| ==> r[i].workdir == wd && !r[i].MultipleProject?
    ensures skip == Mix ==> forall i :: 0 <= i < |r| ==> Leaf(r[i])
    decreases if skip == Mix then 1 else 3, |order|
  {
    if order == [] then []
    else
      var rest := ScanOrder(order[1..], skip, wd, fs, cfg);
      if !Kept(order[0], skip, wd, fs, cfg) then rest
      else
        var sub := ProjectFor(order[0], wd, fs, cfg).value;
        IdsCons(sub, rest, cfg);
        [sub] + rest
  }

  /** A kind is among the scanned members exactly when it is tried and
      kept. */
  lemma {:induction false} KeptIdsMembers(order: seq<int>, skip: int, wd: Path, fs: FS, cfg: Config, id: int)
    ensures id in KeptIds(order, skip, wd, fs, cfg) <==> id in order && Kept(id, skip, wd, fs, cfg)
  {
    if order != [] {
      KeptIdsMembers(order[1..], skip, wd, fs, cfg, id);
      assert id in order <==> id == order[0] || id in order[1..];
    }
  }

  /** Trying each kind once means each kept kind is scanned once. */
  lemma {:induction false} KeptIdsDistinct(order: seq<int>, skip: int, wd: Path, fs: FS, cfg: Config)
    requires Distinct(order)
    ensures Distinct(KeptIds(order, skip, wd, fs, cfg))
  {
    if order != [] {
      var rest := KeptIds(order[1..], skip, wd, fs, cfg);
      KeptIdsDistinct(order[1..], skip, wd, fs, cfg);
      KeptIdsMembers(order[1..], skip, wd, fs, cfg, order[0]);
      assert order[0] !in order[1..] by {
        forall j | 0 <= j < |order[1..]| ensures order[1..][j] != order[0] {
          assert order[1..][j] == order[j + 1];
        }
      }
    }
  }

  /** The kind a composite skips when scanning: itself. */
  function SkipOf(p: Project, cfg: Config): int
    requires IsComposite(p)
  {
    if p.MixProject? then Mix else cfg.multiple
  }

  /** `scanProjects` with its cache: members found once are kept; an empty
      list is scanned again. */
  function Scan(p: Project, fs: FS, cfg: Config): (r: Project)
    requires IsComposite(p)
    ensures IsComposite(r) && r.MixProject? == p.MixProject? && r.workdir == p.workdir
    ensures p.projects != [] ==> r == p
    ensures p.projects == [] ==> Ids(r.projects, cfg) == KeptIds(cfg.order, SkipOf(p, cfg), p.workdir, fs, cfg)
  {
    if p.projects != [] then p
    else p.(projects := ScanOrder(cfg.order, SkipOf(p, cfg), p.workdir, fs, cfg))
  }

  /** Scanning is cached: a second scan, against any filesystem, changes
      nothing once a member was found, and against the same filesystem
      changes nothing at all. */
  lemma ScanCached(p: Project, fs: FS, fs2: FS, cfg: Config)
    requires IsComposite(p)
    ensures Scan(p, fs, cfg).projects != [] ==> Scan(Scan(p, fs, cfg), fs2, cfg) == Scan(p, fs, cfg)
    ensures Scan(Scan(p, fs, cfg), fs, cfg) == Scan(p, fs, cfg)
  {
  }

  /** The file whose presence `IsMe` checks, in the directory it is given. */
  function Marker(p: Project): string
    requires Leaf(p)
  {
    match p
    case PythonProject(_) => PyprojectToml
    case NodeProject(_) => PackageJson
    case GoProject(_, _, _) => GoMod
    case FlutterProject(_) => PubspecYaml
    case RustProject(_) => CargoToml
  }

  /** The file a single-manifest project reads and writes. */
  function Target(p: Project): Path
    requires Leaf(p)
  {
    match p
    case PythonProject(wd) => PathJoin(wd, PyprojectToml)
    case NodeProject(wd) => PathJoin(wd, PackageJson)
    case GoProject(_, file, _) => file
    case FlutterProject(wd) => PathJoin(wd, PubspecYaml)
    case RustProject(wd) => PathJoin(wd, CargoToml)
  }

  /** `IsMe(workdir)`. A single-manifest project looks for its marker file
      in the directory it is given, whatever its own; PythonProject's check
      is the intended one (see PythonIsMe). A composite answers for its own
      directory only, scanning there, and claims it when more than one
      kind is present. */
  function IsMe(p: Project, wd: Path, fs: FS, cfg: Config): (r: (bool, Project))
    ensures Leaf(p) ==> r.1 == p
    ensures Leaf(p) ==> (r.0 <==> PathJoin(wd, Marker(p)) in fs)
    ensures p.PythonProject? ==> (r.0 <==> LineManifest.ScanFile(fs, PathJoin(wd, PyprojectToml)).Ok?)
    ensures IsComposite(p) && wd != p.workdir ==> r == (false, p)
    ensures IsComposite(p) && wd == p.workdir ==> r.1 == Scan(p, fs, cfg)
    ensures IsComposite(p) && wd == p.workdir ==> (r.0 <==> |r.1.projects| > 1)
    ensures IsComposite(p) && wd == p.workdir && p.projects == [] ==>
              (r.0 <==> |KeptIds(cfg.order, SkipOf(p, cfg), wd, fs, cfg)| > 1)
  {
    match p
    case PythonProject(_) =>
      PythonIsMeMatchesManifest(fs, wd);
      (PythonIsMe(fs, wd), p)
    case NodeProject(_) => (IsNode(fs, wd), p)
    case GoProject(_, _, _) => (IsGo(fs, wd), p)
    case FlutterProject(_) => (IsFlutter(fs, wd), p)
    case RustProject(_) => (IsRust(fs, wd), p)
    case _ =>
      if wd != p.workdir then (false, p)
      else
        var q := Scan(p, fs, cfg);
        (|q.projects| > 1, q)
  }

  // ---------------------------------------------------------------------
  // Reading the version

  /** `GetVersion()` of a single-manifest project: only GoProject's cached
      path changes, and once the search has run the path is settled. */
  function GetLeaf(p: Project, fs: FS): (r: (Result<V.Version, Error>, Project))
    requires Leaf(p) && WellFormed(fs)
    ensures Leaf(r.1) && r.1.workdir == p.workdir && Marker(r.1) == Marker(p)
    ensures !p.GoProject? ==> r.1 == p
    ensures p.GoProject? ==> r.1.GoProject? && (r.1.versionFile == [] ==> r.1.versionFileFound)
  {
    match p
    case PythonProject(wd) => (LineManifest.GetVersion(fs, PathJoin(wd, PyprojectToml), PythonKey, '='), p)
    case NodeProject(wd) => (LineManifest.GetVersion(fs, PathJoin(wd, PackageJson), NodeKey, ':'), p)
    case GoProject(wd, cached, found) =>
      var (file, c, f) := ResolveVersionFile(fs, wd, cached, found);
      (GoGetAt(fs, file), GoProject(wd, c, f))
    case FlutterProject(wd) => (FlutterGet(fs, wd), p)
    case RustProject(wd) => (RustGet(fs, wd), p)
  }

  /** What reading a project gives: its version or error, and the state
      the project is left in. */
  type Read = (Result<V.Version, Error>, Project)

  /** `GetVersion()`. A composite does not scan: it reads the members it
      already holds, and fails when it holds none. */
  function GetVersion(p: Project, fs: FS, cfg: Config): (r: Read)
    requires WellFormed(fs)
    ensures r.1.workdir == p.workdir && ID(r.1, cfg) == ID(p, cfg)
    ensures IsComposite(p) ==> IsComposite(r.1) && |r.1.projects| == |p.projects|
    ensures Leaf(p) ==> r == GetLeaf(p, fs)
    decreases p, 1
  {
    if Leaf(p) then GetLeaf(p, fs)
    else if p.projects == [] then (Err(NoProjects(p.workdir)), p)
    else
      var (res, ms) := AgreeFrom(p.projects, Reads(p.projects, fs, cfg), 0, None, cfg);
      (res, p.(projects := ms))
  }

  /** Each member read on its own. A read changes nothing but the state of
      the member read, so the composite's loop, which reads its members in
      turn until one fails or disagrees, is the loop below over these
      reads: it takes the state of the members it reached and leaves the
      others as they were. */
  function Reads(ms: seq<Project>, fs: FS, cfg: Config): (r: seq<Read>)
    requires WellFormed(fs)
    ensures |r| == |ms| && forall j :: 0 <= j < |ms| ==> r[j] == GetVersion(ms[j], fs, cfg)
    decreases ms, 0
  {
    if ms == [] then [] else [GetVersion(ms[0], fs, cfg)] + Reads(ms[1..], fs, cfg)
  }

  /** The loop of a composite's GetVersion from member `i` on: `first` is
      the first member's version and kind once read. A member's error is
      wrapped with its kind; a member whose version differs from the first
      one's in any part, build included, stops the loop. Returns the
      members from `i` on as they are afterwards. */
  function AgreeFrom(ms: seq<Project>, rs: seq<Read>, i: nat, first: Option<(V.Version, int)>, cfg: Config)
    : (r: (Result<V.Version, Error>, seq<Project>))
    requires |rs| == |ms| && 0 < |ms| && i <= |ms| && (first.None? <==> i == 0)
    ensures |r.1| == |ms| - i
    ensures r.0.Ok? && first.Some? ==> r.0.value == first.value.0
    ensures r.0.Ok? && i < |ms| ==> rs[i].0 == Ok(r.0.value)
    decreases |ms| - i
  {
    if i == |ms| then (Ok(first.value.0), [])
    else
      var (res, sub) := rs[i];
      match res
      case Err(e) => (Err(MemberFailed(ID(ms[i], cfg), e)), [sub] + ms[i + 1..])
      case Ok(v) =>
        if first.Some? && (first.value.0.build != v.build || !V.Equal(first.value.0, v)) then
          (Err(VersionMismatch(first.value.1, ID(ms[i], cfg))), [sub] + ms[i + 1..])
        else
          var (r2, rest) := AgreeFrom(ms, rs, i + 1, Following(first, v, ID(ms[i], cfg)), cfg);
          (r2, [sub] + rest)
  }

  /** The first member's version and kind, once a member has been read. */
  function Following(first: Option<(V.Version, int)>, v: V.Version, id: int): (r: Option<(V.Version, int)>)
    ensures r.Some?
    ensures first.Some? ==> r == first
  {
    if first.None? then Some((v, id)) else first
  }

  /** Every member reads a version, the same one. */
  predicate AllAgree(rs: seq<Read>) {
    && |rs| > 0
    && rs[0].0.Ok?
    && forall j :: 0 <= j < |rs| ==> rs[j].0 == rs[0].0
  }

  /** The error a composite reports names member `k`: every member before it
      agreed with the first; `k` failed, and its error is wrapped with its
      kind, or `k` read a different version, and both kinds are named. */
  predicate Blames(ms: seq<Project>, rs: seq<Read>, k: nat, cfg: Config, err: Error)
    requires k < |ms| == |rs|
  {
    && (forall j :: 0 <= j < k ==> rs[j].0.Ok? && rs[j].0 == rs[0].0)
    && (rs[k].0.Err? ==> err == MemberFailed(ID(ms[k], cfg), rs[k].0.error))
    && (rs[k].0.Ok? ==>
          0 < k && rs[k].0 != rs[0].0 &&
          err == VersionMismatch(ID(ms[0], cfg), ID(ms[k], cfg)))
  }

  /** The loop from member `i` on, once members before `i` have agreed on `v0`. */
  lemma {:induction false} AgreeFromAgrees(ms: seq<Project>, rs: seq<Read>, i: nat, v0: V.Version, cfg: Config)
    requires |rs| == |ms| && 0 < i <= |ms|
    requires forall j :: 0 <= j < i ==> rs[j].0 == Ok(v0)
    ensures var r := AgreeFrom(ms, rs, i, Some((v0, ID(ms[0], cfg))), cfg).0;
            && (r.Ok? <==> forall j :: i <= j < |ms| ==> rs[j].0 == Ok(v0))
            && (r.Ok? ==> r == Ok(v0))
            && (r.Err? ==> exists k :: i <= k < |ms| && Blames(ms, rs, k, cfg, r.error))
    decreases |ms| - i
  {
    var r := AgreeFrom(ms, rs, i, Some((v0, ID(ms[0], cfg))), cfg).0;
    if i < |ms| {
      if rs[i].0 == Ok(v0) {
        AgreeFromAgrees(ms, rs, i + 1, v0, cfg);
        if r.Err? {
          var k :| i + 1 <= k < |ms| && Blames(ms, rs, k, cfg, r.error);
        }
      } else {
        assert Blames(ms, rs, i, cfg, r.error);
      }
    }
  }

  /** A composite reads a version exactly when it has members and all of
      them read the same one, and that is the version; otherwise the
      error names the first member that failed or disagreed. */
  lemma CompositeGet(p: Project, fs: FS, cfg: Config)
    requires IsComposite(p) && WellFormed(fs)
    ensures var ms := p.projects;
            var rs := Reads(ms, fs, cfg);
            var r := GetVersion(p, fs, cfg).0;
            && (ms == [] ==> r == Err(NoProjects(p.workdir)))
            && (r.Ok? <==> AllAgree(rs))
            && (r.Ok? ==> r == rs[0].0)
            && (r.Err? && ms != [] ==> exists k :: 0 <= k < |ms| && Blames(ms, rs, k, cfg, r.error))
  {
    if p.projects != [] {
      AgreeAll(p.projects, Reads(p.projects, fs, cfg), cfg);
    }
  }

  /** The whole loop over a non-empty member list. */
  lemma AgreeAll(ms: seq<Project>, rs: seq<Read>, cfg: Config)
    requires |rs| == |ms| > 0
    ensures var r := AgreeFrom(ms, rs, 0, None, cfg).0;
            && (r.Ok? <==> AllAgree(rs))
            && (r.Ok? ==> r == rs[0].0)
            && (r.Err? ==> exists k :: 0 <= k < |ms| && Blames(ms, rs, k, cfg, r.error))
  {
    var r := AgreeFrom(ms, rs, 0, None, cfg).0;
    if rs[0].0.Ok? {
      var v0 := rs[0].0.value;
      assert r == AgreeFrom(ms, rs, 1, Some((v0, ID(ms[0], cfg))), cfg).0;
      AgreeFromAgrees(ms, rs, 1, v0, cfg);
      if r.Err? {
        var k :| 1 <= k < |ms| && Blames(ms, rs, k, cfg, r.error);
      }
    } else {
      assert Blames(ms, rs, 0, cfg, r.error);
    }
  }

  /** Reading again with the state the first read left gives the same
      answer and the same state: GoProject's cached path and a composite's
      members change what is searched, never what is found. */
  lemma {:induction false} GetIdempotent(p: Project, fs: FS, cfg: Config)
    requires WellFormed(fs)
    ensures GetVersion(GetVersion(p, fs, cfg).1, fs, cfg) == GetVersion(p, fs, cfg)
    decreases p
  {
    if p.GoProject? {
      ResolveStable(fs, fs, p.workdir, p.versionFile, p.versionFileFound);
    } else if IsComposite(p) && p.projects != [] {
      var ms := p.projects;
      var rs := Reads(ms, fs, cfg);
      var ms1 := AgreeFrom(ms, rs, 0, None, cfg).1;
      AgreeFromKeeps(ms, rs, 0, None, cfg);
      forall j | 0 <= j < |ms| ensures GetVersion(ms1[j], fs, cfg) == rs[j] {
        GetIdempotent(ms[j], fs, cfg);
      }
      assert Reads(ms1, fs, cfg) == rs;
      AgreeRepeat(ms, ms1, rs, 0, None, cfg);
    }
  }

  /** The loop leaves each member as it was or as its read left it. */
  lemma {:induction false} AgreeFromKeeps(ms: seq<Project>, rs: seq<Read>, i: nat, first: Option<(V.Version, int)>, cfg: Config)
    requires |rs| == |ms| && 0 < |ms| && i <= |ms| && (first.None? <==> i == 0)
    ensures var out := AgreeFrom(ms, rs, i, first, cfg).1;
            forall j :: i <= j < |ms| ==> out[j - i] == ms[j] || out[j - i] == rs[j].1
    decreases |ms| - i
  {
    if i < |ms| && rs[i].0.Ok? {
      var v := rs[i].0.value;
      var next := Following(first, v, ID(ms[i], cfg));
      AgreeFromKeeps(ms, rs, i + 1, next, cfg);
      var out := AgreeFrom(ms, rs, i, first, cfg).1;
      var rest := AgreeFrom(ms, rs, i + 1, next, cfg).1;
      forall j | i < j < |ms| ensures out[j - i] == ms[j] || out[j - i] == rs[j].1 {
        if !(first.Some? && (first.value.0.build != v.build || !V.Equal(first.value.0, v))) {
          assert out[j - i] == rest[j - (i + 1)];
        }
      }
    }
  }

  /** Running the loop over the members it left behind (`ms2` from `i` on),
      whose reads are the same and whose kinds are the same, repeats it. */
  lemma {:induction false} AgreeRepeat(ms: seq<Project>, ms2: seq<Project>, rs: seq<Read>, i: nat,
                                       first: Option<(V.Version, int)>, cfg: Config)
    requires |rs| == |ms| == |ms2| && 0 < |ms| && i <= |ms| && (first.None? <==> i == 0)
    requires ms2[i..] == AgreeFrom(ms, rs, i, first, cfg).1
    requires forall j :: i <= j < |ms| ==> ID(rs[j].1, cfg) == ID(ms[j], cfg)
    ensures AgreeFrom(ms2, rs, i, first, cfg) == AgreeFrom(ms, rs, i, first, cfg)
    decreases |ms| - i
  {
    if i < |ms| {
      var out := AgreeFrom(ms, rs, i, first, cfg).1;
      assert ms2[i] == out[0] == rs[i].1;
      assert ms2[i + 1..] == out[1..];
      if rs[i].0.Ok? {
        var v := rs[i].0.value;
        if !(first.Some? && (first.value.0.build != v.build || !V.Equal(first.value.0, v))) {
          AgreeRepeat(ms, ms2, rs, i + 1, Following(first, v, ID(ms[i], cfg)), cfg);
        }
      }
    }
  }

  /** After an agreeing read every member has been read once, and holds the
      state that read left. */
  lemma {:induction false} AgreeFromMembers(ms: seq<Project>, rs: seq<Read>, i: nat, first: Option<(V.Version, int)>, cfg: Config)
    requires |rs| == |ms| && 0 < |ms| && i <= |ms| && (first.None? <==> i == 0)
    requires AgreeFrom(ms, rs, i, first, cfg).0.Ok?
    ensures var out := AgreeFrom(ms, rs, i, first, cfg).1;
            forall j :: i <= j < |ms| ==> out[j - i] == rs[j].1
    decreases |ms| - i
  {
    if i < |ms| {
      var next := Following(first, rs[i].0.value, ID(ms[i], cfg));
      AgreeFromMembers(ms, rs, i + 1, next, cfg);
      var out := AgreeFrom(ms, rs, i, first, cfg).1;
      var rest := AgreeFrom(ms, rs, i + 1, next, cfg).1;
      forall j | i < j < |ms| ensures out[j - i] == rs[j].1 {
        assert out[j - i] == rest[j - (i + 1)];
      }
    }
  }

  // ---------------------------------------------------------------------
  // Writing the version

  /** What `SetVersion` leaves behind: its error (`Pass` for nil), the
      filesystem and the project's new state. */
  datatype Effect = Effect(outcome: Outcome<Error>, fs: FS, project: Project)

  /** The files a project writes: its own manifest, or its members' files. */
  function Targets(p: Project): set<Path>
    decreases p, 0
  {
    if Leaf(p) then {Target(p)} else TargetsOf(p.projects)
  }

  function TargetsOf(ms: seq<Project>): set<Path>
    decreases ms, 1
  {
    if ms == [] then {} else Targets(ms[0]) + TargetsOf(ms[1..])
  }

  /** `fs2` differs from `fs` at most at the paths in `t`. */
  ghost predicate Changes(fs: FS, fs2: FS, t: set<Path>) {
    forall q :: q !in t ==> (q in fs <==> q in fs2) && (q in fs ==> fs2[q] == fs[q])
  }

  /** A single-manifest write: on success only the target has changed, on
      failure nothing has. */
  function Wrote(w: Result<FS, Error>, fs: FS, p: Project): (r: Effect)
    requires Leaf(p) && WellFormed(fs) && (w.Ok? ==> Writes(fs, w.value, Target(p)))
    ensures r.project == p && WellFormed(r.fs) && Changes(fs, r.fs, {Target(p)})
    ensures r.outcome.Fail? ==> r.fs == fs
  {
    match w
    case Ok(fs2) =>
      WritesKeepWellFormed(fs, fs2, Target(p));
      Effect(Pass, fs2, p)
    case Err(e) => Effect(Fail(e), fs, p)
  }

  /** A single-manifest project whose file is fixed: every kind but a
      GoProject that has not yet found its version.txt. */
  predicate Settled(p: Project) {
    Leaf(p) && (p.GoProject? ==> p.versionFile != [])
  }

  /** `SetVersion(v)` of a single-manifest project. */
  function SetLeaf(p: Project, fs: FS, v: V.Version): (r: Effect)
    requires Leaf(p) && WellFormed(fs)
    ensures Leaf(r.project) && r.project.workdir == p.workdir && Marker(r.project) == Marker(p)
    ensures WellFormed(r.fs) && Changes(fs, r.fs, {Target(r.project)})
    ensures r.outcome.Fail? ==> r.fs == fs
    ensures Settled(p) ==> r.project == p
  {
    match p
    case PythonProject(wd) => Wrote(LineManifest.SetVersion(fs, PathJoin(wd, PyprojectToml), PythonKey, '=', v), fs, p)
    case NodeProject(wd) => Wrote(LineManifest.SetVersion(fs, PathJoin(wd, PackageJson), NodeKey, ':', v), fs, p)
    case GoProject(wd, cached, found) =>
      var (file, c, f) := ResolveVersionFile(fs, wd, cached, found);
      Wrote(GoSetAt(fs, file, v), fs, GoProject(wd, c, f))
    case FlutterProject(wd) => Wrote(FlutterSet(fs, wd, v), fs, p)
    case RustProject(wd) => Wrote(RustSet(fs, wd, v), fs, p)
  }

  /** `SetVersion(v)`. Every write changes only the files the project
      names afterwards, and a single-manifest project that fails writes
      nothing. A composite without members fails; one with members writes
      them in order and stops at the first failure, wrapped with that
      member's kind, without undoing the writes before it. */
  function SetVersion(p: Project, fs: FS, v: V.Version, cfg: Config): (r: Effect)
    requires WellFormed(fs)
    ensures WellFormed(r.fs) && Changes(fs, r.fs, Targets(r.project))
    ensures r.project.workdir == p.workdir && ID(r.project, cfg) == ID(p, cfg)
    ensures Leaf(p) ==> r == SetLeaf(p, fs, v)
    ensures IsComposite(p) ==> IsComposite(r.project) && |r.project.projects| == |p.projects|
    ensures IsComposite(p) && p.projects == [] ==> r == Effect(Fail(NoProjects(p.workdir)), fs, p)
    decreases p, 0
  {
    if Leaf(p) then SetLeaf(p, fs, v)
    else if p.projects == [] then Effect(Fail(NoProjects(p.workdir)), fs, p)
    else
      var (o, fs2, ms) := SetFrom(p.projects, 0, fs, v, cfg);
      Effect(o, fs2, p.(projects := ms))
  }

  /** Changes compose: two steps change at most what either changes. */
  lemma ChangesCompose(fs: FS, fs1: FS, fs2: FS, t1: set<Path>, t2: set<Path>)
    requires Changes(fs, fs1, t1) && Changes(fs1, fs2, t2)
    ensures Changes(fs, fs2, t1 + t2)
  {
  }

  /** The loop of a composite's SetVersion from member `i` on. Returns the
      first error, the filesystem and the members from `i` on as they are
      afterwards. */
  function SetFrom(ms: seq<Project>, i: nat, fs: FS, v: V.Version, cfg: Config): (r: (Outcome<Error>, FS, seq<Project>))
    requires WellFormed(fs) && i <= |ms|
    ensures WellFormed(r.1) && |r.2| == |ms| - i && Changes(fs, r.1, TargetsOf(r.2))
    ensures i == |ms| ==> r == (Pass, fs, [])
    decreases ms, 1, |ms| - i
  {
    if i == |ms| then (Pass, fs, [])
    else
      var e := SetVersion(ms[i], fs, v, cfg);
      match e.outcome
      case Fail(err) =>
        assert ([e.project] + ms[i + 1..])[1..] == ms[i + 1..];
        (Fail(MemberFailed(ID(ms[i], cfg), err)), e.fs, [e.project] + ms[i + 1..])
      case Pass =>
        var (o, fs2, rest) := SetFrom(ms, i + 1, e.fs, v, cfg);
        assert ([e.project] + rest)[1..] == rest;
        ChangesCompose(fs, e.fs, fs2, Targets(e.project), TargetsOf(rest));
        (o, fs2, [e.project] + rest)
  }

  // ---------------------------------------------------------------------
  // Reading back what was written

  /** The kinds whose manifest is read back exactly as it was written:
      Flutter drops the pre-release, and Cargo.toml is not covered here. */
  predicate RoundTrips(p: Project) {
    p.PythonProject? || p.NodeProject? || p.GoProject?
  }

  /** `fs` and `fs2` agree at `t`. */
  ghost predicate SameAt(fs: FS, fs2: FS, t: Path) {
    (t in fs <==> t in fs2) && (t in fs ==> fs[t] == fs2[t])
  }

  /** A settled project reads only its own file. */
  lemma GetLeafLocal(p: Project, fs: FS, fs2: FS)
    requires Settled(p) && WellFormed(fs) && WellFormed(fs2) && SameAt(fs, fs2, Target(p))
    ensures GetLeaf(p, fs) == GetLeaf(p, fs2)
  {
    match p
    case PythonProject(wd) =>
      ManifestLocal(fs, fs2, PathJoin(wd, PyprojectToml), PythonKey, '=');
    case NodeProject(wd) =>
      ManifestLocal(fs, fs2, PathJoin(wd, PackageJson), NodeKey, ':');
    case GoProject(wd, cached, found) =>
      GoGetLocal(fs, fs2, cached);
    case FlutterProject(wd) =>
      FlutterLocal(fs, fs2, wd);
    case RustProject(wd) =>
      RustLocal(fs, fs2, wd);
  }

  lemma FlutterLocal(fs: FS, fs2: FS, wd: Path)
    requires SameAt(fs, fs2, PathJoin(wd, PubspecYaml))
    ensures FlutterGet(fs, wd) == FlutterGet(fs2, wd)
  {
    FixedRegexesSound();
    GrepLocal(fs, fs2, PathJoin(wd, PubspecYaml), FlutterRegex);
  }

  lemma RustLocal(fs: FS, fs2: FS, wd: Path)
    requires SameAt(fs, fs2, PathJoin(wd, CargoToml))
    ensures RustGet(fs, wd) == RustGet(fs2, wd)
  {
    FixedRegexesSound();
    GrepLocal(fs, fs2, PathJoin(wd, CargoToml), RustRegex);
  }

  lemma GoGetLocal(fs: FS, fs2: FS, t: Path)
    requires SameAt(fs, fs2, t)
    ensures GoGetAt(fs, t) == GoGetAt(fs2, t)
  {
    if t in fs && fs[t].File? {
      assert fs2[t].data == fs[t].data;
    }
  }

  lemma ManifestLocal(fs: FS, fs2: FS, t: Path, key: string, sep: char)
    requires SameAt(fs, fs2, t)
    ensures LineManifest.GetVersion(fs, t, key, sep) == LineManifest.GetVersion(fs2, t, key, sep)
  {
    if t in fs && fs[t].File? {
      assert fs2[t].data == fs[t].data;
    }
  }

  lemma GrepLocal(fs: FS, fs2: FS, t: Path, re: Regex)
    requires Sound(re) && SameAt(fs, fs2, t)
    ensures Grep(fs, t, re) == Grep(fs2, t, re)
  {
  }

  /** A successful read settles the project. */
  lemma GetSettles(p: Project, fs: FS)
    requires Leaf(p) && WellFormed(fs) && GetLeaf(p, fs).0.Ok?
    ensures Settled(GetLeaf(p, fs).1)
  {
  }

  /** After a successful write of a well-formed version into a manifest
      the project could read, the project reads that version back. */
  lemma LeafSetThenGet(p: Project, fs: FS, v: V.Version)
    requires RoundTrips(p) && WellFormed(fs) && V.WellFormed(v)
    requires GetLeaf(p, fs).0.Ok? && SetLeaf(p, fs, v).outcome.Pass?
    ensures var e := SetLeaf(p, fs, v);
            GetLeaf(e.project, e.fs).0 == Ok(v)
  {
    LineManifest.FixedFieldsSyntax();
    var e := SetLeaf(p, fs, v);
    match p
    case PythonProject(wd) =>
      LineManifest.SetThenGet(fs, PathJoin(wd, PyprojectToml), PythonKey, '=', v);
    case NodeProject(wd) =>
      LineManifest.SetThenGet(fs, PathJoin(wd, PackageJson), NodeKey, ':', v);
    case GoProject(wd, cached, found) =>
      var file := ResolveVersionFile(fs, wd, cached, found).0;
      assert file != [];
      GoSetThenGet(fs, file, v);
  }

  /** No two single-manifest members write the same file. */
  predicate DistinctTargets(ms: seq<Project>) {
    forall i, j :: 0 <= i < j < |ms| && Leaf(ms[i]) && Leaf(ms[j]) ==> Target(ms[i]) != Target(ms[j])
  }

  /** A path no member targets is outside the members' targets. */
  lemma {:induction false} NotTargeted(ms: seq<Project>, t: Path)
    requires forall j :: 0 <= j < |ms| ==> Leaf(ms[j]) && Target(ms[j]) != t
    ensures t !in TargetsOf(ms)
  {
    if ms != [] {
      NotTargeted(ms[1..], t);
    }
  }

  /** The write loop over settled members that each read a version: every
      member is written, the members keep their state, and afterwards each
      reads the new version, since no later write touches an earlier
      member's file. */
  lemma {:induction false} SetFromRoundTrip(ms: seq<Project>, i: nat, fs: FS, v: V.Version, cfg: Config)
    requires WellFormed(fs) && V.WellFormed(v) && i <= |ms|
    requires forall j :: 0 <= j < |ms| ==> Leaf(ms[j]) && RoundTrips(ms[j]) && Settled(ms[j])
    requires DistinctTargets(ms)
    requires forall j :: i <= j < |ms| ==> GetLeaf(ms[j], fs).0.Ok?
    requires SetFrom(ms, i, fs, v, cfg).0.Pass?
    ensures var r := SetFrom(ms, i, fs, v, cfg);
            r.2 == ms[i..] && forall j :: i <= j < |ms| ==> GetLeaf(ms[j], r.1).0 == Ok(v)
    decreases |ms| - i
  {
    if i < |ms| {
      var e := SetLeaf(ms[i], fs, v);
      SetFromStep(ms, i, fs, v, cfg);
      SetStepKeepsOthers(ms, i, fs, v);
      SetFromRoundTrip(ms, i + 1, e.fs, v, cfg);
      var r2 := SetFrom(ms, i + 1, e.fs, v, cfg);
      LaterWritesKeep(ms, i, e.fs, r2.1, v);
      assert r2.2 == ms[i + 1..];
      assert [ms[i]] + ms[i + 1..] == ms[i..];
    }
  }

  /** One step of the write loop over a single-manifest member. */
  lemma SetFromStep(ms: seq<Project>, i: nat, fs: FS, v: V.Version, cfg: Config)
    requires WellFormed(fs) && i < |ms| && Leaf(ms[i])
    ensures var e := SetLeaf(ms[i], fs, v);
            var r := SetFrom(ms, i, fs, v, cfg);
            && (e.outcome.Fail? ==> r.0 == Fail(MemberFailed(ID(ms[i], cfg), e.outcome.error)) && r.1 == fs)
            && (e.outcome.Pass? ==>
                  var r2 := SetFrom(ms, i + 1, e.fs, v, cfg);
                  r == (r2.0, r2.1, [e.project] + r2.2))
  {
    assert SetVersion(ms[i], fs, v, cfg) == SetLeaf(ms[i], fs, v);
  }

  /** Writing member `i` gives it the new version and leaves what every
      later member reads as it was. */
  lemma SetStepKeepsOthers(ms: seq<Project>, i: nat, fs: FS, v: V.Version)
    requires WellFormed(fs) && V.WellFormed(v) && i < |ms|
    requires forall j :: 0 <= j < |ms| ==> Leaf(ms[j]) && RoundTrips(ms[j]) && Settled(ms[j])
    requires DistinctTargets(ms)
    requires forall j :: i <= j < |ms| ==> GetLeaf(ms[j], fs).0.Ok?
    requires SetLeaf(ms[i], fs, v).outcome.Pass?
    ensures var e := SetLeaf(ms[i], fs, v);
            && e.project == ms[i] && GetLeaf(ms[i], e.fs).0 == Ok(v)
            && forall j :: i < j < |ms| ==> GetLeaf(ms[j], e.fs).0.Ok?
  {
    LeafSetThenGet(ms[i], fs, v);
    forall j | i < j < |ms| ensures GetLeaf(ms[j], SetLeaf(ms[i], fs, v).fs).0.Ok? {
      assert Target(ms[i]) != Target(ms[j]);
      SetLeafKeeps(ms[i], ms[j], fs, v);
    }
  }

  /** Writing a settled project leaves what another project with a
      different file reads. */
  lemma SetLeafKeeps(p: Project, q: Project, fs: FS, v: V.Version)
    requires Settled(p) && Settled(q) && WellFormed(fs) && Target(p) != Target(q)
    ensures GetLeaf(q, SetLeaf(p, fs, v).fs) == GetLeaf(q, fs)
  {
    var e := SetLeaf(p, fs, v);
    assert SameAt(fs, e.fs, Target(q));
    GetLeafLocal(q, fs, e.fs);
  }

  /** The writes of the members after `i` leave what member `i` reads. */
  lemma LaterWritesKeep(ms: seq<Project>, i: nat, fs: FS, fs2: FS, v: V.Version)
    requires WellFormed(fs) && WellFormed(fs2) && i < |ms|
    requires forall j :: 0 <= j < |ms| ==> Leaf(ms[j]) && Settled(ms[j])
    requires DistinctTargets(ms)
    requires Changes(fs, fs2, TargetsOf(ms[i + 1..]))
    ensures GetLeaf(ms[i], fs2) == GetLeaf(ms[i], fs)
  {
    var rest := ms[i + 1..];
    forall k | 0 <= k < |rest| ensures Leaf(rest[k]) && Target(rest[k]) != Target(ms[i]) {
      assert rest[k] == ms[i + 1 + k];
    }
    NotTargeted(rest, Target(ms[i]));
    GetLeafLocal(ms[i], fs, fs2);
  }

  /** The composite round trip: when every member of a composite is a
      pyproject.toml, package.json or version.txt project, the composite
      reads a version, the members' files are distinct, and the write
      succeeds, the composite then reads the version written. */
  lemma CompositeSetThenGet(p: Project, fs: FS, v: V.Version, cfg: Config)
    requires IsComposite(p) && WellFormed(fs) && V.WellFormed(v)
    requires forall j :: 0 <= j < |p.projects| ==> RoundTrips(p.projects[j])
    requires GetVersion(p, fs, cfg).0.Ok?
    requires DistinctTargets(GetVersion(p, fs, cfg).1.projects)
    requires SetVersion(GetVersion(p, fs, cfg).1, fs, v, cfg).outcome.Pass?
    ensures var e := SetVersion(GetVersion(p, fs, cfg).1, fs, v, cfg);
            GetVersion(e.project, e.fs, cfg).0 == Ok(v)
  {
    AgreedMembersSettled(p, fs, cfg);
    WrittenMembersAgree(GetVersion(p, fs, cfg).1, fs, v, cfg);
  }

  /** After a composite's successful read its members are settled and each
      reads a version on its own. */
  lemma AgreedMembersSettled(p: Project, fs: FS, cfg: Config)
    requires IsComposite(p) && WellFormed(fs)
    requires forall j :: 0 <= j < |p.projects| ==> RoundTrips(p.projects[j])
    requires GetVersion(p, fs, cfg).0.Ok?
    ensures var ms1 := GetVersion(p, fs, cfg).1.projects;
            forall j :: 0 <= j < |ms1| ==> RoundTrips(ms1[j]) && Settled(ms1[j]) && GetLeaf(ms1[j], fs).0.Ok?
  {
    var ms := p.projects;
    var rs := Reads(ms, fs, cfg);
    CompositeGet(p, fs, cfg);
    var ms1 := AgreeFrom(ms, rs, 0, None, cfg).1;
    AgreeFromMembers(ms, rs, 0, None, cfg);
    forall j | 0 <= j < |ms1|
      ensures RoundTrips(ms1[j]) && Settled(ms1[j]) && GetLeaf(ms1[j], fs).0.Ok?
    {
      assert ms1[j] == GetLeaf(ms[j], fs).1;
      assert rs[j].0.Ok?;
      GetSettles(ms[j], fs);
      GetIdempotent(ms[j], fs, cfg);
    }
  }

  /** Writing a composite whose members are settled, read a version and
      have distinct files: when the write succeeds, every member reads the
      version written, and so does the composite. */
  lemma WrittenMembersAgree(q: Project, fs: FS, v: V.Version, cfg: Config)
    requires IsComposite(q) && WellFormed(fs) && V.WellFormed(v)
    requires forall j :: 0 <= j < |q.projects| ==> RoundTrips(q.projects[j]) && Settled(q.projects[j]) && GetLeaf(q.projects[j], fs).0.Ok?
    requires DistinctTargets(q.projects)
    requires SetVersion(q, fs, v, cfg).outcome.Pass?
    ensures var e := SetVersion(q, fs, v, cfg);
            GetVersion(e.project, e.fs, cfg).0 == Ok(v)
  {
    var ms1 := q.projects;
    SetFromRoundTrip(ms1, 0, fs, v, cfg);
    var e := SetVersion(q, fs, v, cfg);
    assert e.project.projects == ms1;
    CompositeGet(e.project, e.fs, cfg);
    assert AllAgree(Reads(ms1, e.fs, cfg));
  }
}
