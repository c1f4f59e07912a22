/** main.go: the command line. The flags arrive parsed; the project is the
    one `Which` detects in the working directory; a set version wins over
    the bumps; the bumps, then the build, are written; then the tag, then
    the version is shown. */
module Cli {
  import opened Wrappers
  import opened Errors
  import opened GoInt
  import opened FileSystem
  import opened ProjectId
  import opened Projects
  import opened Git
  import V = Version

  /** The parsed flags: the three bump directives ("KEEP" when absent, "INC"
      when given without a value), the build, the version to set, and the
      two tag switches. */
  datatype Flags = Flags(major: string, minor: string, patch: string, build: string,
                         version: string, tag: bool, tagPush: bool)

  /** The end of `initFlags`: --tag-push implies --tag. */
  function Effective(f: Flags): (r: Flags)
    ensures r.tag <==> f.tag || f.tagPush
    ensures r.(tag := f.tag) == f
  {
    if f.tagPush then f.(tag := true) else f
  }

  /** The version used when the project's cannot be read. */
  const Zero: V.Version := V.Version(0, 0, 0, [], [])

  /** `p.GetVersion()` with the fallback of `bumpVersion` and
      `setBuildVersion`. */
  function ReadOrZero(p: Project, fs: FS, cfg: Config): (r: (V.Version, Project))
    requires WellFormed(fs)
    ensures GetVersion(p, fs, cfg).0.Ok? ==> r.0 == GetVersion(p, fs, cfg).0.value
    ensures GetVersion(p, fs, cfg).0.Err? ==> r.0 == Zero
    ensures r.1 == GetVersion(p, fs, cfg).1
  {
    var (got, p1) := GetVersion(p, fs, cfg);
    (if got.Ok? then got.value else Zero, p1)
  }

  datatype Directives = Directives(major: Int64, minor: Int64, patch: Int64)

  /** The three directives, parsed in order; the first invalid one stops. */
  function ParseDirectives(f: Flags): (r: Result<Directives, Error>)
    ensures r.Ok? <==> V.ParseVersionNumber(f.major).Ok? && V.ParseVersionNumber(f.minor).Ok?
                       && V.ParseVersionNumber(f.patch).Ok?
    ensures r.Ok? ==> r.value == Directives(V.ParseVersionNumber(f.major).value,
                                            V.ParseVersionNumber(f.minor).value,
                                            V.ParseVersionNumber(f.patch).value)
    ensures V.ParseVersionNumber(f.major).Err? ==> r == Err(V.ParseVersionNumber(f.major).error)
  {
    match V.ParseVersionNumber(f.major)
    case Err(e) => Err(e)
    case Ok(major) =>
      match V.ParseVersionNumber(f.minor)
      case Err(e) => Err(e)
      case Ok(minor) =>
        match V.ParseVersionNumber(f.patch)
        case Err(e) => Err(e)
        case Ok(patch) => Ok(Directives(major, minor, patch))
  }

  predicate AllKeep(d: Directives) {
    d.major == V.KEEP && d.minor == V.KEEP && d.patch == V.KEEP
  }

  /** Major, then minor, then patch. */
  function Bumped(v: V.Version, d: Directives): V.Version {
    V.BumpPatch(V.BumpMinor(V.BumpMajor(v, d.major), d.minor), d.patch)
  }

  /** What a step of `main` leaves: whether it wrote, the files, and the
      project (whose cached state a read may have filled). */
  datatype Step = Step(changed: bool, fs: FS, project: Project)

  /** `bumpVersion`: an invalid directive, or three KEEPs, writes nothing;
      otherwise the bumped version is written, whether or not the write
      succeeds. */
  function BumpVersion(p: Project, fs: FS, cfg: Config, f: Flags): (r: Step)
    requires WellFormed(fs)
    ensures WellFormed(r.fs)
    ensures r.changed <==> ParseDirectives(f).Ok? && !AllKeep(ParseDirectives(f).value)
    ensures !r.changed ==> r.fs == fs && r.project == GetVersion(p, fs, cfg).1
    ensures r.changed ==>
              var (v, p1) := ReadOrZero(p, fs, cfg);
              var e := SetVersion(p1, fs, Bumped(v, ParseDirectives(f).value), cfg);
              r.fs == e.fs && r.project == e.project
  {
    var (v, p1) := ReadOrZero(p, fs, cfg);
    match ParseDirectives(f)
    case Err(_) => Step(false, fs, p1)
    case Ok(d) =>
      if AllKeep(d) then Step(false, fs, p1)
      else
        var e := SetVersion(p1, fs, Bumped(v, d), cfg);
        Step(true, e.fs, e.project)
  }

  /** `setBuildVersion`: re-reads the version and replaces only its build. */
  function SetBuildVersion(p: Project, fs: FS, cfg: Config, build: string): (r: Step)
    requires WellFormed(fs)
    ensures WellFormed(r.fs) && r.changed
    ensures var (v, p1) := ReadOrZero(p, fs, cfg);
            var e := SetVersion(p1, fs, v.(build := build), cfg);
            r.fs == e.fs && r.project == e.project
  {
    var (v, p1) := ReadOrZero(p, fs, cfg);
    var e := SetVersion(p1, fs, v.(build := build), cfg);
    Step(true, e.fs, e.project)
  }

  /** How `main` ends: the version shown (or the error printed in its
      place), an invalid --version, a failed tag, or a panic on the nil
      project `Project` gives when nothing was detected. */
  datatype Exit = Shown(version: Result<V.Version, Error>) | BadVersionFlag(error: Error)
                | TagFailed(error: Error) | NilProject

  /** The end state: how `main` ended, the files, and the git commands run. */
  datatype Run = Run(exit: Exit, fs: FS, calls: seq<seq<string>>)

  /** The tail of `main`: the tag if asked, then `showVersion`. */
  function Finish(f: Flags, p: Project, fs: FS, cfg: Config, git: Oracle): (r: Run)
    requires WellFormed(fs)
    ensures r.fs == fs
    ensures !f.tag ==> r == Run(Shown(GetVersion(p, fs, cfg).0), fs, [])
    ensures f.tag ==> r.calls == CreateTag(p, fs, cfg, f.tagPush, git).calls
    ensures r.exit.TagFailed? <==> f.tag && CreateTag(p, fs, cfg, f.tagPush, git).result.Err?
  {
    if f.tag then
      var t := CreateTag(p, fs, cfg, f.tagPush, git);
      if t.result.Err? then Run(TagFailed(t.result.error), fs, t.calls)
      else Run(Shown(GetVersion(t.project, fs, cfg).0), fs, t.calls)
    else Run(Shown(GetVersion(p, fs, cfg).0), fs, [])
  }

  /** `main` after the flags are parsed, in the working directory
      `workdir`. */
  function Main(flags: Flags, fs: FS, workdir: Path, order: seq<int>, cfg: Config, git: Oracle): (r: Run)
    requires MapOrder(order) && WellFormed(fs)
    ensures WellFormed(r.fs)
    ensures |flags.version| > 0 && V.Parse(flags.version).Err? ==>
              r == Run(BadVersionFlag(V.Parse(flags.version).error), fs, [])
    ensures r.exit.NilProject? <==>
              Which(fs, workdir, order) == 0 && !(|flags.version| > 0 && V.Parse(flags.version).Err?)
    ensures r.exit.NilProject? ==> r.fs == fs && r.calls == []
    ensures !(flags.tag || flags.tagPush) ==> r.calls == []
    ensures r.exit.TagFailed? ==> flags.tag || flags.tagPush
    ensures |flags.version| > 0 && V.Parse(flags.version).Ok? && Which(fs, workdir, order) != 0 ==>
              r.fs == SetVersion(ProjectFor(Which(fs, workdir, order), workdir, fs, cfg).value, fs,
                                 V.Parse(flags.version).value, cfg).fs
  {
    var f := Effective(flags);
    var id := Which(fs, workdir, order);
    var found := ProjectFor(id, workdir, fs, cfg);
    if |f.version| > 0 then
      match V.Parse(f.version)
      case Err(e) => Run(BadVersionFlag(e), fs, [])
      case Ok(v) =>
        if found.None? then Run(NilProject, fs, [])
        else
          var e := SetVersion(found.value, fs, v, cfg);
          Finish(f, e.project, e.fs, cfg, git)
    else if found.None? then Run(NilProject, fs, [])
    else
      var bumped := BumpVersion(found.value, fs, cfg, f);
      var built := if |f.build| > 0 then SetBuildVersion(bumped.project, bumped.fs, cfg, f.build) else bumped;
      Finish(f, built.project, built.fs, cfg, git)
  }

  // ---------------------------------------------------------------------
  // Properties

  /** A given --version makes the bump directives and the build irrelevant. */
  lemma SetVersionWins(flags: Flags, fs: FS, workdir: Path, order: seq<int>, cfg: Config, git: Oracle,
                       major: string, minor: string, patch: string, build: string)
    requires MapOrder(order) && WellFormed(fs) && |flags.version| > 0
    ensures Main(flags, fs, workdir, order, cfg, git)
            == Main(flags.(major := major, minor := minor, patch := patch, build := build), fs, workdir, order, cfg, git)
  {
  }

  /** For the kinds `Which` detects, a valid --version the project accepts
      is read back: the version shown afterwards is the one given. */
  lemma SetIsShown(flags: Flags, fs: FS, workdir: Path, order: seq<int>, cfg: Config, git: Oracle)
    requires MapOrder(order) && WellFormed(fs)
    requires |flags.version| > 0 && V.Parse(flags.version).Ok? && !flags.tag && !flags.tagPush
    requires Which(fs, workdir, order) != 0
    requires var p := ProjectFor(Which(fs, workdir, order), workdir, fs, cfg).value;
             && GetVersion(p, fs, cfg).0.Ok?
             && SetVersion(p, fs, V.Parse(flags.version).value, cfg).outcome.Pass?
    ensures Main(flags, fs, workdir, order, cfg, git).exit == Shown(Ok(V.Parse(flags.version).value))
  {
    var id := Which(fs, workdir, order);
    WhichComplete(fs, workdir, order);
    var p := ProjectFor(id, workdir, fs, cfg).value;
    assert RoundTrips(p);
    var v := V.Parse(flags.version).value;
    assert V.WellFormed(v);
    LeafSetThenGet(p, fs, v);
  }

  /** `-M -p` on 1.2.3 gives 2.0.1. */
  lemma BumpExample(f: Flags)
    requires f.major == "INC" && f.minor == "KEEP" && f.patch == "INC"
    ensures ParseDirectives(f) == Ok(Directives(V.INCREASE, V.KEEP, V.INCREASE))
    ensures Bumped(V.Version(1, 2, 3, [], []), ParseDirectives(f).value) == V.Version(2, 0, 1, [], [])
  {
    assert GoStrings.ToUpper("INC") == "INC";
    assert GoStrings.ToUpper("KEEP") == "KEEP";
  }

  /** For the kinds `Which` detects, a bump the project accepts is read
      back: the version shown afterwards is the bumped one. */
  lemma BumpIsShown(flags: Flags, fs: FS, workdir: Path, order: seq<int>, cfg: Config, git: Oracle)
    requires MapOrder(order) && WellFormed(fs)
    requires flags.version == [] && flags.build == [] && !flags.tag && !flags.tagPush
    requires Which(fs, workdir, order) != 0
    requires var p := ProjectFor(Which(fs, workdir, order), workdir, fs, cfg).value;
             && GetVersion(p, fs, cfg).0.Ok?
             && ParseDirectives(flags).Ok? && !AllKeep(ParseDirectives(flags).value)
             && var v := Bumped(GetVersion(p, fs, cfg).0.value, ParseDirectives(flags).value);
                && V.WellFormed(v)
                && SetVersion(GetVersion(p, fs, cfg).1, fs, v, cfg).outcome.Pass?
    ensures Main(flags, fs, workdir, order, cfg, git).exit ==
              Shown(Ok(Bumped(GetVersion(ProjectFor(Which(fs, workdir, order), workdir, fs, cfg).value, fs, cfg).0.value,
                              ParseDirectives(flags).value)))
  {
    var id := Which(fs, workdir, order);
    WhichComplete(fs, workdir, order);
    var p := ProjectFor(id, workdir, fs, cfg).value;
    assert RoundTrips(p);
    var (got, p1) := GetVersion(p, fs, cfg);
    var v := Bumped(got.value, ParseDirectives(flags).value);
    GetIdempotent(p, fs, cfg);
    LeafSetThenGet(p1, fs, v);
  }

  /** With no --version and no bump (three KEEPs, or an invalid
      directive) and no build, nothing is written. */
  lemma NoBumpNoWrite(flags: Flags, fs: FS, workdir: Path, order: seq<int>, cfg: Config, git: Oracle)
    requires MapOrder(order) && WellFormed(fs)
    requires flags.version == [] && flags.build == []
    requires ParseDirectives(flags).Ok? ==> AllKeep(ParseDirectives(flags).value)
    ensures Main(flags, fs, workdir, order, cfg, git).fs == fs
  {
  }

  /** Three KEEPs parse to three KEEP directives. */
  lemma KeepDirectives(f: Flags)
    requires f.major == f.minor == f.patch == "KEEP"
    ensures ParseDirectives(f) == Ok(Directives(V.KEEP, V.KEEP, V.KEEP))
  {
    assert GoStrings.ToUpper("KEEP") == "KEEP";
  }

  /** --build alone on a project: the build step writes the version it
      read with the new build, and the project reads it back when the
      write succeeds. */
  lemma BuildAfterRead(p: Project, fs: FS, cfg: Config, f: Flags)
    requires WellFormed(fs) && RoundTrips(p) && GetVersion(p, fs, cfg).0.Ok?
    requires ParseDirectives(f) == Ok(Directives(V.KEEP, V.KEEP, V.KEEP))
    requires var v := GetVersion(p, fs, cfg).0.value.(build := f.build);
             V.WellFormed(v) && SetVersion(GetVersion(p, fs, cfg).1, fs, v, cfg).outcome.Pass?
    ensures var b := BumpVersion(p, fs, cfg, f);
            var s := SetBuildVersion(b.project, b.fs, cfg, f.build);
            GetVersion(s.project, s.fs, cfg).0 == Ok(GetVersion(p, fs, cfg).0.value.(build := f.build))
  {
    var (got, p1) := GetVersion(p, fs, cfg);
    var v := got.value.(build := f.build);
    assert BumpVersion(p, fs, cfg, f) == Step(false, fs, p1);
    GetIdempotent(p, fs, cfg);
    assert ReadOrZero(p1, fs, cfg) == (got.value, p1);
    LeafSetThenGet(p1, fs, v);
  }

  /** For the kinds `Which` detects, --build alone replaces the build of
      the version read, and the version shown afterwards is that one. */
  lemma BuildIsShown(flags: Flags, fs: FS, workdir: Path, order: seq<int>, cfg: Config, git: Oracle)
    requires MapOrder(order) && WellFormed(fs)
    requires flags.version == [] && |flags.build| > 0 && !flags.tag && !flags.tagPush
    requires flags.major == flags.minor == flags.patch == "KEEP"
    requires Which(fs, workdir, order) != 0
    requires var p := ProjectFor(Which(fs, workdir, order), workdir, fs, cfg).value;
             && GetVersion(p, fs, cfg).0.Ok?
             && var v := GetVersion(p, fs, cfg).0.value.(build := flags.build);
                && V.WellFormed(v)
                && SetVersion(GetVersion(p, fs, cfg).1, fs, v, cfg).outcome.Pass?
    ensures Main(flags, fs, workdir, order, cfg, git).exit ==
              Shown(Ok(GetVersion(ProjectFor(Which(fs, workdir, order), workdir, fs, cfg).value, fs, cfg).0.value
                       .(build := flags.build)))
  {
    WhichComplete(fs, workdir, order);
    KeepDirectives(flags);
    BuildAfterRead(ProjectFor(Which(fs, workdir, order), workdir, fs, cfg).value, fs, cfg, flags);
  }
}
