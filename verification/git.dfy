/** internal/git: the checks before tagging, the parser for the branch
    headers of `git status --porcelain=v2 --branch`, and the tagging steps.
    Git itself is an oracle that answers each command. */
module Git {
  import opened Wrappers
  import opened Errors
  import opened GoStrings
  import opened GoInt
  import opened FileSystem
  import opened Projects
  import V = Version

  /** What running git answers: its output, or a failure with its message. */
  datatype Reply = Output(text: string) | Failure(detail: string)

  /** The repository: the reply to each command run in a directory. */
  type Oracle = (Path, seq<string>) -> Reply

  const StatusArgs: seq<string> := ["status", "--porcelain"]
  const BranchArgs: seq<string> := ["status", "--porcelain=v2", "--branch"]

  /** `ensureCommitted`: a failed `git status` or any non-blank output fails. */
  function EnsureCommitted(reply: Reply): (r: Outcome<Error>)
    ensures reply.Failure? ==> r == Fail(GitStatusFailed(reply.detail))
    ensures reply.Output? ==> (r.Pass? <==> AllSpace(reply.text))
    ensures reply.Output? && r.Fail? ==> r.error == UncommittedChanges
  {
    match reply
    case Failure(d) => Fail(GitStatusFailed(d))
    case Output(text) => if TrimSpace(text) != [] then Fail(UncommittedChanges) else Pass
  }

  // ---------------------------------------------------------------------
  // Branch headers

  const UpstreamHeader: string := "# branch.upstream"
  const AbHeader: string := "# branch.ab"

  /** What the loop of `ensurePushed` sees in a line once it is trimmed:
      an upstream line, with its third field if it has one; an
      ahead/behind line with at least four fields whose third is an
      integer after one leading '+' is dropped; or anything else. */
  datatype LineKind = UpstreamLine(field: Option<string>) | AheadLine(ahead: Int64) | OtherLine

  function Classify(raw: string): (r: LineKind)
    ensures r.UpstreamLine? <==> HasPrefix(TrimSpace(raw), UpstreamHeader)
    ensures r.UpstreamLine? ==> (r.field.Some? <==> |Fields(TrimSpace(raw))| >= 3)
    ensures r.UpstreamLine? && r.field.Some? ==> r.field.value == Fields(TrimSpace(raw))[2]
    ensures !HasPrefix(TrimSpace(raw), UpstreamHeader) && HasPrefix(TrimSpace(raw), AbHeader) &&
            |Fields(TrimSpace(raw))| >= 4 && Atoi(TrimPrefix(Fields(TrimSpace(raw))[2], "+")).Some? ==>
              r.AheadLine?
    ensures r.AheadLine? ==>
              && HasPrefix(TrimSpace(raw), AbHeader)
              && |Fields(TrimSpace(raw))| >= 4
              && Atoi(TrimPrefix(Fields(TrimSpace(raw))[2], "+")) == Some(r.ahead)
  {
    var line := TrimSpace(raw);
    if HasPrefix(line, UpstreamHeader) then
      var fields := Fields(line);
      UpstreamLine(if |fields| >= 3 then Some(fields[2]) else None)
    else if HasPrefix(line, AbHeader) then
      var fields := Fields(line);
      if |fields| < 4 then OtherLine
      else match Atoi(TrimPrefix(fields[2], "+"))
        case None => OtherLine
        case Some(ahead) => AheadLine(ahead)
    else OtherLine
  }

  /** The upstream name after an upstream line. */
  function Rename(kind: LineKind, name: string): string {
    if kind.UpstreamLine? && kind.field.Some? then kind.field.value else name
  }

  /** The verdict of a well-formed ahead/behind line. */
  function Decide(ahead: Int64, name: string): (r: Outcome<Error>)
    ensures r.Fail? <==> ahead > 0
    ensures r.Fail? ==> r.error.AheadOfUpstream? && r.error.count == ahead && r.error.upstream != []
  {
    if ahead > 0 then Fail(AheadOfUpstream(if name == [] then "@{u}" else name, ahead)) else Pass
  }

  /** The lines of the output, classified. */
  function Kinds(lines: seq<string>): (r: seq<LineKind>)
    ensures |r| == |lines| && forall k :: 0 <= k < |lines| ==> r[k] == Classify(lines[k])
  {
    seq(|lines|, k requires 0 <= k < |lines| => Classify(lines[k]))
  }

  /** The loop of `ensurePushed` from line `i` on, with the state it keeps:
      whether an upstream line was seen and the last upstream name. */
  function ScanFrom(lines: seq<LineKind>, i: nat, found: bool, name: string): (r: Outcome<Error>)
    requires i <= |lines|
    ensures r.Fail? ==> r.error.AheadOfUpstream? && r.error.count > 0 && r.error.upstream != []
    ensures (forall k :: i <= k < |lines| ==> !lines[k].AheadLine?) ==> r == Pass
    decreases |lines| - i
  {
    if i == |lines| then Pass
    else
      var kind := lines[i];
      if kind.UpstreamLine? then ScanFrom(lines, i + 1, true, Rename(kind, name))
      else if !found then ScanFrom(lines, i + 1, found, name)
      else if kind.AheadLine? then Decide(kind.ahead, name)
      else ScanFrom(lines, i + 1, found, name)
  }

  /** `ensurePushed` (and `gitCheckPushed` of main.go). */
  function EnsurePushed(reply: Reply): (r: Outcome<Error>)
    ensures reply.Failure? ==> r == Fail(GitBranchStatusFailed(reply.detail))
  {
    match reply
    case Failure(d) => Fail(GitBranchStatusFailed(d))
    case Output(text) => ScanFrom(Kinds(Split(text, '\n')), 0, false, [])
  }

  // ---------------------------------------------------------------------
  // What decides, stated over positions

  /** The first line of the kind `upstream` (or else an ahead/behind line)
      at or after `i`, or `|lines|`. */
  function FirstOf(lines: seq<LineKind>, i: nat, upstream: bool): (r: nat)
    requires i <= |lines|
    ensures i <= r <= |lines|
    ensures r < |lines| ==> if upstream then lines[r].UpstreamLine? else lines[r].AheadLine?
    ensures forall k :: i <= k < r ==>
              if upstream then !lines[k].UpstreamLine? else !lines[k].AheadLine?
    decreases |lines| - i
  {
    if i == |lines| then i
    else
      var kind := lines[i];
      if (upstream && kind.UpstreamLine?) || (!upstream && kind.AheadLine?) then i
      else FirstOf(lines, i + 1, upstream)
  }

  /** The upstream name after the lines `i` to `j`: that of the last
      upstream line with a third field. */
  function NameThrough(lines: seq<LineKind>, i: nat, j: nat, name: string): string
    requires i <= j <= |lines|
    decreases j - i
  {
    if i == j then name else NameThrough(lines, i + 1, j, Rename(lines[i], name))
  }

  /** The verdict as a rule over positions: lines before the first
      upstream line are ignored; after it, the first well-formed
      ahead/behind line decides, naming the last upstream given; without
      either, success. */
  function Verdict(lines: seq<LineKind>): Outcome<Error> {
    var u := FirstOf(lines, 0, true);
    if u == |lines| then Pass
    else
      var j := FirstOf(lines, u + 1, false);
      if j == |lines| then Pass else Decide(lines[j].ahead, NameThrough(lines, 0, j, []))
  }

  lemma {:induction false} NameSkips(lines: seq<LineKind>, i: nat, j: nat, name: string)
    requires i <= j <= |lines|
    requires forall k :: i <= k < j ==> !lines[k].UpstreamLine?
    ensures NameThrough(lines, i, j, name) == name
    decreases j - i
  {
    if i < j {
      NameSkips(lines, i + 1, j, name);
    }
  }

  lemma {:induction false} NameFrom(lines: seq<LineKind>, i: nat, m: nat, j: nat, name: string)
    requires i <= m <= j <= |lines|
    ensures NameThrough(lines, i, j, name) == NameThrough(lines, m, j, NameThrough(lines, i, m, name))
    decreases m - i
  {
    if i < m {
      NameFrom(lines, i + 1, m, j, Rename(lines[i], name));
    }
  }

  /** Before any upstream line, nothing but the search for one happens. */
  lemma {:induction false} SeekUpstream(lines: seq<LineKind>, i: nat)
    requires i <= |lines|
    ensures var u := FirstOf(lines, i, true);
            ScanFrom(lines, i, false, []) ==
              if u == |lines| then Pass else ScanFrom(lines, u + 1, true, Rename(lines[u], []))
    decreases |lines| - i
  {
    if i < |lines| && !lines[i].UpstreamLine? {
      SeekUpstream(lines, i + 1);
    }
  }

  /** After an upstream line, only upstream lines (renaming) and the first
      well-formed ahead/behind line (deciding) matter. */
  lemma {:induction false} SeekAhead(lines: seq<LineKind>, i: nat, name: string)
    requires i <= |lines|
    ensures var j := FirstOf(lines, i, false);
            ScanFrom(lines, i, true, name) ==
              if j == |lines| then Pass else Decide(lines[j].ahead, NameThrough(lines, i, j, name))
    decreases |lines| - i
  {
    if i < |lines| && !lines[i].AheadLine? {
      SeekAhead(lines, i + 1, Rename(lines[i], name));
    }
  }

  /** The parser decides exactly as the rule over positions. */
  lemma ScanIsVerdict(lines: seq<LineKind>)
    ensures ScanFrom(lines, 0, false, []) == Verdict(lines)
  {
    SeekUpstream(lines, 0);
    var u := FirstOf(lines, 0, true);
    if u < |lines| {
      SeekAhead(lines, u + 1, Rename(lines[u], []));
      var j := FirstOf(lines, u + 1, false);
      if j < |lines| {
        NameSkips(lines, 0, u, []);
        NameFrom(lines, 0, u, j, []);
      }
    }
  }

  /** Without an upstream line, or without a well-formed ahead/behind line
      after it, the check passes; ahead/behind lines before the first
      upstream line count for nothing. */
  lemma PassesWithoutVerdict(text: string)
    requires var lines := Kinds(Split(text, '\n'));
             var u := FirstOf(lines, 0, true);
             u == |lines| || FirstOf(lines, u + 1, false) == |lines|
    ensures EnsurePushed(Output(text)) == Pass
  {
    ScanIsVerdict(Kinds(Split(text, '\n')));
  }

  /** The check fails exactly when the deciding line counts commits ahead,
      and then reports that count. */
  lemma FailsWhenAhead(text: string)
    ensures var lines := Kinds(Split(text, '\n'));
            var u := FirstOf(lines, 0, true);
            var j := if u == |lines| then u else FirstOf(lines, u + 1, false);
            && (EnsurePushed(Output(text)).Fail? <==> j < |lines| && lines[j].ahead > 0)
            && (EnsurePushed(Output(text)).Fail? ==>
                  EnsurePushed(Output(text)).error == AheadOfUpstream(
                    if NameThrough(lines, 0, j, []) == [] then "@{u}" else NameThrough(lines, 0, j, []),
                    lines[j].ahead))
  {
    ScanIsVerdict(Kinds(Split(text, '\n')));
  }

  // ---------------------------------------------------------------------
  // The steps

  /** `EnsureClean`: the commit check, then, if asked, the push check. The
      second component lists the git commands run, in order. */
  function EnsureClean(dir: Path, checkPushed: bool, git: Oracle): (r: (Outcome<Error>, seq<seq<string>>))
    ensures r.0.Pass? <==> EnsureCommitted(git(dir, StatusArgs)).Pass?
                           && (checkPushed ==> EnsurePushed(git(dir, BranchArgs)).Pass?)
    ensures r.1 == if EnsureCommitted(git(dir, StatusArgs)).Pass? && checkPushed
                   then [StatusArgs, BranchArgs] else [StatusArgs]
  {
    var committed := EnsureCommitted(git(dir, StatusArgs));
    if committed.Fail? then (committed, [StatusArgs])
    else if checkPushed then (EnsurePushed(git(dir, BranchArgs)), [StatusArgs, BranchArgs])
    else (Pass, [StatusArgs])
  }

  /** `Run`: a failed command fails with its arguments and message. */
  function Run(dir: Path, args: seq<string>, git: Oracle): (r: Outcome<Error>)
    ensures r.Pass? <==> git(dir, args).Output?
    ensures r.Fail? ==> r.error == GitFailed(args, git(dir, args).detail)
  {
    match git(dir, args)
    case Output(_) => Pass
    case Failure(d) => Fail(GitFailed(args, d))
  }

  function TagArgs(tag: string): seq<string> { ["tag", tag] }
  function PushArgs(tag: string): seq<string> { ["push", "--force", "origin", tag] }

  /** The result of `CreateTag`, the git commands it ran, and the project
      after its version was read. */
  datatype TagRun = TagRun(result: Result<string, Error>, calls: seq<seq<string>>, project: Project)

  /** The steps of `CreateTag` once the version is known: the checks, the
      tag, and the push if asked, each only after the previous succeeded. */
  function TagSteps(dir: Path, version: V.Version, push: bool, git: Oracle): (r: (Result<string, Error>, seq<seq<string>>))
    ensures var (clean, checks) := EnsureClean(dir, push, git);
            var tag := "v" + V.Format(version);
            && (clean.Fail? ==> r == (Err(clean.error), checks))
            && (clean.Pass? ==>
                  r.1 == checks + [TagArgs(tag)]
                         + (if push && git(dir, TagArgs(tag)).Output? then [PushArgs(tag)] else []))
            && (r.0.Ok? <==> clean.Pass? && git(dir, TagArgs(tag)).Output?
                             && (push ==> git(dir, PushArgs(tag)).Output?))
            && (r.0.Ok? ==> r.0.value == tag)
  {
    var (clean, checks) := EnsureClean(dir, push, git);
    if clean.Fail? then (Err(clean.error), checks)
    else
      var tag := "v" + V.Format(version);
      var tagged := Run(dir, TagArgs(tag), git);
      if tagged.Fail? then (Err(tagged.error), checks + [TagArgs(tag)])
      else if !push then (Ok(tag), checks + [TagArgs(tag)])
      else
        var pushed := Run(dir, PushArgs(tag), git);
        var calls := checks + [TagArgs(tag)] + [PushArgs(tag)];
        if pushed.Fail? then (Err(pushed.error), calls) else (Ok(tag), calls)
  }

  /** `CreateTag` (and `createGitTag` of main.go): a version that cannot be
      read stops it before any git command. */
  function CreateTag(p: Project, fs: FS, cfg: Config, push: bool, git: Oracle): (r: TagRun)
    requires WellFormed(fs)
    ensures GetVersion(p, fs, cfg).0.Err? ==>
              r == TagRun(Err(ResolveVersionFailed(GetVersion(p, fs, cfg).0.error)), [], GetVersion(p, fs, cfg).1)
    ensures GetVersion(p, fs, cfg).0.Ok? ==>
              (r.result, r.calls) == TagSteps(p.workdir, GetVersion(p, fs, cfg).0.value, push, git)
  {
    var (got, p1) := GetVersion(p, fs, cfg);
    if got.Err? then TagRun(Err(ResolveVersionFailed(got.error)), [], p1)
    else
      var (result, calls) := TagSteps(p1.workdir, got.value, push, git);
      TagRun(result, calls, p1)
  }

  /** The tag names the version: without its 'v' it parses back to the
      version read. */
  lemma TagNamesVersion(p: Project, fs: FS, cfg: Config, push: bool, git: Oracle)
    requires WellFormed(fs)
    requires CreateTag(p, fs, cfg, push, git).result.Ok?
    requires V.WellFormed(GetVersion(p, fs, cfg).0.value)
    ensures var tag := CreateTag(p, fs, cfg, push, git).result.value;
            |tag| > 0 && tag[0] == 'v' && V.Parse(tag[1..]) == GetVersion(p, fs, cfg).0
  {
    var v := GetVersion(p, fs, cfg).0.value;
    var tag := "v" + V.Format(v);
    assert tag[1..] == V.Format(v);
    V.ParseFormat(v);
  }
}
