/** internal/utils Grep and Sed: pick the capture of the leftmost match in a
    file, or splice a replacement over it. */
module TextEdit {
  import opened Wrappers
  import opened Errors
  import opened FileSystem
  import opened Patterns

  /** What `FindSubmatchIndex` reports: the whole match and, for a pattern
      with capture groups, the first group's span, `None` when that group
      took no part in the match. */
  datatype Match = Match(whole: Span, group: Option<Span>)

  /** A compiled regular expression: its number of capture groups and its
      leftmost-first search over a text. */
  datatype Regex = Regex(groups: nat, find: string -> Option<Match>)

  /** A match whose spans lie inside `data`, with a group span only when the
      pattern has a group. */
  predicate Fits(m: Match, data: string, groups: nat) {
    && InText(m.whole, data)
    && (m.group.Some? ==> groups >= 1 && InText(m.group.value, data))
  }

  /** Every match the search reports fits the text it searched. */
  ghost predicate Sound(re: Regex) {
    forall data: string :: re.find(data).Some? ==> Fits(re.find(data).value, data, re.groups)
  }

  function Slice(data: string, sp: Span): string
    requires InText(sp, data)
  {
    data[sp.start..sp.end]
  }

  /** Grep's choice from a match of a pattern with `groups` groups: the
      whole match for none, the group (empty when it took no part) for one,
      an error for more. */
  function PickCapture(data: string, groups: nat, m: Match): (r: Result<string, Error>)
    requires Fits(m, data, groups)
    ensures groups == 0 ==> r == Ok(Slice(data, m.whole))
    ensures groups == 1 && m.group.Some? ==> r == Ok(Slice(data, m.group.value))
    ensures groups == 1 && m.group.None? ==> r == Ok([])
    ensures groups >= 2 <==> r.Err?
    ensures r.Err? ==> r.error == MultipleGroups
  {
    if groups == 0 then Ok(Slice(data, m.whole))
    else if groups == 1 then
      match m.group
      case Some(g) => Ok(Slice(data, g))
      case None => Ok([])
    else Err(MultipleGroups)
  }

  /** `Grep`: a missing path and a directory fail before any matching; then
      no match is "pattern not found", which wins over the group-count
      error. */
  function Grep(fs: FS, path: Path, re: Regex): (r: Result<string, Error>)
    requires Sound(re)
    ensures path !in fs ==> r == Err(NotExist(path))
    ensures IsDirAt(fs, path) ==> r == Err(ShouldBeFile(path))
    ensures IsFileAt(fs, path) && re.find(fs[path].data).None? ==> r == Err(PatternNotFound(path))
    ensures IsFileAt(fs, path) && re.find(fs[path].data).Some? ==>
              r == PickCapture(fs[path].data, re.groups, re.find(fs[path].data).value)
  {
    if path !in fs then Err(NotExist(path))
    else if fs[path].Dir? then Err(ShouldBeFile(path))
    else
      var data := fs[path].data;
      match re.find(data)
      case None => Err(PatternNotFound(path))
      case Some(m) => PickCapture(data, re.groups, m)
  }

  /** The new content Sed writes for a match: the whole match replaced for
      a pattern without groups, only the group's span for one group, and
      nothing at all for more (the parts list stays empty). A group that took
      no part makes the slice bounds negative, which panics. */
  function Splice(data: string, groups: nat, m: Match, repl: string): (r: Result<string, Error>)
    requires Fits(m, data, groups)
    ensures groups == 0 ==> r == Ok(data[..m.whole.start] + repl + data[m.whole.end..])
    ensures groups == 1 && m.group.Some? ==>
              r == Ok(data[..m.group.value.start] + repl + data[m.group.value.end..])
    ensures groups == 1 && m.group.None? ==> r.Err? && r.error.Panicked?
    ensures groups >= 2 ==> r == Ok([])
  {
    if groups == 0 then Ok(data[..m.whole.start] + repl + data[m.whole.end..])
    else if groups == 1 then
      match m.group
      case Some(g) => Ok(data[..g.start] + repl + data[g.end..])
      case None => Err(Panicked("slice bounds out of range"))
    else Ok([])
  }

  /** Splicing keeps every character outside the replaced span and puts the
      replacement where the span began. */
  lemma SpliceFrames(data: string, sp: Span, repl: string)
    requires InText(sp, data)
    ensures var out := data[..sp.start] + repl + data[sp.end..];
            && |out| == |data| - (sp.end - sp.start) + |repl|
            && out[..sp.start] == data[..sp.start]
            && out[sp.start..sp.start + |repl|] == repl
            && out[sp.start + |repl|..] == data[sp.end..]
  {
  }

  /** `Sed`: the same checks as Grep, then the file is reopened with
      `O_WRONLY|O_TRUNC` (never created, its mode kept) and the spliced
      content written. On any error the filesystem is unchanged. */
  function Sed(fs: FS, path: Path, re: Regex, repl: string): (r: Result<FS, Error>)
    requires Sound(re)
    ensures path !in fs ==> r == Err(NotExist(path))
    ensures IsDirAt(fs, path) ==> r == Err(ShouldBeFile(path))
    ensures IsFileAt(fs, path) && re.find(fs[path].data).None? ==> r == Err(PatternNotFound(path))
    ensures r.Ok? ==>
              && IsFileAt(fs, path)
              && re.find(fs[path].data).Some?
              && var out := Splice(fs[path].data, re.groups, re.find(fs[path].data).value, repl);
                 out.Ok? && r == WriteFile(fs, path, out.value, false)
  {
    if path !in fs then Err(NotExist(path))
    else if fs[path].Dir? then Err(ShouldBeFile(path))
    else
      var data := fs[path].data;
      match re.find(data)
      case None => Err(PatternNotFound(path))
      case Some(m) =>
        match Splice(data, re.groups, m, repl)
        case Err(e) => Err(e)
        case Ok(out) => WriteFile(fs, path, out, false)
  }

  /** After a successful Sed only the file itself has changed, and it now
      holds the spliced content. */
  lemma SedEffect(fs: FS, path: Path, re: Regex, repl: string)
    requires Sound(re) && Sed(fs, path, re, repl).Ok?
    ensures var fs2 := Sed(fs, path, re, repl).value;
            var data := fs[path].data;
            && fs2.Keys == fs.Keys
            && (forall q :: q in fs && q != path ==> fs2[q] == fs[q])
            && ReadFile(fs2, path) == Splice(data, re.groups, re.find(data).value, repl)
  {
  }

  /** The matcher of a fixed pattern, as a regex with one group. */
  function AsMatch(h: Option<Hit>): Option<Match> {
    match h
    case None => None
    case Some(x) => Some(Match(x.whole, Some(x.group)))
  }

  /** `RustVersionRE`. */
  const RustRegex: Regex := Regex(1, (s: string) => AsMatch(RustFind(s)))

  /** `flutterVersionRE`. */
  const FlutterRegex: Regex := Regex(1, (s: string) => AsMatch(FlutterFind(s)))

  lemma FixedRegexesSound()
    ensures Sound(RustRegex) && Sound(FlutterRegex)
  {
    forall data: string | RustRegex.find(data).Some?
      ensures Fits(RustRegex.find(data).value, data, 1)
    {
      assert RustRegex.find(data) == AsMatch(RustFind(data));
    }
    forall data: string | FlutterRegex.find(data).Some?
      ensures Fits(FlutterRegex.find(data).value, data, 1)
    {
      assert FlutterRegex.find(data) == AsMatch(FlutterFind(data));
    }
  }
}
