/** The line-by-line manifests of PythonProject (pyproject.toml) and
    NodeProject (package.json): the version is read from the first line
    matching the field pattern, and written back into every matching line. */
module LineManifest {
  import opened Wrappers
  import opened Errors
  import opened GoInt
  import opened GoStrings
  import opened FileSystem
  import opened Patterns
  import V = Version

  /** A key and separator of a field pattern: no digit occurs in either. */
  predicate FieldSyntax(key: string, sep: char) {
    && (forall k :: 0 <= k < |key| ==> !IsDigit(key[k]))
    && !IsDigit(sep)
  }

  lemma FixedFieldsSyntax()
    ensures FieldSyntax(PythonKey, '=') && FieldSyntax(NodeKey, ':')
  {
  }

  /** The text the capture group of the field pattern holds on `line`. */
  function Capture(line: string, key: string, sep: char): (r: Option<string>)
    ensures r.Some? <==> LineMatch(line, key, sep).Some?
    ensures r.Some? ==> var g := LineMatch(line, key, sep).value;
                        g.start < g.end <= |line| && r.value == line[g.start..g.end]
  {
    match LineMatch(line, key, sep)
    case None => None
    case Some(g) => Some(line[g.start..g.end])
  }

  /** The first line at or after `i` that matches. */
  function FirstMatchFrom(lines: seq<string>, key: string, sep: char, i: nat): (r: Option<nat>)
    requires i <= |lines|
    ensures r.Some? ==> i <= r.value < |lines| && Capture(lines[r.value], key, sep).Some?
    ensures forall j :: i <= j < |lines| && (r.None? || j < r.value) ==> Capture(lines[j], key, sep).None?
    decreases |lines| - i
  {
    if i == |lines| then None
    else if Capture(lines[i], key, sep).Some? then Some(i)
    else FirstMatchFrom(lines, key, sep, i + 1)
  }

  function FirstMatch(lines: seq<string>, key: string, sep: char): (r: Option<nat>)
    ensures r.Some? ==> r.value < |lines| && Capture(lines[r.value], key, sep).Some?
    ensures forall j :: 0 <= j < |lines| && (r.None? || j < r.value) ==> Capture(lines[j], key, sep).None?
  {
    FirstMatchFrom(lines, key, sep, 0)
  }

  /** The scan loop of GetVersion: the first matching line's capture is
      parsed; no matching line is "version not found". */
  function VersionOfLines(lines: seq<string>, key: string, sep: char): (r: Result<V.Version, Error>)
    ensures FirstMatch(lines, key, sep).None? ==> r == Err(VersionNotFound)
    ensures FirstMatch(lines, key, sep).Some? ==>
              r == V.Parse(Capture(lines[FirstMatch(lines, key, sep).value], key, sep).value)
  {
    match FirstMatch(lines, key, sep)
    case None => Err(VersionNotFound)
    case Some(i) => V.Parse(Capture(lines[i], key, sep).value)
  }

  /** `os.Open` and a `bufio.Scanner`: a missing file fails; a directory
      opens but yields no line, since reading it fails. */
  function ScanFile(fs: FS, p: Path): (r: Result<seq<string>, Error>)
    ensures p !in fs ==> r == Err(NotExist(p))
    ensures IsDirAt(fs, p) ==> r == Ok([])
    ensures IsFileAt(fs, p) ==> r == Ok(Lines(fs[p].data))
  {
    if p !in fs then Err(NotExist(p))
    else match fs[p]
      case Dir(_) => Ok([])
      case File(data, _) => Ok(Lines(data))
  }

  function GetVersion(fs: FS, p: Path, key: string, sep: char): (r: Result<V.Version, Error>)
    ensures p !in fs ==> r == Err(NotExist(p))
    ensures IsDirAt(fs, p) ==> r == Err(VersionNotFound)
    ensures IsFileAt(fs, p) ==> r == VersionOfLines(Lines(fs[p].data), key, sep)
  {
    match ScanFile(fs, p)
    case Err(e) => Err(e)
    case Ok(lines) => VersionOfLines(lines, key, sep)
  }

  /** One line of SetVersion: a matching line has the first occurrence of
      its captured text, wherever it is, replaced by `text`; any other line
      is kept. */
  function RewriteLine(line: string, key: string, sep: char, text: string): (r: string)
    ensures Capture(line, key, sep).None? ==> r == line
    ensures Capture(line, key, sep).Some? ==> r == ReplaceFirst(line, Capture(line, key, sep).value, text)
  {
    match Capture(line, key, sep)
    case None => line
    case Some(c) => ReplaceFirst(line, c, text)
  }

  function RewriteLines(lines: seq<string>, key: string, sep: char, text: string): (r: seq<string>)
    ensures |r| == |lines|
    ensures forall i :: 0 <= i < |lines| ==> r[i] == RewriteLine(lines[i], key, sep, text)
  {
    if lines == [] then [] else [RewriteLine(lines[0], key, sep, text)] + RewriteLines(lines[1..], key, sep, text)
  }

  /** SetVersion: every scanned line, rewritten or not, is written back
      followed by '\n' with `os.WriteFile`, which creates or truncates. */
  function SetVersion(fs: FS, p: Path, key: string, sep: char, v: V.Version): (r: Result<FS, Error>)
    ensures p !in fs ==> r == Err(NotExist(p))
    ensures IsDirAt(fs, p) ==> r == Err(IsDirectory(p))
    ensures IsFileAt(fs, p) ==>
              r == WriteFile(fs, p, Unlines(RewriteLines(Lines(fs[p].data), key, sep, V.Format(v))), true)
    ensures r.Ok? ==> Writes(fs, r.value, p)
  {
    match ScanFile(fs, p)
    case Err(e) => Err(e)
    case Ok(lines) => WriteFile(fs, p, Unlines(RewriteLines(lines, key, sep, V.Format(v))), true)
  }

  // ---------------------------------------------------------------------
  // Reading back what SetVersion wrote

  /** A whitespace run ending inside a common prefix ends at the same place. */
  lemma {:induction false} SkipSpaceLocal(s: string, t: string, i: nat, n: nat)
    requires i <= n <= |s| && n <= |t| && s[..n] == t[..n]
    requires SkipSpace(s, i) < n
    ensures SkipSpace(t, i) == SkipSpace(s, i)
    decreases n - i
  {
    assert s[i] == s[..n][i] == t[..n][i] == t[i];
    if ReSpace(s[i]) {
      SkipSpaceLocal(s, t, i + 1, n);
    }
  }

  /** The layout of a matching line: where the key, separator and opening
      quote are. */
  lemma MatchLayout(line: string, key: string, sep: char)
    requires LineMatch(line, key, sep).Some?
    ensures var a0 := SkipSpace(line, 0);
            var a := SkipSpace(line, a0 + |key|);
            var b := SkipSpace(line, a + 1);
            var g := LineMatch(line, key, sep).value;
            && OccursAt(line, key, a0)
            && a0 + |key| <= a < b && b + 1 == g.start
            && line[a] == sep && line[b] == '"'
  {
  }

  /** No digit comes before the capture of a matching line. */
  lemma NoDigitBefore(line: string, key: string, sep: char)
    requires FieldSyntax(key, sep) && LineMatch(line, key, sep).Some?
    ensures forall k :: 0 <= k < LineMatch(line, key, sep).value.start ==> !IsDigit(line[k])
  {
    MatchLayout(line, key, sep);
    var a0 := SkipSpace(line, 0);
    var a := SkipSpace(line, a0 + |key|);
    var b := SkipSpace(line, a + 1);
    forall k | 0 <= k <= b ensures !IsDigit(line[k]) {
      if a0 <= k < a0 + |key| {
        assert line[k] == line[a0..a0 + |key|][k - a0] == key[k - a0];
      }
    }
  }

  /** The captured text starts with a digit, so its first occurrence is the
      capture itself, and the rewrite splices exactly the group. */
  lemma RewriteSplices(line: string, key: string, sep: char, text: string)
    requires FieldSyntax(key, sep) && Capture(line, key, sep).Some?
    requires IsDigit(Capture(line, key, sep).value[0])
    ensures var g := LineMatch(line, key, sep).value;
            RewriteLine(line, key, sep, text) == line[..g.start] + text + line[g.end..]
  {
    var g := LineMatch(line, key, sep).value;
    var c := Capture(line, key, sep).value;
    NoDigitBefore(line, key, sep);
    assert OccursAt(line, c, g.start);
    FirstOccurrence(line, c, g.start);
  }

  /** An occurrence before which the pattern's first character never
      appears is the first one. */
  lemma FirstOccurrence(s: string, pat: string, p: nat)
    requires |pat| > 0 && OccursAt(s, pat, p)
    requires forall k :: 0 <= k < p ==> s[k] != pat[0]
    ensures IndexOf(s, pat) == Some(p)
  {
    assert IndexOf(s, pat).Some?;
    var i := IndexOf(s, pat).value;
    assert s[i] == s[i..i + |pat|][0] == pat[0];
  }

  /** The quoted-value pattern at `j` over a line laid out as: whitespace,
      `sep`, whitespace, '"' at `b`, and the last '"' of the line at `q`. */
  lemma QuotedValueAt(s: string, j: nat, sep: char, a: nat, b: nat, q: nat)
    requires j <= |s| && a == SkipSpace(s, j) && a < |s| && s[a] == sep
    requires b == SkipSpace(s, a + 1) && b < |s| && s[b] == '"'
    requires forall k :: b < k < |s| ==> s[k] != '\n'
    requires b + 2 <= q < |s| && s[q] == '"'
    requires forall k :: q < k < |s| ==> s[k] != '"'
    ensures QuotedValue(s, j, sep) == Some(Span(b + 1, q))
  {
    assert LineEnd(s, b + 1) == |s|;
    assert LastQuote(s, b + 2, |s|) == Some(q);
  }

  /** A field layout: whitespace, the key at `a0`, whitespace, `sep` at `a`,
      whitespace and '"' at `b`. */
  predicate Layout(s: string, key: string, sep: char, a0: nat, a: nat, b: nat) {
    && a0 <= |s| && a0 == SkipSpace(s, 0) && OccursAt(s, key, a0)
    && a0 + |key| <= |s| && a == SkipSpace(s, a0 + |key|) && a < |s| && s[a] == sep
    && b == SkipSpace(s, a + 1) && b < |s| && s[b] == '"'
  }

  /** The layout of a matching line. */
  lemma MatchIsLayout(line: string, key: string, sep: char)
    requires LineMatch(line, key, sep).Some?
    ensures var a0 := SkipSpace(line, 0);
            var a := SkipSpace(line, a0 + |key|);
            var b := SkipSpace(line, a + 1);
            Layout(line, key, sep, a0, a, b) && b + 1 == LineMatch(line, key, sep).value.start
  {
    MatchLayout(line, key, sep);
  }

  /** A layout that ends inside a common prefix is a layout of both texts. */
  lemma SameLayout(s: string, t: string, key: string, sep: char, a0: nat, a: nat, b: nat, n: nat)
    requires Layout(s, key, sep, a0, a, b) && b < n <= |s| && n <= |t| && s[..n] == t[..n]
    ensures Layout(t, key, sep, a0, a, b)
  {
    SkipSpaceLocal(s, t, 0, n);
    SkipSpaceLocal(s, t, a0 + |key|, n);
    SkipSpaceLocal(s, t, a + 1, n);
    assert t[a0..a0 + |key|] == s[a0..a0 + |key|] by {
      assert t[a0..a0 + |key|] == t[..n][a0..a0 + |key|];
      assert s[a0..a0 + |key|] == s[..n][a0..a0 + |key|];
    }
    assert t[a] == t[..n][a] == s[a];
    assert t[b] == t[..n][b] == s[b];
  }

  /** A line with a field layout whose last '"' is at `q`, two or more
      characters after the opening one, matches with the group between. */
  lemma LayoutMatches(s: string, key: string, sep: char, a0: nat, a: nat, b: nat, q: nat)
    requires Layout(s, key, sep, a0, a, b)
    requires forall k :: b < k < |s| ==> s[k] != '\n'
    requires b + 2 <= q < |s| && s[q] == '"'
    requires forall k :: q < k < |s| ==> s[k] != '"'
    ensures LineMatch(s, key, sep) == Some(Span(b + 1, q))
  {
    QuotedValueAt(s, a0 + |key|, sep, a, b, q);
  }

  /** The characters of `line[..n] + text + line[e..]` from `n` on, when
      the text has no quote and `line[e]` is the last quote of the line. */
  lemma SpliceChars(line: string, text: string, n: nat, e: nat)
    requires n <= e < |line| && '\n' !in line && '"' !in text && '\n' !in text
    requires line[e] == '"' && forall k :: e < k < |line| ==> line[k] != '"'
    ensures var t := line[..n] + text + line[e..];
            var q := n + |text|;
            && q < |t| && t[q] == '"'
            && (forall k :: n <= k < |t| ==> t[k] != '\n')
            && (forall k :: q < k < |t| ==> t[k] != '"')
  {
    var t := line[..n] + text + line[e..];
    var q := n + |text|;
    forall k | n <= k < |t| ensures t[k] != '\n' && (q < k ==> t[k] != '"') {
      if k < q {
        assert t[k] == text[k - n];
      } else {
        assert t[k] == line[e + (k - q)];
      }
    }
    assert t[q] == line[e];
  }

  /** The group of a matching line on one line of text ends at its last
      quote. */
  lemma MatchEnd(line: string, key: string, sep: char)
    requires '\n' !in line && LineMatch(line, key, sep).Some?
    ensures var e := LineMatch(line, key, sep).value.end;
            && e < |line| && line[e] == '"'
            && forall k :: e < k < |line| ==> line[k] != '"'
  {
    MatchIsLayout(line, key, sep);
    var a0 := SkipSpace(line, 0);
    var a := SkipSpace(line, a0 + |key|);
    var b := SkipSpace(line, a + 1);
    assert LineEnd(line, b + 1) == |line|;
  }

  /** Splicing over `line[n..e]` of a line with a field layout, where `n`
      follows the opening quote and `e` is the last quote. */
  lemma SplicedLayout(line: string, key: string, sep: char, text: string,
                      a0: nat, a: nat, b: nat, n: nat, e: nat)
    requires Layout(line, key, sep, a0, a, b) && b + 1 == n
    requires n <= e < |line| && '\n' !in line && '"' !in text && '\n' !in text && |text| > 0
    requires line[e] == '"' && forall k :: e < k < |line| ==> line[k] != '"'
    ensures LineMatch(line[..n] + text + line[e..], key, sep) == Some(Span(n, n + |text|))
  {
    var t := line[..n] + text + line[e..];
    assert t[..n] == line[..n];
    SameLayout(line, t, key, sep, a0, a, b, n);
    SpliceChars(line, text, n, e);
    LayoutMatches(t, key, sep, a0, a, b, n + |text|);
  }

  /** Splicing non-empty text without quotes or line breaks over the group
      of a matching line gives a line whose group is that text. */
  lemma SplicedMatches(line: string, key: string, sep: char, text: string)
    requires '\n' !in line && LineMatch(line, key, sep).Some?
    requires |text| > 0 && '"' !in text && '\n' !in text
    ensures var g := LineMatch(line, key, sep).value;
            var t := line[..g.start] + text + line[g.end..];
            LineMatch(t, key, sep) == Some(Span(g.start, g.start + |text|))
  {
    var g := LineMatch(line, key, sep).value;
    MatchIsLayout(line, key, sep);
    MatchEnd(line, key, sep);
    var a0 := SkipSpace(line, 0);
    var a := SkipSpace(line, a0 + |key|);
    var b := SkipSpace(line, a + 1);
    SplicedLayout(line, key, sep, text, a0, a, b, g.start, g.end);
  }

  /** A rewritten matching line matches again, and its capture is the new
      text, as long as that text is non-empty and holds no quote or line
      break. */
  lemma RewriteRematches(line: string, key: string, sep: char, text: string)
    requires FieldSyntax(key, sep) && '\n' !in line
    requires Capture(line, key, sep).Some? && IsDigit(Capture(line, key, sep).value[0])
    requires |text| > 0 && '"' !in text && '\n' !in text
    ensures Capture(RewriteLine(line, key, sep, text), key, sep) == Some(text)
  {
    var g := LineMatch(line, key, sep).value;
    RewriteSplices(line, key, sep, text);
    SplicedMatches(line, key, sep, text);
    var t := line[..g.start] + text + line[g.end..];
    assert t[g.start..g.start + |text|] == text;
  }

  /** Rewriting keeps every line free of line breaks. */
  lemma RewriteNoBreak(line: string, key: string, sep: char, text: string)
    requires '\n' !in line && '\n' !in text
    ensures '\n' !in RewriteLine(line, key, sep, text)
  {
    if Capture(line, key, sep).Some? {
      ReplaceNoBreak(line, Capture(line, key, sep).value, text);
    }
  }

  /** Replacing within a line by text without a line break keeps it one line. */
  lemma ReplaceNoBreak(s: string, pat: string, repl: string)
    requires '\n' !in s && '\n' !in repl
    ensures '\n' !in ReplaceFirst(s, pat, repl)
  {
    if IndexOf(s, pat).Some? {
      var i := IndexOf(s, pat).value;
      var r := ReplaceFirst(s, pat, repl);
      forall k | 0 <= k < |r| ensures r[k] != '\n' {
        if k < i {
          assert r[k] == s[k];
        } else if k >= i + |repl| {
          assert r[k] == s[k - |repl| + |pat|];
        }
      }
    }
  }

  /** The first matching line is still the first after the rewrite, and now
      captures the new text. */
  lemma {:induction false} RewriteFirstMatch(lines: seq<string>, key: string, sep: char, text: string)
    requires FieldSyntax(key, sep)
    requires forall i :: 0 <= i < |lines| ==> '\n' !in lines[i]
    requires FirstMatch(lines, key, sep).Some?
    requires IsDigit(Capture(lines[FirstMatch(lines, key, sep).value], key, sep).value[0])
    requires |text| > 0 && '"' !in text && '\n' !in text
    ensures var out := RewriteLines(lines, key, sep, text);
            && FirstMatch(out, key, sep) == FirstMatch(lines, key, sep)
            && Capture(out[FirstMatch(lines, key, sep).value], key, sep) == Some(text)
  {
    var out := RewriteLines(lines, key, sep, text);
    var j := FirstMatch(lines, key, sep).value;
    RewriteRematches(lines[j], key, sep, text);
    forall i | 0 <= i < j ensures Capture(out[i], key, sep).None? {
      assert out[i] == lines[i];
    }
    var r := FirstMatch(out, key, sep);
    assert r.Some? && r.value <= j;
  }

  /** The text of a well-formed version is non-empty and holds no quote
      and no line break. */
  lemma FormatSafe(v: V.Version)
    requires V.WellFormed(v)
    ensures |V.Format(v)| > 0 && '"' !in V.Format(v) && '\n' !in V.Format(v)
    ensures IsDigit(V.Format(v)[0])
  {
    var text := V.Format(v);
    V.FormatChars(v);
    forall k | 0 <= k < |text| ensures text[k] != '"' && text[k] != '\n' {
      assert V.VersionChar(text[k]);
    }
  }

  /** What SetVersion writes scans back to the rewritten lines. */
  lemma RewriteScansBack(lines: seq<string>, key: string, sep: char, text: string)
    requires forall i :: 0 <= i < |lines| ==> '\n' !in lines[i]
    requires '\n' !in text
    ensures Lines(Unlines(RewriteLines(lines, key, sep, text))) == RewriteLines(lines, key, sep, text)
  {
    var out := RewriteLines(lines, key, sep, text);
    forall i | 0 <= i < |out| ensures '\n' !in out[i] {
      RewriteNoBreak(lines[i], key, sep, text);
    }
    LinesUnlines(out);
  }

  /** The partner of SetVersion: after writing a well-formed version into a
      manifest GetVersion could read, GetVersion reads exactly that version. */
  lemma SetThenGet(fs: FS, p: Path, key: string, sep: char, v: V.Version)
    requires FieldSyntax(key, sep) && V.WellFormed(v)
    requires GetVersion(fs, p, key, sep).Ok?
    requires SetVersion(fs, p, key, sep, v).Ok?
    ensures GetVersion(SetVersion(fs, p, key, sep, v).value, p, key, sep) == Ok(v)
  {
    var lines := Lines(fs[p].data);
    var text := V.Format(v);
    FormatSafe(v);
    var j := FirstMatch(lines, key, sep).value;
    V.ParsedStartsWithDigit(Capture(lines[j], key, sep).value);
    RewriteFirstMatch(lines, key, sep, text);
    RewriteScansBack(lines, key, sep, text);
    var out := RewriteLines(lines, key, sep, text);
    var fs2 := SetVersion(fs, p, key, sep, v).value;
    assert fs2[p].data == Unlines(out);
    assert GetVersion(fs2, p, key, sep) == VersionOfLines(out, key, sep);
    V.ParseFormat(v);
  }

  /** SetVersion writes one line per scanned line, each ending in '\n'. */
  lemma SetKeepsLineCount(fs: FS, p: Path, key: string, sep: char, v: V.Version)
    requires IsFileAt(fs, p) && SetVersion(fs, p, key, sep, v).Ok? && V.WellFormed(v)
    ensures var data := SetVersion(fs, p, key, sep, v).value[p].data;
            && |Lines(data)| == |Lines(fs[p].data)|
            && (data == [] || data[|data| - 1] == '\n')
  {
    var lines := Lines(fs[p].data);
    var text := V.Format(v);
    FormatSafe(v);
    RewriteScansBack(lines, key, sep, text);
    var out := RewriteLines(lines, key, sep, text);
    UnlinesLines(Unlines(out));
  }
}
