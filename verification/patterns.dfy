/** The four fixed regular expressions the project adapters use to find a
    version field, written out as matchers with the leftmost-first semantics
    of Go's regexp package:

      pyproject.toml (per line)   ^\s*version\s*=\s*"(.+)"
      package.json (per line)     ^\s*"version"\s*:\s*"(.+)"
      Cargo.toml (whole file)     \s*version\s*=\s*"(.+)"
      pubspec.yaml (whole file)   (?m)^\s*version\s*:\s*["']?([^\s"']+)["']?

    Each has one capture group, and every greedy step is forced: a `\s*` is
    followed by a character that is not `\s`, so it takes the whole run, and
    `(.+)"` ends at the last '"' of its line. */
module Patterns {
  import opened Wrappers
  import opened GoStrings

  /** `\s` in Go's regexp syntax: `[\t\n\f\r ]`. */
  predicate ReSpace(c: char) {
    c == '\t' || c == '\n' || c == '\U{0C}' || c == '\r' || c == ' '
  }

  /** The end of the run of `\s` starting at `i`: what a greedy `\s*` takes. */
  function SkipSpace(s: string, i: nat): (j: nat)
    requires i <= |s|
    ensures i <= j <= |s|
    ensures forall k :: i <= k < j ==> ReSpace(s[k])
    ensures j < |s| ==> !ReSpace(s[j])
    decreases |s| - i
  {
    if i < |s| && ReSpace(s[i]) then SkipSpace(s, i + 1) else i
  }

  /** The end of the line holding position `i`: the next '\n', or the end of
      the text. */
  function LineEnd(s: string, i: nat): (e: nat)
    requires i <= |s|
    ensures i <= e <= |s|
    ensures forall k :: i <= k < e ==> s[k] != '\n'
    ensures e < |s| ==> s[e] == '\n'
    decreases |s| - i
  {
    if i < |s| && s[i] != '\n' then LineEnd(s, i + 1) else i
  }

  /** The last '"' in `s[lo..hi]`. */
  function LastQuote(s: string, lo: nat, hi: nat): (r: Option<nat>)
    requires lo <= hi <= |s|
    ensures r.Some? ==> lo <= r.value < hi && s[r.value] == '"'
    ensures r.Some? ==> forall k :: r.value < k < hi ==> s[k] != '"'
    ensures r.None? ==> forall k :: lo <= k < hi ==> s[k] != '"'
    decreases hi - lo
  {
    if hi <= lo then None
    else if s[hi - 1] == '"' then Some(hi - 1)
    else LastQuote(s, lo, hi - 1)
  }

  /** A half-open range of positions. */
  datatype Span = Span(start: nat, end: nat)

  /** Where a pattern matched, and where its capture group matched. */
  datatype Hit = Hit(whole: Span, group: Span)

  predicate InText(sp: Span, s: string) {
    sp.start <= sp.end <= |s|
  }

  /** `\s*SEP\s*"(.+)"` tried at `j`; the result is the capture group. The
      separator and the opening quote each follow a whitespace run, and the
      group runs to the last '"' of the line, at least one character on. */
  function QuotedValue(s: string, j: nat, sep: char): (r: Option<Span>)
    requires j <= |s|
    ensures var a := SkipSpace(s, j);
            r.Some? ==> a < |s| && s[a] == sep && SkipSpace(s, a + 1) < |s|
    ensures r.Some? ==>
              var b := SkipSpace(s, SkipSpace(s, j) + 1);
              var g := r.value;
              && s[b] == '"' && g.start == b + 1 && b + 2 <= g.end < LineEnd(s, b + 1)
              && s[g.end] == '"'
              && (forall k :: g.end < k < LineEnd(s, b + 1) ==> s[k] != '"')
    ensures r.None? ==>
              var a := SkipSpace(s, j);
              a < |s| && s[a] == sep && SkipSpace(s, a + 1) < |s| && s[SkipSpace(s, a + 1)] == '"' ==>
                var b := SkipSpace(s, a + 1);
                forall k :: b + 2 <= k < LineEnd(s, b + 1) ==> s[k] != '"'
  {
    var a := SkipSpace(s, j);
    if a < |s| && s[a] == sep then
      var b := SkipSpace(s, a + 1);
      if b < |s| && s[b] == '"' then
        var e := LineEnd(s, b + 1);
        if b + 2 <= e then
          match LastQuote(s, b + 2, e)
          case None => None
          case Some(q) => Some(Span(b + 1, q))
        else None
      else None
    else None
  }

  /** The group lies inside the text, right after the opening quote, and
      holds no line break. */
  lemma QuotedValueText(s: string, j: nat, sep: char)
    requires j <= |s| && QuotedValue(s, j, sep).Some?
    ensures var g := QuotedValue(s, j, sep).value;
            g.start < g.end < |s| && '\n' !in s[g.start..g.end] && s[g.start - 1] == '"'
  {
    var g := QuotedValue(s, j, sep).value;
    var b := SkipSpace(s, SkipSpace(s, j) + 1);
    forall k | g.start <= k < g.end ensures s[k] != '\n' {
    }
    assert forall k :: 0 <= k < g.end - g.start ==> s[g.start..g.end][k] == s[g.start + k];
  }

  /** One line against `^\s*KEY\s*SEP\s*"(.+)"`: the anchored patterns of
      pyproject.toml (key `version`, separator '=') and package.json (key
      `"version"`, separator ':'). */
  function LineMatch(line: string, key: string, sep: char): (r: Option<Span>)
    ensures r.Some? <==> OccursAt(line, key, SkipSpace(line, 0)) &&
                         QuotedValue(line, SkipSpace(line, 0) + |key|, sep).Some?
    ensures r.Some? ==> r == QuotedValue(line, SkipSpace(line, 0) + |key|, sep)
  {
    var k := SkipSpace(line, 0);
    if OccursAt(line, key, k) then QuotedValue(line, k + |key|, sep) else None
  }

  const PythonKey: string := "version"
  const NodeKey: string := "\"version\""

  // ---------------------------------------------------------------------
  // Cargo.toml

  /** The Cargo.toml pattern tried at position `p`. */
  function RustAt(s: string, p: nat): (r: Option<Span>)
    requires p <= |s|
    ensures r.Some? ==> OccursAt(s, "version", SkipSpace(s, p))
    ensures r.Some? ==> r == QuotedValue(s, SkipSpace(s, p) + 7, '=')
  {
    var k := SkipSpace(s, p);
    if OccursAt(s, "version", k) then QuotedValue(s, k + 7, '=') else None
  }

  /** The leftmost match of the Cargo.toml pattern at or after `p`. */
  function RustFrom(s: string, p: nat): (r: Option<Hit>)
    requires p <= |s|
    ensures r.Some? ==> p <= r.value.whole.start <= |s| &&
                        RustAt(s, r.value.whole.start) == Some(r.value.group) &&
                        r.value.whole.end == r.value.group.end + 1
    ensures forall q :: p <= q <= |s| && (r.None? || q < r.value.whole.start) ==> RustAt(s, q).None?
    decreases |s| - p
  {
    match RustAt(s, p)
    case Some(g) => Some(Hit(Span(p, g.end + 1), g))
    case None => if p == |s| then None else RustFrom(s, p + 1)
  }

  /** `RustVersionRE.FindSubmatchIndex`: the leftmost match in the file. */
  function RustFind(s: string): (r: Option<Hit>)
    ensures r.Some? ==> InText(r.value.whole, s) && InText(r.value.group, s)
    ensures r.Some? ==> RustAt(s, r.value.whole.start) == Some(r.value.group)
    ensures r.Some? ==> r.value.whole.start <= r.value.group.start < r.value.group.end < r.value.whole.end
    ensures forall q :: 0 <= q <= |s| && (r.None? || q < r.value.whole.start) ==> RustAt(s, q).None?
  {
    RustFrom(s, 0)
  }

  // ---------------------------------------------------------------------
  // pubspec.yaml

  predicate IsQuote(c: char) {
    c == '"' || c == '\''
  }

  /** A character `[^\s"']` admits. */
  predicate RunChar(c: char) {
    !ReSpace(c) && !IsQuote(c)
  }

  /** The end of the run of `[^\s"']` from `i`. */
  function RunEnd(s: string, i: nat): (e: nat)
    requires i <= |s|
    ensures i <= e <= |s|
    ensures forall k :: i <= k < e ==> RunChar(s[k])
    ensures e < |s| ==> !RunChar(s[e])
    decreases |s| - i
  {
    if i < |s| && RunChar(s[i]) then RunEnd(s, i + 1) else i
  }

  /** `^` in multi-line mode: the start of the text or just after a '\n'. */
  predicate LineStart(s: string, p: nat) {
    p == 0 || (0 < p <= |s| && s[p - 1] == '\n')
  }

  /** The pubspec.yaml pattern tried at `p`. After `version`, whitespace,
      ':' and whitespace, an opening quote is taken when there is one; the
      group is then the longest non-empty run of `[^\s"']`, and a closing
      quote right after it belongs to the match. Not taking the opening
      quote cannot rescue a match, since the run would then start at a quote. */
  function FlutterAt(s: string, p: nat): (r: Option<Hit>)
    requires p <= |s|
    ensures r.Some? ==> LineStart(s, p) && OccursAt(s, "version", SkipSpace(s, p))
    ensures r.Some? ==>
              var g := r.value.group;
              && r.value.whole.start == p
              && p < g.start < g.end <= r.value.whole.end <= |s|
              && (forall k :: g.start <= k < g.end ==> RunChar(s[k]))
              && (g.end < |s| ==> !RunChar(s[g.end]))
              && (r.value.whole.end == g.end + 1 <==> g.end < |s| && IsQuote(s[g.end]))
    ensures r.Some? ==>
              var a := SkipSpace(s, SkipSpace(s, p) + 7);
              a < |s| && s[a] == ':' &&
              var b := SkipSpace(s, a + 1);
              r.value.group.start == (if b < |s| && IsQuote(s[b]) then b + 1 else b)
  {
    if !LineStart(s, p) then None
    else
      var k := SkipSpace(s, p);
      if !OccursAt(s, "version", k) then None
      else
        var a := SkipSpace(s, k + 7);
        if !(a < |s| && s[a] == ':') then None
        else
          var b := SkipSpace(s, a + 1);
          var v := if b < |s| && IsQuote(s[b]) then b + 1 else b;
          var e := RunEnd(s, v);
          if e == v then None
          else
            var close := if e < |s| && IsQuote(s[e]) then e + 1 else e;
            Some(Hit(Span(p, close), Span(v, e)))
  }

  /** The leftmost match of the pubspec.yaml pattern at or after `p`. */
  function FlutterFrom(s: string, p: nat): (r: Option<Hit>)
    requires p <= |s|
    ensures r.Some? ==> p <= r.value.whole.start <= |s| && FlutterAt(s, r.value.whole.start) == r
    ensures forall q :: p <= q <= |s| && (r.None? || q < r.value.whole.start) ==> FlutterAt(s, q).None?
    decreases |s| - p
  {
    match FlutterAt(s, p)
    case Some(h) => Some(h)
    case None => if p == |s| then None else FlutterFrom(s, p + 1)
  }

  /** `flutterVersionRE.FindSubmatchIndex`: the leftmost match in the file. */
  function FlutterFind(s: string): (r: Option<Hit>)
    ensures r.Some? ==> InText(r.value.whole, s) && InText(r.value.group, s)
    ensures r.Some? ==> FlutterAt(s, r.value.whole.start) == r
    ensures r.Some? ==> r.value.whole.start <= r.value.group.start < r.value.group.end <= r.value.whole.end
    ensures forall q :: 0 <= q <= |s| && (r.None? || q < r.value.whole.start) ==> FlutterAt(s, q).None?
  {
    FlutterFrom(s, 0)
  }
}
