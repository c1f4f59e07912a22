/** internal/changelog: whether CHANGELOG.md has a heading for the version
    about to be released. */
module Changelog {
  import opened Wrappers
  import opened Errors
  import opened GoStrings
  import opened FileSystem

  const ChangelogMd: string := "CHANGELOG.md"

  /** The three spellings of the version a heading token may use. */
  datatype Target = Target(exact: string, withPrefix: string, withoutPrefix: string)

  /** `trimVersionPrefix`: drops one leading 'v' or 'V'. */
  function TrimVersionPrefix(s: string): (r: string)
    ensures |s| > 0 && (s[0] == 'v' || s[0] == 'V') ==> [s[0]] + r == s
    ensures !(|s| > 0 && (s[0] == 'v' || s[0] == 'V')) ==> r == s
  {
    if |s| > 0 && (s[0] == 'v' || s[0] == 'V') then s[1..] else s
  }

  /** `newVersionTarget`: the trimmed version, and its spellings with and
      without a lower-case 'v'. */
  function NewTarget(version: string): (r: Target)
    ensures TrimSpace(version) == [] ==> r == Target([], [], [])
    ensures TrimSpace(version) != [] ==>
              && r.exact == TrimSpace(version)
              && r.withoutPrefix == TrimVersionPrefix(r.exact)
              && (r.withoutPrefix != [] ==> r.withPrefix == "v" + r.withoutPrefix)
              && (r.withoutPrefix == [] ==> r.withPrefix == [])
  {
    var v := TrimSpace(version);
    if v == [] then Target([], [], [])
    else
      var without := TrimVersionPrefix(v);
      var with := if |without| > 0 then "v" + without else without;
      Target(v, with, without)
  }

  /** The characters `normalizeToken` strips from both ends. */
  const Cutset: set<char> := {'[', ']', '(', ')', '{', '}', '<', '>', '`', '*', '_'}

  /** The punctuation `normalizeToken` strips from the end, one of each, in
      this order. */
  const Suffixes: seq<string> := [":", ",", ";", ".", "!", "?"]

  function TrimSuffixes(s: string, suffixes: seq<string>): string
    decreases |suffixes|
  {
    if suffixes == [] then s else TrimSuffixes(TrimSuffix(s, suffixes[0]), suffixes[1..])
  }

  /** `normalizeToken`. */
  function NormalizeToken(token: string): (r: string)
    ensures |r| <= |token|
  {
    TrimSuffixLength(TrimSet(TrimSpace(token), Cutset), Suffixes);
    TrimSuffixes(TrimSet(TrimSpace(token), Cutset), Suffixes)
  }

  lemma {:induction false} TrimSuffixLength(s: string, suffixes: seq<string>)
    ensures |TrimSuffixes(s, suffixes)| <= |s|
    decreases |suffixes|
  {
    if suffixes != [] {
      TrimSuffixLength(TrimSuffix(s, suffixes[0]), suffixes[1..]);
    }
  }

  /** `matchesTarget`: a non-empty token that is one of the spellings, or
      is the bare version once its own 'v' or 'V' is dropped. */
  predicate MatchesTarget(token: string, t: Target)
    ensures MatchesTarget(token, t) ==> token != []
    ensures t.withPrefix == [] || t.withPrefix == "v" + t.withoutPrefix ==>
              (MatchesTarget(token, t) <==>
                 token != [] &&
                 (token == t.exact || token == t.withoutPrefix || TrimVersionPrefix(token) == t.withoutPrefix))
  {
    && token != []
    && (token == t.exact || token == t.withPrefix || token == t.withoutPrefix
        || TrimVersionPrefix(token) == t.withoutPrefix)
  }

  /** `isVersionLine`: a Markdown heading one of whose words, normalised,
      matches the target. */
  predicate IsVersionLine(line: string, t: Target)
    ensures IsVersionLine(line, t) ==> HasPrefix(TrimSpace(line), "#")
  {
    var trimmed := TrimSpace(line);
    && trimmed != []
    && HasPrefix(trimmed, "#")
    && Header(trimmed) != []
    && AnyTokenMatches(Fields(Header(trimmed)), t)
  }

  /** The heading text after the run of '#' marks, trimmed. */
  function Header(trimmed: string): string {
    TrimSpace(TrimLeftSet(trimmed, {'#'}))
  }

  predicate AnyTokenMatches(tokens: seq<string>, t: Target) {
    exists i :: 0 <= i < |tokens| && MatchesTarget(NormalizeToken(tokens[i]), t)
  }

  /** Some line is a heading for the target. */
  predicate HasVersionLine(lines: seq<string>, t: Target) {
    exists i :: 0 <= i < |lines| && IsVersionLine(lines[i], t)
  }

  /** `EnsureUpdated`: an empty version and a missing changelog pass; any
      other read error fails; otherwise some line split at '\n' must be a
      heading for the version. */
  function EnsureUpdated(fs: FS, workdir: Path, version: string): (r: bool)
    ensures TrimSpace(version) == [] ==> r
    ensures TrimSpace(version) != [] && PathJoin(workdir, ChangelogMd) !in fs ==> r
    ensures TrimSpace(version) != [] && IsDirAt(fs, PathJoin(workdir, ChangelogMd)) ==> !r
    ensures TrimSpace(version) != [] && IsFileAt(fs, PathJoin(workdir, ChangelogMd)) ==>
              (r <==> HasVersionLine(Split(fs[PathJoin(workdir, ChangelogMd)].data, '\n'), NewTarget(version)))
  {
    if TrimSpace(version) == [] then true
    else
      match ReadFile(fs, PathJoin(workdir, ChangelogMd))
      case Err(e) => e.NotExist?
      case Ok(data) =>
        HasVersionLine(Split(data, '\n'), NewTarget(version))
  }

  // ---------------------------------------------------------------------
  // Which headings count

  /** A word normalisation leaves as it is. */
  predicate Clean(x: string) {
    && |x| > 0 && NoSpace(x)
    && x[0] !in Cutset && x[|x| - 1] !in Cutset
    && x[|x| - 1] !in {':', ',', ';', '.', '!', '?'}
  }

  lemma {:induction false} TrimSuffixesKeep(s: string, suffixes: seq<string>)
    requires |s| > 0
    requires forall i :: 0 <= i < |suffixes| ==> |suffixes[i]| == 1 && suffixes[i][0] != s[|s| - 1]
    ensures TrimSuffixes(s, suffixes) == s
    decreases |suffixes|
  {
    if suffixes != [] {
      TrimSuffixesKeep(s, suffixes[1..]);
    }
  }

  lemma TrimSetKeeps(s: string, cut: set<char>)
    requires |s| > 0 && s[0] !in cut && s[|s| - 1] !in cut
    ensures TrimSet(s, cut) == s
  {
    assert TrimLeftSet(s, cut) == s;
    assert TrimRightSet(s, cut) == s;
  }

  /** A clean word is its own normal form. */
  lemma NormalizeClean(x: string)
    requires Clean(x)
    ensures NormalizeToken(x) == x
  {
    TrimSpaceKeeps(x);
    TrimSetKeeps(x, Cutset);
    CleanKeepsSuffixes(x);
  }

  /** Brackets, parentheses and emphasis around a clean word are dropped:
      `[0.2.0]` normalises to `0.2.0`. */
  lemma NormalizeWrapped(open: char, x: string, close: char)
    requires Clean(x) && open in Cutset && close in Cutset
    ensures NormalizeToken([open] + x + [close]) == x
  {
    var s := [open] + x + [close];
    CutNotSpace(open);
    CutNotSpace(close);
    EndsKept(s);
    TrimSetWrapped(open, x, close, Cutset);
    CleanKeepsSuffixes(x);
    NormalizeOf(s, x);
  }

  lemma CutNotSpace(c: char)
    requires c in Cutset
    ensures !IsSpace(c)
  {
  }

  lemma EndsKept(s: string)
    requires |s| > 0 && !IsSpace(s[0]) && !IsSpace(s[|s| - 1])
    ensures TrimSpace(s) == s
  {
    TrimSpaceKeeps(s);
  }

  lemma NormalizeOf(s: string, x: string)
    requires TrimSpace(s) == s && TrimSet(s, Cutset) == x && TrimSuffixes(x, Suffixes) == x
    ensures NormalizeToken(s) == x
  {
  }

  lemma CleanKeepsSuffixes(x: string)
    requires Clean(x)
    ensures TrimSuffixes(x, Suffixes) == x
  {
    TrimSuffixesKeep(x, Suffixes);
  }

  /** One character of the cut set on each side of a word that neither
      starts nor ends with one is all `strings.Trim` removes. */
  lemma TrimSetWrapped(open: char, x: string, close: char, cut: set<char>)
    requires |x| > 0 && x[0] !in cut && x[|x| - 1] !in cut && open in cut && close in cut
    ensures TrimSet([open] + x + [close], cut) == x
  {
    var s := [open] + x + [close];
    assert TrimLeftSet(s, cut) == x + [close] by {
      assert s[1..] == x + [close];
    }
    assert TrimRightSet(x + [close], cut) == x by {
      assert (x + [close])[..|x|] == x;
    }
  }

  /** Leading spaces before text that neither starts nor ends with a space
      are all TrimSpace removes. */
  lemma TrimSpaceAfter(sp: string, x: string)
    requires AllSpace(sp) && |x| > 0 && !IsSpace(x[0]) && !IsSpace(x[|x| - 1])
    ensures TrimSpace(sp + x) == x
  {
    TrimSpaceOf(sp, x, []);
    assert sp + x + [] == sp + x;
  }

  /** The first field of a word followed by a space (or by nothing) is the
      word. */
  lemma FieldsFirst(w: string, rest: string)
    requires |w| > 0 && NoSpace(w) && (rest == [] || IsSpace(rest[0]))
    ensures |Fields(w + rest)| > 0 && Fields(w + rest)[0] == w
  {
    TakeWordOf(w, rest);
    assert (w + rest)[0] == w[0];
  }

  lemma {:induction false} TrimLeftSetAfter(pre: string, x: string, cut: set<char>)
    requires (forall k :: 0 <= k < |pre| ==> pre[k] in cut) && |x| > 0 && x[0] !in cut
    ensures TrimLeftSet(pre + x, cut) == x
  {
    if pre == [] {
      assert pre + x == x;
    } else {
      assert (pre + x)[1..] == pre[1..] + x;
      TrimLeftSetAfter(pre[1..], x, cut);
    }
  }

  /** "## " followed by text is a heading whose text is that text. */
  lemma HeaderOf(x: string)
    requires |x| > 0 && !IsSpace(x[0]) && !IsSpace(x[|x| - 1]) && x[0] != '#'
    ensures TrimSpace("## " + x) == "## " + x
    ensures Header("## " + x) == x
  {
    var line := "## " + x;
    assert line[0] == '#' && line[|line| - 1] == x[|x| - 1];
    TrimSpaceKeeps(line);
    assert line == "##" + (" " + x);
    TrimLeftSetAfter("##", " " + x, {'#'});
    TrimSpaceAfter(" ", x);
  }

  lemma HeadingMark(x: string)
    ensures HasPrefix("## " + x, "#")
  {
    var line := "## " + x;
    assert line[0] == '#';
    assert line[..1] == ['#'];
  }

  /** "## " and a heading text is a version line exactly when one of the
      text's words matches. */
  lemma HeadingWords(x: string, t: Target)
    requires |x| > 0 && !IsSpace(x[0]) && !IsSpace(x[|x| - 1]) && x[0] != '#'
    ensures IsVersionLine("## " + x, t) == AnyTokenMatches(Fields(x), t)
  {
    HeaderOf(x);
    HeadingMark(x);
  }

  /** "## " and a heading text is a version line when one of the text's
      words matches. */
  lemma HeadingLine(x: string, t: Target)
    requires |x| > 0 && !IsSpace(x[0]) && !IsSpace(x[|x| - 1]) && x[0] != '#'
    requires AnyTokenMatches(Fields(x), t)
    ensures IsVersionLine("## " + x, t)
  {
    HeaderOf(x);
    HeadingMark(x);
  }

  /** A heading "## " followed by a word and, optionally, more words after
      a space is a version line when the first word, normalised, matches. */
  lemma HeadingCounts(tok: string, rest: string, t: Target)
    requires |tok| > 0 && NoSpace(tok) && tok[0] != '#'
    requires rest == [] || (IsSpace(rest[0]) && !IsSpace(rest[|rest| - 1]))
    requires MatchesTarget(NormalizeToken(tok), t)
    ensures IsVersionLine("## " + (tok + rest), t)
  {
    WordThenRest(tok, rest);
    FirstWordMatches(tok, rest, t);
    HeadingLine(tok + rest, t);
  }

  lemma WordThenRest(tok: string, rest: string)
    requires |tok| > 0 && NoSpace(tok) && tok[0] != '#'
    requires rest == [] || (IsSpace(rest[0]) && !IsSpace(rest[|rest| - 1]))
    ensures var x := tok + rest; |x| > 0 && !IsSpace(x[0]) && !IsSpace(x[|x| - 1]) && x[0] != '#'
  {
    var x := tok + rest;
    assert x[0] == tok[0];
    assert x[|x| - 1] == if rest == [] then tok[|tok| - 1] else rest[|rest| - 1];
  }

  lemma FirstWordMatches(tok: string, rest: string, t: Target)
    requires |tok| > 0 && NoSpace(tok) && (rest == [] || IsSpace(rest[0]))
    requires MatchesTarget(NormalizeToken(tok), t)
    ensures AnyTokenMatches(Fields(tok + rest), t)
  {
    FieldsFirst(tok, rest);
    assert MatchesTarget(NormalizeToken(Fields(tok + rest)[0]), t);
  }

  /** The changelog passes when one of its lines is "## " and the version,
      for a version whose text is a clean word. */
  lemma HeadingMakesUpdated(fs: FS, workdir: Path, version: string, i: nat)
    requires Clean(TrimSpace(version)) && TrimSpace(version)[0] != '#'
    requires IsFileAt(fs, PathJoin(workdir, ChangelogMd))
    requires var lines := Split(fs[PathJoin(workdir, ChangelogMd)].data, '\n');
             i < |lines| && lines[i] == "## " + TrimSpace(version)
    ensures EnsureUpdated(fs, workdir, version)
  {
    var x := TrimSpace(version);
    TrimSpaceKeeps(x);
    NormalizeClean(x);
    HeadingCounts(x, [], NewTarget(version));
    assert x + [] == x;
  }

  /** The target for a version that is its own trim and starts with no 'v'. */
  lemma BareTarget(x: string)
    requires |x| > 0 && !IsSpace(x[0]) && !IsSpace(x[|x| - 1]) && x[0] != 'v' && x[0] != 'V'
    ensures NewTarget(x) == Target(x, "v" + x, x)
  {
    TrimSpaceKeeps(x);
  }

  /** The same version asked for with a 'v' or 'V'. */
  lemma LetterTarget(x: string, c: char)
    requires |x| > 0 && !IsSpace(x[0]) && !IsSpace(x[|x| - 1]) && x[0] != 'v' && x[0] != 'V'
    requires c == 'v' || c == 'V'
    ensures NewTarget([c] + x) == Target([c] + x, "v" + x, x)
  {
    var y := [c] + x;
    assert y[0] == c && y[|y| - 1] == x[|x| - 1] && y[1..] == x;
    TrimSpaceKeeps(y);
  }

  /** Asking for "v" or "V" and a version accepts the same words as asking
      for the bare version. */
  lemma PrefixedTarget(x: string, c: char, tok: string)
    requires |x| > 0 && !IsSpace(x[0]) && !IsSpace(x[|x| - 1]) && x[0] != 'v' && x[0] != 'V'
    requires c == 'v' || c == 'V'
    ensures MatchesTarget(tok, NewTarget([c] + x)) == MatchesTarget(tok, NewTarget(x))
  {
    BareTarget(x);
    LetterTarget(x, c);
    if tok == [c] + x {
      assert TrimVersionPrefix(tok) == x by {
        assert tok[1..] == x;
      }
    }
  }

  lemma AnyPrefixOptional(tokens: seq<string>, x: string, c: char)
    requires |x| > 0 && !IsSpace(x[0]) && !IsSpace(x[|x| - 1]) && x[0] != 'v' && x[0] != 'V'
    requires c == 'v' || c == 'V'
    ensures AnyTokenMatches(tokens, NewTarget([c] + x)) == AnyTokenMatches(tokens, NewTarget(x))
  {
    forall i | 0 <= i < |tokens|
      ensures MatchesTarget(NormalizeToken(tokens[i]), NewTarget([c] + x))
              == MatchesTarget(NormalizeToken(tokens[i]), NewTarget(x))
    {
      PrefixedTarget(x, c, NormalizeToken(tokens[i]));
    }
  }

  /** Whether a line is a heading depends on the target only through its
      words. */
  lemma SameWordsSameLine(line: string, t1: Target, t2: Target)
    requires var tokens := Fields(Header(TrimSpace(line)));
             AnyTokenMatches(tokens, t1) == AnyTokenMatches(tokens, t2)
    ensures IsVersionLine(line, t1) == IsVersionLine(line, t2)
  {
  }

  /** The leading 'v' is optional: asking for "v1.2.3" or "V1.2.3" accepts
      exactly the same headings as asking for "1.2.3". */
  lemma PrefixOptional(x: string, c: char, line: string)
    requires |x| > 0 && !IsSpace(x[0]) && !IsSpace(x[|x| - 1]) && x[0] != 'v' && x[0] != 'V'
    requires c == 'v' || c == 'V'
    ensures IsVersionLine(line, NewTarget([c] + x)) == IsVersionLine(line, NewTarget(x))
  {
    AnyPrefixOptional(Fields(Header(TrimSpace(line))), x, c);
    SameWordsSameLine(line, NewTarget([c] + x), NewTarget(x));
  }

  lemma FieldsOne(w: string)
    requires |w| > 0 && NoSpace(w)
    ensures Fields(w) == [w]
  {
    TakeWordOf(w, []);
    assert w + [] == w;
    assert w[|w|..] == [];
  }

  /** A heading of a single word is a version line exactly when that word,
      normalised, matches. */
  lemma SingleWordHeading(w: string, t: Target)
    requires |w| > 0 && NoSpace(w) && w[0] != '#'
    ensures IsVersionLine("## " + w, t) <==> MatchesTarget(NormalizeToken(w), t)
  {
    assert IsVersionLine("## " + w, t) == AnyTokenMatches(Fields(w), t) by {
      HeadingWords(w, t);
    }
    assert Fields(w) == [w] by {
      FieldsOne(w);
    }
    OneToken(w, t);
  }

  lemma OneToken(w: string, t: Target)
    ensures AnyTokenMatches([w], t) <==> MatchesTarget(NormalizeToken(w), t)
  {
    assert [w][0] == w;
  }

  lemma WrappedNoSpace(open: char, w: string, close: char)
    requires NoSpace(w) && !IsSpace(open) && !IsSpace(close)
    ensures NoSpace([open] + w + [close])
  {
    var tok := [open] + w + [close];
    forall k | 0 <= k < |tok| ensures !IsSpace(tok[k]) {
      if 0 < k < |tok| - 1 {
        assert tok[k] == w[k - 1];
      }
    }
  }

  /** A version with no spaces matches its own target. */
  lemma SelfMatches(v: string)
    requires |v| > 0 && NoSpace(v)
    ensures MatchesTarget(v, NewTarget(v))
  {
    TrimSpaceKeeps(v);
  }

  /** A bracketed word is matched by its content: "## [0.2.0]" and
      "## [0.2.0] - 2025-10-14" are headings for 0.2.0 (see SelfMatches). */
  lemma BracketedHeading(v: string, rest: string, t: Target)
    requires Clean(v) && MatchesTarget(v, t)
    requires rest == [] || (IsSpace(rest[0]) && !IsSpace(rest[|rest| - 1]))
    ensures IsVersionLine("## " + ("[" + v + "]" + rest), t)
  {
    assert NoSpace("[" + v + "]") by {
      WrappedNoSpace('[', v, ']');
    }
    assert MatchesTarget(NormalizeToken("[" + v + "]"), t) by {
      NormalizeWrapped('[', v, ']');
    }
    HeadingCounts("[" + v + "]", rest, t);
  }

  /** A heading that writes the version with a 'v' is a heading for the
      bare version: "## v1.3.0" is a heading for 1.3.0. */
  lemma PrefixedHeading(v: string)
    requires Clean(v) && v[0] != 'v' && v[0] != 'V'
    ensures IsVersionLine("## " + ("v" + v), NewTarget(v))
  {
    var w := "v" + v;
    assert w[1..] == v;
    assert Clean(w) by {
      assert w[|w| - 1] == v[|v| - 1];
      assert forall k :: 1 <= k < |w| ==> w[k] == v[k - 1];
    }
    assert MatchesTarget(w, NewTarget(v)) by {
      BareTarget(v);
    }
    assert NormalizeToken(w) == w by {
      NormalizeClean(w);
    }
    SingleWordHeading(w, NewTarget(v));
  }

  /** A heading whose only word is a bracketed label is a version line
      only when the label matches: "## [Unreleased]" is no heading for
      any version. */
  lemma BracketedLabel(w: string, t: Target)
    requires Clean(w)
    ensures IsVersionLine("## " + ("[" + w + "]"), t) <==> MatchesTarget(w, t)
  {
    var tok := "[" + w + "]";
    assert IsVersionLine("## " + tok, t) <==> MatchesTarget(NormalizeToken(tok), t) by {
      WrappedNoSpace('[', w, ']');
      SingleWordHeading(tok, t);
    }
    assert NormalizeToken(tok) == w by {
      NormalizeWrapped('[', w, ']');
    }
  }

  /** Whether the changelog is up to date does not depend on whether the
      version is written with a leading 'v' or 'V'. */
  lemma UpdatedPrefixOptional(fs: FS, workdir: Path, x: string, c: char)
    requires |x| > 0 && !IsSpace(x[0]) && !IsSpace(x[|x| - 1]) && x[0] != 'v' && x[0] != 'V'
    requires c == 'v' || c == 'V'
    ensures EnsureUpdated(fs, workdir, [c] + x) == EnsureUpdated(fs, workdir, x)
  {
    BareTarget(x);
    LetterTarget(x, c);
    var p := PathJoin(workdir, ChangelogMd);
    if IsFileAt(fs, p) {
      var lines := Split(fs[p].data, '\n');
      forall i | 0 <= i < |lines|
        ensures IsVersionLine(lines[i], NewTarget([c] + x)) == IsVersionLine(lines[i], NewTarget(x))
      {
        PrefixOptional(x, c, lines[i]);
      }
      assert HasVersionLine(lines, NewTarget([c] + x)) == HasVersionLine(lines, NewTarget(x));
    }
  }

  /** changelog_test.go: "## [0.2.0] - 2025-10-14" counts for 0.2.0. */
  lemma DatedExample(v: string, date: string)
    requires v == "0.2.0" && date == " - 2025-10-14"
    ensures IsVersionLine("## " + ("[" + v + "]" + date), NewTarget(v))
  {
    assert Clean(v);
    SelfMatches(v);
    BracketedHeading(v, date, NewTarget(v));
  }

  /** changelog_test.go: "## v1.3.0" counts for 1.3.0. */
  lemma PrefixedExample(v: string)
    requires v == "1.3.0"
    ensures IsVersionLine("## " + ("v" + v), NewTarget(v))
  {
    assert Clean(v);
    PrefixedHeading(v);
  }

  /** changelog_test.go: "## [Unreleased]" does not count for 0.9.0. */
  lemma UnreleasedExample(word: string, v: string)
    requires word == "Unreleased" && v == "0.9.0"
    ensures !IsVersionLine("## " + ("[" + word + "]"), NewTarget(v))
  {
    assert Clean(word);
    BracketedLabel(word, NewTarget(v));
    assert !MatchesTarget(word, NewTarget(v)) by {
      BareTarget(v);
    }
  }

  /** changelog_test.go: a mention in running text is no heading. */
  lemma RunningTextExample()
    ensures !IsVersionLine("See version 2.0.0 for more.", NewTarget("2.0.0"))
  {
    TrimSpaceKeeps("See version 2.0.0 for more.");
    assert !HasPrefix("See version 2.0.0 for more.", "#") by {
      assert "See version 2.0.0 for more."[..1] == "S";
    }
  }
}
