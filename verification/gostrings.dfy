/** The parts of Go's `strings`, `bytes` and `bufio` packages the tool relies
    on, over `string` = `seq<char>`. Case mapping is ASCII-only. */
module GoStrings {
  import opened Wrappers

  /** `unicode.IsSpace`: the Latin-1 spaces plus the Unicode White_Space
      characters above U+00FF. */
  predicate IsSpace(c: char) {
    || c == '\t' || c == '\n' || c == '\U{0B}' || c == '\U{0C}' || c == '\r' || c == ' '
    || c == '\U{85}' || c == '\U{A0}' || c == '\U{1680}'
    || ('\U{2000}' <= c <= '\U{200A}')
    || c == '\U{2028}' || c == '\U{2029}' || c == '\U{202F}' || c == '\U{205F}' || c == '\U{3000}'
  }

  predicate AllSpace(s: string) {
    forall k :: 0 <= k < |s| ==> IsSpace(s[k])
  }

  predicate NoSpace(s: string) {
    forall k :: 0 <= k < |s| ==> !IsSpace(s[k])
  }

  /** Removes the longest prefix made of characters of `cut`. */
  function TrimLeftSet(s: string, cut: set<char>): (r: string)
    ensures |r| <= |s| && r == s[|s| - |r|..]
    ensures forall k :: 0 <= k < |s| - |r| ==> s[k] in cut
    ensures |r| > 0 ==> r[0] !in cut
  {
    if |s| > 0 && s[0] in cut then
      var r := TrimLeftSet(s[1..], cut);
      assert forall k :: 1 <= k < |s| - |r| ==> s[k] == s[1..][k - 1];
      r
    else s
  }

  /** Removes the longest suffix made of characters of `cut`. */
  function TrimRightSet(s: string, cut: set<char>): (r: string)
    ensures |r| <= |s| && r == s[..|r|]
    ensures forall k :: |r| <= k < |s| ==> s[k] in cut
    ensures |r| > 0 ==> r[|r| - 1] !in cut
  {
    if |s| > 0 && s[|s| - 1] in cut then TrimRightSet(s[..|s| - 1], cut) else s
  }

  /** Number of leading spaces. */
  function LeadingSpaces(s: string): (n: nat)
    ensures n <= |s| && AllSpace(s[..n]) && (n < |s| ==> !IsSpace(s[n]))
  {
    if |s| > 0 && IsSpace(s[0]) then
      var n := LeadingSpaces(s[1..]);
      assert AllSpace(s[..n + 1]) by {
        assert s[..n + 1] == [s[0]] + s[1..][..n];
        SpaceCons(s[0], s[1..][..n]);
      }
      assert n + 1 < |s| ==> s[n + 1] == s[1..][n];
      n + 1
    else 0
  }

  /** Number of trailing spaces. */
  function TrailingSpaces(s: string): (n: nat)
    ensures n <= |s| && AllSpace(s[|s| - n..]) && (n < |s| ==> !IsSpace(s[|s| - n - 1]))
  {
    if |s| > 0 && IsSpace(s[|s| - 1]) then
      var n := TrailingSpaces(s[..|s| - 1]);
      assert AllSpace(s[|s| - (n + 1)..]) by {
        assert s[|s| - (n + 1)..] == s[..|s| - 1][|s| - 1 - n..] + [s[|s| - 1]];
        SpaceSnoc(s[..|s| - 1][|s| - 1 - n..], s[|s| - 1]);
      }
      assert n + 1 < |s| ==> s[|s| - (n + 1) - 1] == s[..|s| - 1][|s| - 1 - n - 1];
      n + 1
    else 0
  }

  /** The leading spaces are the run of spaces before the first other
      character. */
  lemma LeadingUnique(s: string, n: nat)
    requires n <= |s| && AllSpace(s[..n]) && (n < |s| ==> !IsSpace(s[n]))
    ensures LeadingSpaces(s) == n
  {
    SpacePrefix(s, n);
    SpacePrefix(s, LeadingSpaces(s));
  }

  lemma SpacePrefix(s: string, n: nat)
    requires n <= |s| && AllSpace(s[..n])
    ensures forall k :: 0 <= k < n ==> IsSpace(s[k])
  {
    assert forall k :: 0 <= k < n ==> s[..n][k] == s[k];
  }

  lemma SpaceSuffix(s: string, n: nat)
    requires n <= |s| && AllSpace(s[|s| - n..])
    ensures forall k :: |s| - n <= k < |s| ==> IsSpace(s[k])
  {
    assert forall k :: |s| - n <= k < |s| ==> s[|s| - n..][k - (|s| - n)] == s[k];
  }

  /** The trailing spaces are the run of spaces after the last other
      character. */
  lemma TrailingUnique(s: string, n: nat)
    requires n <= |s| && AllSpace(s[|s| - n..]) && (n < |s| ==> !IsSpace(s[|s| - n - 1]))
    ensures TrailingSpaces(s) == n
  {
    SpaceSuffix(s, n);
    SpaceSuffix(s, TrailingSpaces(s));
  }

  /** `strings.TrimSpace` / `bytes.TrimSpace`: the infix of `s` after its
      leading spaces that neither starts nor ends with a space and leaves
      only spaces after it. */
  function TrimSpace(s: string): (r: string)
    ensures LeadingSpaces(s) + |r| <= |s|
    ensures r == s[LeadingSpaces(s)..LeadingSpaces(s) + |r|]
    ensures AllSpace(s[LeadingSpaces(s) + |r|..])
    ensures |r| > 0 ==> !IsSpace(r[0]) && !IsSpace(r[|r| - 1])
    ensures r == [] <==> AllSpace(s)
  {
    var i := LeadingSpaces(s);
    if i == |s| then
      assert s[..i] == s;
      []
    else
      var j := |s| - TrailingSpaces(s);
      assert i < j;
      assert !AllSpace(s) by {
        assert !IsSpace(s[i]);
      }
      s[i..j]
  }

  lemma SpaceCons(c: char, x: string)
    requires IsSpace(c) && AllSpace(x)
    ensures AllSpace([c] + x)
  {
    assert forall k :: 1 <= k < |x| + 1 ==> ([c] + x)[k] == x[k - 1];
  }

  lemma SpaceSnoc(x: string, c: char)
    requires IsSpace(c) && AllSpace(x)
    ensures AllSpace(x + [c])
  {
    assert forall k :: 0 <= k < |x| ==> (x + [c])[k] == x[k];
  }

  /** Spaces around text that neither starts nor ends with a space are all
      TrimSpace removes. */
  lemma TrimSpaceOf(pre: string, x: string, post: string)
    requires AllSpace(pre) && AllSpace(post) && |x| > 0 && !IsSpace(x[0]) && !IsSpace(x[|x| - 1])
    ensures TrimSpace(pre + x + post) == x
  {
    var s := pre + x + post;
    assert s[..|pre|] == pre && s[|pre|] == x[0];
    LeadingUnique(s, |pre|);
    assert s[|s| - |post|..] == post && s[|s| - |post| - 1] == x[|x| - 1];
    TrailingUnique(s, |post|);
    assert s[|pre|..|s| - |post|] == x;
  }

  /** Text that neither starts nor ends with a space is its own trim. */
  lemma TrimSpaceKeeps(s: string)
    requires |s| > 0 ==> !IsSpace(s[0]) && !IsSpace(s[|s| - 1])
    ensures TrimSpace(s) == s
  {
    if |s| > 0 {
      TrimSpaceOf([], s, []);
      assert [] + s + [] == s;
    }
  }

  /** `strings.Trim(s, cutset)`: both ends, any character of `cutset`. */
  function TrimSet(s: string, cutset: set<char>): (r: string)
    ensures |TrimLeftSet(s, cutset)| >= |r|
    ensures r == s[|s| - |TrimLeftSet(s, cutset)|..|s| - |TrimLeftSet(s, cutset)| + |r|]
    ensures |r| > 0 ==> r[0] !in cutset && r[|r| - 1] !in cutset
  {
    var t := TrimLeftSet(s, cutset);
    var r := TrimRightSet(t, cutset);
    assert s[|s| - |t|..|s| - |t| + |r|] == r;
    r
  }

  predicate HasPrefix(s: string, p: string) {
    |p| <= |s| && s[..|p|] == p
  }

  predicate HasSuffix(s: string, p: string) {
    |p| <= |s| && s[|s| - |p|..] == p
  }

  function TrimPrefix(s: string, p: string): (r: string)
    ensures HasPrefix(s, p) ==> p + r == s
    ensures !HasPrefix(s, p) ==> r == s
  {
    if HasPrefix(s, p) then s[|p|..] else s
  }

  function TrimSuffix(s: string, p: string): (r: string)
    ensures HasSuffix(s, p) ==> r + p == s
    ensures !HasSuffix(s, p) ==> r == s
  {
    if HasSuffix(s, p) then s[..|s| - |p|] else s
  }

  /** Position of the first `c` in `s`. */
  function IndexOfChar(s: string, c: char): (r: Option<nat>)
    ensures r.Some? ==> r.value < |s| && s[r.value] == c && c !in s[..r.value]
    ensures r.None? ==> c !in s
  {
    if |s| == 0 then None
    else if s[0] == c then Some(0)
    else match IndexOfChar(s[1..], c)
      case Some(i) =>
        assert s[..i + 1] == [s[0]] + s[1..][..i];
        Some(i + 1)
      case None => None
  }

  /** `strings.Cut` with a one-character separator: the text before and after
      the first `c`, and whether there was one. */
  function Cut(s: string, c: char): (r: (string, string, bool))
    ensures r.2 ==> s == r.0 + [c] + r.1 && c !in r.0
    ensures !r.2 ==> r.0 == s && r.1 == [] && c !in s
  {
    match IndexOfChar(s, c)
    case Some(i) =>
      assert s == s[..i] + [c] + s[i + 1..];
      (s[..i], s[i + 1..], true)
    case None => (s, [], false)
  }

  /** The first separator is found wherever the text before it has none. */
  lemma CutAt(a: string, c: char, b: string)
    requires c !in a
    ensures Cut(a + [c] + b, c) == (a, b, true)
  {
    var s := a + [c] + b;
    assert s[|a|] == c;
    var r := Cut(s, c);
    assert r.2;
    assert r.0 == s[..|a|] == a;
    assert r.1 == s[|a| + 1..] == b;
  }

  /** Joins parts with one `c` between neighbours. */
  function Join(parts: seq<string>, c: char): string
    requires |parts| > 0
  {
    if |parts| == 1 then parts[0] else parts[0] + [c] + Join(parts[1..], c)
  }

  /** `strings.Split` with a one-character separator. */
  function Split(s: string, c: char): (r: seq<string>)
    ensures |r| > 0
    ensures forall i :: 0 <= i < |r| ==> c !in r[i]
    ensures Join(r, c) == s
    decreases |s|
  {
    var (a, b, found) := Cut(s, c);
    if found then [a] + Split(b, c) else [a]
  }

  /** Splitting a join of separator-free parts gives the parts back. */
  lemma {:induction false} SplitJoin(parts: seq<string>, c: char)
    requires |parts| > 0
    requires forall i :: 0 <= i < |parts| ==> c !in parts[i]
    ensures Split(Join(parts, c), c) == parts
  {
    if |parts| > 1 {
      CutAt(parts[0], c, Join(parts[1..], c));
      SplitJoin(parts[1..], c);
    }
  }

  /** The lines `bufio.ScanLines` yields: text between newlines, with a
      final unterminated line kept and no empty line after a final newline. */
  function Lines(s: string): (r: seq<string>)
    ensures forall i :: 0 <= i < |r| ==> '\n' !in r[i]
    decreases |s|
  {
    if s == [] then []
    else
      var (a, b, found) := Cut(s, '\n');
      if found then [a] + Lines(b) else [a]
  }

  /** Every line followed by a newline. */
  function Unlines(ls: seq<string>): string {
    if ls == [] then [] else ls[0] + "\n" + Unlines(ls[1..])
  }

  /** Scanning newline-terminated lines recovers them, count and content. */
  lemma {:induction false} LinesUnlines(ls: seq<string>)
    requires forall i :: 0 <= i < |ls| ==> '\n' !in ls[i]
    ensures Lines(Unlines(ls)) == ls
  {
    if ls != [] {
      CutAt(ls[0], '\n', Unlines(ls[1..]));
      LinesUnlines(ls[1..]);
    }
  }

  /** Re-terminating the scanned lines restores the text, adding a final
      newline exactly when it was missing. */
  lemma {:induction false} UnlinesLines(s: string)
    ensures Unlines(Lines(s)) == if s == [] || s[|s| - 1] == '\n' then s else s + "\n"
    decreases |s|
  {
    if s != [] {
      var (a, b, found) := Cut(s, '\n');
      if found {
        UnlinesLines(b);
        assert Lines(s) == [a] + Lines(b);
        if b != [] {
          assert s[|s| - 1] == b[|b| - 1];
        }
      }
    }
  }

  /** The longest prefix without a space. */
  function TakeWord(s: string): (w: string)
    ensures |w| <= |s| && w == s[..|w|] && NoSpace(w)
    ensures |w| < |s| ==> IsSpace(s[|w|])
    ensures |s| > 0 && !IsSpace(s[0]) ==> |w| > 0
  {
    if |s| > 0 && !IsSpace(s[0]) then [s[0]] + TakeWord(s[1..]) else []
  }

  /** `strings.Fields`: the maximal runs of non-space characters, in order. */
  function Fields(s: string): (r: seq<string>)
    ensures forall i :: 0 <= i < |r| ==> |r[i]| > 0 && NoSpace(r[i])
    ensures r == [] <==> AllSpace(s)
    decreases |s|
  {
    if s == [] then []
    else if IsSpace(s[0]) then
      assert s == [s[0]] + s[1..];
      Fields(s[1..])
    else
      var w := TakeWord(s);
      [w] + Fields(s[|w|..])
  }

  /** Every word followed by one space. */
  function Spaced(ws: seq<string>): string {
    if ws == [] then [] else ws[0] + " " + Spaced(ws[1..])
  }

  /** A space-free word is taken whole when a space or the end follows it. */
  lemma {:induction false} TakeWordOf(w: string, rest: string)
    requires NoSpace(w)
    requires rest == [] || IsSpace(rest[0])
    ensures TakeWord(w + rest) == w
  {
    if w != [] {
      assert (w + rest)[1..] == w[1..] + rest;
      TakeWordOf(w[1..], rest);
    }
  }

  /** Fields inverts spacing: the words of a space-separated list of
      non-empty, space-free words are those words, in order. */
  lemma {:induction false} FieldsSpaced(ws: seq<string>)
    requires forall i :: 0 <= i < |ws| ==> |ws[i]| > 0 && NoSpace(ws[i])
    ensures Fields(Spaced(ws)) == ws
  {
    if ws != [] {
      var tail := Spaced(ws[1..]);
      var rest := " " + tail;
      assert Spaced(ws) == ws[0] + rest;
      TakeWordOf(ws[0], rest);
      assert Spaced(ws)[|ws[0]|..] == rest;
      assert rest[1..] == tail;
      FieldsSpaced(ws[1..]);
    }
  }

  /** `sub` occurs in `s` starting at position `k`. */
  predicate OccursAt(s: string, sub: string, k: nat) {
    k + |sub| <= |s| && s[k..k + |sub|] == sub
  }

  /** Position of the first occurrence of `sub` in `s` at or after `from`. */
  function IndexFrom(s: string, sub: string, from: nat): (r: Option<nat>)
    requires from <= |s|
    ensures r.Some? ==> from <= r.value && OccursAt(s, sub, r.value)
    ensures forall k :: from <= k && (r.None? || k < r.value) ==> !OccursAt(s, sub, k)
    decreases |s| - from
  {
    if from + |sub| > |s| then None
    else if OccursAt(s, sub, from) then Some(from)
    else IndexFrom(s, sub, from + 1)
  }

  /** `bytes.Index`. */
  function IndexOf(s: string, sub: string): Option<nat> {
    IndexFrom(s, sub, 0)
  }

  /** `bytes.Replace(s, pat, repl, 1)`: the first occurrence of `pat`, wherever
      it is, is replaced; without one `s` is returned unchanged. */
  function ReplaceFirst(s: string, pat: string, repl: string): (r: string)
    ensures IndexOf(s, pat).None? ==> r == s
    ensures IndexOf(s, pat).Some? ==>
              var i := IndexOf(s, pat).value;
              OccursAt(s, pat, i) && r == s[..i] + repl + s[i + |pat|..]
  {
    match IndexOf(s, pat)
    case None => s
    case Some(i) => s[..i] + repl + s[i + |pat|..]
  }

  function UpperAscii(c: char): char {
    if 'a' <= c <= 'z' then (c as int - 32) as char else c
  }

  function LowerAscii(c: char): char {
    if 'A' <= c <= 'Z' then (c as int + 32) as char else c
  }

  /** `strings.ToUpper`, ASCII letters only. */
  function ToUpper(s: string): (r: string)
    ensures |r| == |s|
    ensures forall i :: 0 <= i < |s| ==> r[i] == UpperAscii(s[i])
  {
    if s == [] then [] else [UpperAscii(s[0])] + ToUpper(s[1..])
  }

  /** `strings.ToLower`, ASCII letters only. */
  function ToLower(s: string): (r: string)
    ensures |r| == |s|
    ensures forall i :: 0 <= i < |s| ==> r[i] == LowerAscii(s[i])
  {
    if s == [] then [] else [LowerAscii(s[0])] + ToLower(s[1..])
  }
}
