/** pkg/version: semantic versions, their parsing, formatting, bumping and
    ordering. */
module Version {
  import opened Wrappers
  import opened Errors
  import opened GoInt
  import opened GoStrings

  /** A bump directive that leaves the field alone. */
  const KEEP: int := -2
  /** A bump directive that adds one to the field. */
  const INCREASE: int := -1

  datatype Version = Version(major: Int64, minor: Int64, patch: Int64, prerelease: string, build: string)

  // ---------------------------------------------------------------------
  // Version numbers given on the command line

  /** `ParseVersionNumber`: "keep" and "inc" in any ASCII case are the two
      directives; anything else must be a non-negative decimal. */
  function ParseVersionNumber(s: string): (r: Result<Int64, Error>)
    ensures r.Ok? ==> r.value >= 0 || r.value == KEEP || r.value == INCREASE
    ensures r.Ok? && r.value >= 0 ==> Atoi(s) == Some(r.value)
    ensures r.Err? ==> r.error == InvalidNumber(s) || r.error == NegativeNumber(s)
    ensures ToUpper(s) == "KEEP" ==> r == Ok(KEEP)
    ensures ToUpper(s) == "INC" ==> r == Ok(INCREASE)
    ensures ToUpper(s) != "KEEP" && ToUpper(s) != "INC" ==>
      (r.Ok? <==> Atoi(s).Some? && Atoi(s).value >= 0)
    ensures r == Err(NegativeNumber(s)) <==>
      ToUpper(s) != "KEEP" && ToUpper(s) != "INC" && Atoi(s).Some? && Atoi(s).value < 0
  {
    var u := ToUpper(s);
    if u == "KEEP" then Ok(KEEP)
    else if u == "INC" then Ok(INCREASE)
    else match Atoi(s)
      case None => Err(InvalidNumber(s))
      case Some(n) => if n < 0 then Err(NegativeNumber(s)) else Ok(n)
  }

  /** Every non-negative number written in decimal is read back as itself. */
  lemma ParseVersionNumberItoa(n: Int64)
    requires n >= 0
    ensures ParseVersionNumber(Itoa(n)) == Ok(n)
  {
    AtoiItoa(n);
    var s := Itoa(n);
    assert IsDigit(s[0]) && ToUpper(s)[0] == s[0];
  }

  /** The directives, in any case, and the two errors. */
  lemma ParseVersionNumberCases()
    ensures ParseVersionNumber("keep") == Ok(KEEP)
    ensures ParseVersionNumber("Inc") == Ok(INCREASE)
    ensures ParseVersionNumber("x1") == Err(InvalidNumber("x1"))
    ensures ParseVersionNumber("-3") == Err(NegativeNumber("-3"))
  {
    assert ToUpper("keep") == "KEEP";
    assert ToUpper("Inc") == "INC";
    assert ToUpper("x1")[0] == 'X';
    assert ToUpper("-3")[0] == '-';
    assert Value("3") == 3 by { assert "3"[..0] == []; }
  }

  // ---------------------------------------------------------------------
  // The version grammar

  predicate IsIdentChar(c: char) {
    IsDigit(c) || 'a' <= c <= 'z' || 'A' <= c <= 'Z' || c == '-'
  }

  predicate AllIdentChars(t: string) {
    forall i :: 0 <= i < |t| ==> IsIdentChar(t[i])
  }

  /** A pre-release identifier: `0|[1-9]\d*|\d*[a-zA-Z-][0-9a-zA-Z-]*`, that
      is a canonical number or a non-empty word with some non-digit. */
  predicate PreId(t: string) {
    Canonical(t) || (|t| > 0 && AllIdentChars(t) && !AllDigits(t))
  }

  /** A build identifier: `[0-9a-zA-Z-]+`. */
  predicate BuildId(t: string) {
    |t| > 0 && AllIdentChars(t)
  }

  /** Dot-separated pre-release identifiers. */
  predicate ValidPrerelease(p: string) {
    var ids := Split(p, '.');
    forall i :: 0 <= i < |ids| ==> PreId(ids[i])
  }

  /** Dot-separated build identifiers. */
  predicate ValidBuild(b: string) {
    var ids := Split(b, '.');
    forall i :: 0 <= i < |ids| ==> BuildId(ids[i])
  }

  /** The five capture groups of the version pattern. */
  datatype Captures = Captures(major: string, minor: string, patch: string, prerelease: string, build: string)

  /** What the pattern demands of each group; an empty optional group is one
      that did not take part in the match. */
  predicate Grammar(c: Captures) {
    && Canonical(c.major) && Canonical(c.minor) && Canonical(c.patch)
    && (c.prerelease == [] || ValidPrerelease(c.prerelease))
    && (c.build == [] || ValidBuild(c.build))
  }

  /** An optional part introduced by a marker character. */
  function Tag(marker: char, part: string): string {
    if part == [] then [] else [marker] + part
  }

  /** The text a set of captures spells. */
  function Compose(c: Captures): string {
    c.major + "." + c.minor + "." + c.patch + Tag('-', c.prerelease) + Tag('+', c.build)
  }

  /** The strings the anchored version pattern matches. */
  ghost predicate SemVer(s: string) {
    exists c :: Grammar(c) && s == Compose(c)
  }

  /** Matching the anchored version pattern: the build follows the first '+',
      the pre-release the first '-' before it, and the rest is three dotted
      numbers. */
  function Decompose(s: string): (r: Option<Captures>)
    ensures r.Some? ==> Grammar(r.value) && s == Compose(r.value)
  {
    var cb := Cut(s, '+');
    var cp := Cut(cb.0, '-');
    var parts := Split(cp.0, '.');
    if && |parts| == 3
       && Canonical(parts[0]) && Canonical(parts[1]) && Canonical(parts[2])
       && (cp.2 ==> ValidPrerelease(cp.1))
       && (cb.2 ==> ValidBuild(cb.1))
    then
      ValidNonEmpty(cp.1);
      ValidNonEmpty(cb.1);
      CutTag(cb.0, '-', cp);
      CutTag(s, '+', cb);
      SplitTag(cp.0, parts);
      Some(Captures(parts[0], parts[1], parts[2], cp.1, cb.1))
    else None
  }

  /** What `Cut` takes apart, `Tag` puts back together. */
  lemma CutTag(s: string, c: char, r: (string, string, bool))
    requires r == Cut(s, c) && (r.2 ==> r.1 != [])
    ensures s == r.0 + Tag(c, r.1)
  {
  }

  /** `Cut` finds the marker of a tag after text without it. */
  lemma CutOfTag(a: string, c: char, b: string)
    requires c !in a
    ensures Cut(a + Tag(c, b), c) == (a, b, b != [])
  {
    if b != [] {
      assert a + Tag(c, b) == a + [c] + b;
      CutAt(a, c, b);
    } else {
      assert a + Tag(c, b) == a;
    }
  }

  lemma SplitTag(s: string, parts: seq<string>)
    requires parts == Split(s, '.') && |parts| == 3
    ensures s == parts[0] + "." + parts[1] + "." + parts[2]
  {
    assert parts == [parts[0], parts[1], parts[2]];
    Join3(parts[0], parts[1], parts[2]);
  }

  lemma ValidNonEmpty(p: string)
    ensures ValidPrerelease(p) || ValidBuild(p) ==> p != []
  {
    if p == [] {
      assert Cut(p, '.') == ([], [], false);
      assert Split(p, '.') == [[]];
    }
  }

  lemma NotInJoin(parts: seq<string>, c: char, x: char)
    requires |parts| > 0 && x != c
    requires forall i :: 0 <= i < |parts| ==> x !in parts[i]
    ensures x !in Join(parts, c)
  {
    if |parts| > 1 {
      NotInJoin(parts[1..], c, x);
    }
  }

  /** Neither marker occurs in valid dotted identifiers: '+' never, and '-'
      never among digits and dots. */
  lemma MarkersAbsent(c: Captures)
    requires Grammar(c)
    ensures '+' !in c.major + "." + c.minor + "." + c.patch + Tag('-', c.prerelease)
    ensures '-' !in c.major + "." + c.minor + "." + c.patch
  {
    if c.prerelease != [] {
      var ids := Split(c.prerelease, '.');
      forall i, k | 0 <= i < |ids| && 0 <= k < |ids[i]| ensures ids[i][k] != '+' {
        assert PreId(ids[i]);
        assert IsIdentChar(ids[i][k]);
      }
      NotInJoin(ids, '.', '+');
    }
  }

  /** Every well-formed set of captures is recovered from its text: the
      pattern's captures are determined by the string. */
  lemma {:induction false} DecomposeCompose(c: Captures)
    requires Grammar(c)
    ensures Decompose(Compose(c)) == Some(c)
  {
    var main := c.major + "." + c.minor + "." + c.patch;
    var core := main + Tag('-', c.prerelease);
    MarkersAbsent(c);
    CutOfTag(core, '+', c.build);
    CutOfTag(main, '-', c.prerelease);
    DigitsExclude(c.major, '.');
    DigitsExclude(c.minor, '.');
    DigitsExclude(c.patch, '.');
    SplitThree(c.major, c.minor, c.patch);
  }

  /** `Decompose` accepts exactly the strings the version pattern matches. */
  lemma DecomposeExact(s: string)
    ensures Decompose(s).Some? <==> SemVer(s)
  {
    if SemVer(s) {
      var c :| Grammar(c) && s == Compose(c);
      DecomposeCompose(c);
    }
  }

  // ---------------------------------------------------------------------
  // Parse and String

  /** `parseInt`: a number that `strconv.Atoi` rejects, here one too large
      for 64 bits, silently becomes 0. */
  function ParseInt(s: string): (r: Int64)
    ensures Canonical(s) && Value(s) <= MaxInt ==> r == Value(s)
    ensures Canonical(s) && Value(s) > MaxInt ==> r == 0
  {
    Atoi(s).GetOr(0)
  }

  /** `Parse`. */
  function Parse(s: string): (r: Result<Version, Error>)
    ensures r.Ok? <==> SemVer(s)
    ensures r.Err? ==> r.error == InvalidVersion(s)
    ensures r.Ok? ==> r.value.major >= 0 && r.value.minor >= 0 && r.value.patch >= 0
    ensures r.Ok? ==> r.value.prerelease == [] || ValidPrerelease(r.value.prerelease)
    ensures r.Ok? ==> r.value.build == [] || ValidBuild(r.value.build)
  {
    DecomposeExact(s);
    match Decompose(s)
    case None => Err(InvalidVersion(s))
    case Some(c) =>
      Ok(Version(ParseInt(c.major), ParseInt(c.minor), ParseInt(c.patch), c.prerelease, c.build))
  }

  /** `String`: "%d.%d.%d", then "-" and the pre-release and "+" and the
      build, each only when non-empty. */
  function Format(v: Version): (r: string)
    ensures r == Compose(Captures(Itoa(v.major), Itoa(v.minor), Itoa(v.patch), v.prerelease, v.build))
  {
    Itoa(v.major) + "." + Itoa(v.minor) + "." + Itoa(v.patch) + Tag('-', v.prerelease) + Tag('+', v.build)
  }

  /** A version `Parse` can produce. */
  predicate WellFormed(v: Version) {
    && v.major >= 0 && v.minor >= 0 && v.patch >= 0
    && (v.prerelease == [] || ValidPrerelease(v.prerelease))
    && (v.build == [] || ValidBuild(v.build))
  }

  /** Formatting then parsing a well-formed version gives it back. */
  lemma ParseFormat(v: Version)
    requires WellFormed(v)
    ensures Parse(Format(v)) == Ok(v)
  {
    var c := Captures(Itoa(v.major), Itoa(v.minor), Itoa(v.patch), v.prerelease, v.build);
    DigitsCanonical(v.major);
    DigitsCanonical(v.minor);
    DigitsCanonical(v.patch);
    DecomposeCompose(c);
  }

  /** Parsing then formatting gives the text back, as long as every number
      fits in 64 bits. */
  lemma FormatParse(s: string)
    requires Decompose(s).Some?
    requires var c := Decompose(s).value;
             Value(c.major) <= MaxInt && Value(c.minor) <= MaxInt && Value(c.patch) <= MaxInt
    ensures Parse(s).Ok? && Format(Parse(s).value) == s
  {
    var c := Decompose(s).value;
    DigitsOfValue(c.major);
    DigitsOfValue(c.minor);
    DigitsOfValue(c.patch);
  }

  /** A character a formatted version can hold. */
  predicate VersionChar(c: char) {
    IsIdentChar(c) || c == '.' || c == '+'
  }

  predicate IdentOrDot(s: string) {
    forall k :: 0 <= k < |s| ==> IsIdentChar(s[k]) || s[k] == '.'
  }

  lemma {:induction false} JoinIdentChars(parts: seq<string>)
    requires |parts| > 0
    requires forall i :: 0 <= i < |parts| ==> AllIdentChars(parts[i])
    ensures IdentOrDot(Join(parts, '.'))
  {
    if |parts| > 1 {
      var rest := Join(parts[1..], '.');
      JoinIdentChars(parts[1..]);
      var j := Join(parts, '.');
      assert j == parts[0] + ['.'] + rest;
      forall k | 0 <= k < |j| ensures IsIdentChar(j[k]) || j[k] == '.' {
        if k < |parts[0]| {
          assert AllIdentChars(parts[0]);
          assert j[k] == parts[0][k];
          assert IsIdentChar(parts[0][k]);
        } else if k > |parts[0]| {
          var m := k - |parts[0]| - 1;
          assert j[k] == rest[m];
        } else {
          assert j[k] == '.';
        }
      }
    }
  }

  /** Valid dotted identifiers hold only identifier characters and dots. */
  lemma DottedChars(p: string)
    requires ValidPrerelease(p) || ValidBuild(p)
    ensures IdentOrDot(p)
  {
    var ids := Split(p, '.');
    forall i | 0 <= i < |ids| ensures AllIdentChars(ids[i]) {
      if ValidPrerelease(p) {
        assert PreId(ids[i]);
      } else {
        assert BuildId(ids[i]);
      }
    }
    JoinIdentChars(ids);
    assert Join(ids, '.') == p;
  }

  /** The text of a well-formed version starts with a digit and holds only
      identifier characters, dots and '+': no quote, space or line break. */
  lemma FormatChars(v: Version)
    requires WellFormed(v)
    ensures |Format(v)| > 0 && IsDigit(Format(v)[0])
    ensures forall k :: 0 <= k < |Format(v)| ==> VersionChar(Format(v)[k])
  {
    var f := Format(v);
    var main := Itoa(v.major) + "." + Itoa(v.minor) + "." + Itoa(v.patch);
    assert f == main + Tag('-', v.prerelease) + Tag('+', v.build);
    assert f[0] == Itoa(v.major)[0];
    forall k | 0 <= k < |main| ensures VersionChar(main[k]) {
    }
    if v.prerelease != [] {
      DottedChars(v.prerelease);
    }
    if v.build != [] {
      DottedChars(v.build);
    }
    var pre := Tag('-', v.prerelease);
    var bld := Tag('+', v.build);
    forall k | 0 <= k < |pre| ensures VersionChar(pre[k]) {
      if k > 0 {
        assert pre[k] == v.prerelease[k - 1];
      }
    }
    forall k | 0 <= k < |bld| ensures VersionChar(bld[k]) {
      if k > 0 {
        assert bld[k] == v.build[k - 1];
      }
    }
    forall k | 0 <= k < |f| ensures VersionChar(f[k]) {
      if k < |main| {
        assert f[k] == main[k];
      } else if k < |main| + |pre| {
        assert f[k] == pre[k - |main|];
      } else {
        assert f[k] == bld[k - |main| - |pre|];
      }
    }
  }

  /** A string `Parse` accepts starts with a digit. */
  lemma ParsedStartsWithDigit(s: string)
    requires Parse(s).Ok?
    ensures |s| > 0 && IsDigit(s[0])
  {
    DecomposeExact(s);
    var c := Decompose(s).value;
    StartsWithMajor(c);
  }

  lemma StartsWithMajor(c: Captures)
    requires Grammar(c)
    ensures |Compose(c)| > 0 && IsDigit(Compose(c)[0])
  {
    var rest := "." + c.minor + "." + c.patch + Tag('-', c.prerelease) + Tag('+', c.build);
    assert Compose(c) == c.major + rest;
  }

  /** Text without a '+' parses, if at all, to a version without a build. */
  lemma ParsedHasNoBuild(s: string)
    requires '+' !in s && Parse(s).Ok?
    ensures Parse(s).value.build == []
  {
    DecomposeExact(s);
    assert Cut(s, '+').2 == false;
  }

  /** Parsing the text of well-formed captures whose numbers fit. */
  lemma ParseCompose(c: Captures)
    requires Grammar(c)
    requires Value(c.major) <= MaxInt && Value(c.minor) <= MaxInt && Value(c.patch) <= MaxInt
    ensures Parse(Compose(c)) == Ok(Version(Value(c.major), Value(c.minor), Value(c.patch), c.prerelease, c.build))
  {
    DecomposeCompose(c);
  }

  lemma SplitOne(t: string)
    requires '.' !in t
    ensures Split(t, '.') == [t]
  {
    SplitJoin([t], '.');
  }

  lemma SplitTwo(a: string, b: string)
    requires '.' !in a && '.' !in b
    ensures Split(a + "." + b, '.') == [a, b]
  {
    assert Join([a, b], '.') == a + "." + b by {
      assert [a, b][1..] == [b];
    }
    SplitJoin([a, b], '.');
  }

  lemma Join3(a: string, b: string, c: string)
    ensures Join([a, b, c], '.') == a + "." + b + "." + c
  {
    var p := [a, b, c];
    assert p[1..] == [b, c];
    assert [b, c][1..] == [c];
    assert Join([b, c], '.') == b + ['.'] + c;
    assert Join(p, '.') == a + ['.'] + (b + ['.'] + c);
  }

  lemma SplitThree(a: string, b: string, c: string)
    requires '.' !in a && '.' !in b && '.' !in c
    ensures Split(a + "." + b + "." + c, '.') == [a, b, c]
  {
    Join3(a, b, c);
    SplitJoin([a, b, c], '.');
  }

  /** A digit string holds no other character. */
  lemma DigitsExclude(t: string, x: char)
    requires AllDigits(t) && !IsDigit(x)
    ensures x !in t
  {
    forall k | 0 <= k < |t| ensures t[k] != x {
      assert IsDigit(t[k]);
    }
  }

  lemma ParseBasic(s: string)
    requires s == "1.2.3"
    ensures Parse(s) == Ok(Version(1, 2, 3, "", ""))
  {
    var c := Captures("1", "2", "3", "", "");
    assert Compose(c) == "1.2.3";
    assert Value("1") == 1 && Value("2") == 2 && Value("3") == 3;
    ParseCompose(c);
  }

  lemma PreDotted(a: string, b: string)
    requires '.' !in a && '.' !in b && PreId(a) && PreId(b)
    ensures ValidPrerelease(a + "." + b)
  {
    SplitTwo(a, b);
  }

  lemma BuildDotted(a: string, b: string)
    requires '.' !in a && '.' !in b && BuildId(a) && BuildId(b)
    ensures ValidBuild(a + "." + b)
  {
    SplitTwo(a, b);
  }

  lemma ParseWithPrerelease()
    ensures Parse("0.1.0-alpha") == Ok(Version(0, 1, 0, "alpha", ""))
  {
    var c := Captures("0", "1", "0", "alpha", "");
    assert Compose(c) == "0.1.0-alpha";
    SplitOne("alpha");
    assert !IsDigit("alpha"[0]);
    assert ValidPrerelease("alpha");
    assert Value("0") == 0 && Value("1") == 1;
    ParseCompose(c);
  }

  lemma ParseWithBuild()
    ensures Parse("2.10.5+build.11") == Ok(Version(2, 10, 5, "", "build.11"))
  {
    var c := Captures("2", "10", "5", "", "build.11");
    assert Compose(c) == "2.10.5+build.11";
    assert "build" + "." + "11" == "build.11";
    BuildDotted("build", "11");
    assert Value("2") == 2 && Value("5") == 5;
    assert Value("10") == 10 by { assert "10"[..1] == "1"; }
    ParseCompose(c);
  }

  lemma BothGrammar()
    ensures Grammar(Captures("3", "4", "5", "rc.1", "sha.abcdef"))
  {
    assert "rc" + "." + "1" == "rc.1";
    assert "sha" + "." + "abcdef" == "sha.abcdef";
    assert !IsDigit("rc"[0]);
    PreDotted("rc", "1");
    BuildDotted("sha", "abcdef");
  }

  lemma ParseWithBoth()
    ensures Parse("3.4.5-rc.1+sha.abcdef") == Ok(Version(3, 4, 5, "rc.1", "sha.abcdef"))
  {
    var c := Captures("3", "4", "5", "rc.1", "sha.abcdef");
    assert Compose(c) == "3.4.5-rc.1+sha.abcdef";
    BothGrammar();
    assert Value("3") == 3 && Value("4") == 4 && Value("5") == 5;
    ParseCompose(c);
  }

  /** Without markers, text whose dotted parts are not three canonical
      numbers is rejected. */
  lemma RejectDotted(s: string, parts: seq<string>)
    requires '+' !in s && '-' !in s && Split(s, '.') == parts
    requires |parts| != 3 || !Canonical(parts[0]) || !Canonical(parts[1]) || !Canonical(parts[2])
    ensures Parse(s) == Err(InvalidVersion(s))
  {
  }

  lemma RejectEmpty()
    ensures Parse("") == Err(InvalidVersion(""))
  {
    SplitOne("");
    RejectDotted("", [""]);
  }

  lemma RejectTwoParts()
    ensures Parse("1.0") == Err(InvalidVersion("1.0"))
  {
    assert "1" + "." + "0" == "1.0";
    SplitTwo("1", "0");
    RejectDotted("1.0", ["1", "0"]);
  }

  lemma RejectFourParts()
    ensures Parse("1.0.0.0") == Err(InvalidVersion("1.0.0.0"))
  {
    var four := ["1", "0", "0", "0"];
    assert four[1..] == ["0", "0", "0"];
    Join3("0", "0", "0");
    assert Join(four, '.') == "1.0.0.0";
    SplitJoin(four, '.');
    RejectDotted("1.0.0.0", four);
  }

  lemma RejectLeadingZero()
    ensures Parse("01.2.3") == Err(InvalidVersion("01.2.3"))
  {
    assert "01" + "." + "2" + "." + "3" == "01.2.3";
    SplitThree("01", "2", "3");
    RejectDotted("01.2.3", ["01", "2", "3"]);
  }

  lemma RejectLetters()
    ensures Parse("a.b.c") == Err(InvalidVersion("a.b.c"))
  {
    assert "a" + "." + "b" + "." + "c" == "a.b.c";
    SplitThree("a", "b", "c");
    RejectDotted("a.b.c", ["a", "b", "c"]);
  }

  // ---------------------------------------------------------------------
  // Bumping

  /** `BumpMajor`: KEEP changes nothing; INCREASE adds one (wrapping like Go's
      `++`); a non-negative number replaces the field; any other negative
      number leaves the field alone. Every directive but KEEP zeroes minor
      and patch. */
  function BumpMajor(v: Version, d: Int64): (r: Version)
    ensures d == KEEP ==> r == v
    ensures d != KEEP ==> r == v.(major := r.major, minor := 0, patch := 0)
    ensures d == INCREASE ==> r.major == Inc(v.major)
    ensures d >= 0 ==> r.major == d
    ensures d < 0 && d != KEEP && d != INCREASE ==> r.major == v.major
  {
    if d == KEEP then v
    else
      var m := if d == INCREASE then Inc(v.major) else if d >= 0 then d else v.major;
      v.(major := m, minor := 0, patch := 0)
  }

  /** `BumpMinor`: as `BumpMajor`, one field down; only patch is zeroed. */
  function BumpMinor(v: Version, d: Int64): (r: Version)
    ensures d == KEEP ==> r == v
    ensures d != KEEP ==> r == v.(minor := r.minor, patch := 0)
    ensures d == INCREASE ==> r.minor == Inc(v.minor)
    ensures d >= 0 ==> r.minor == d
    ensures d < 0 && d != KEEP && d != INCREASE ==> r.minor == v.minor
  {
    if d == KEEP then v
    else
      var m := if d == INCREASE then Inc(v.minor) else if d >= 0 then d else v.minor;
      v.(minor := m, patch := 0)
  }

  /** `BumpPatch`: as `BumpMajor` on the last field, which has nothing below. */
  function BumpPatch(v: Version, d: Int64): (r: Version)
    ensures r == v.(patch := r.patch)
    ensures d == KEEP ==> r == v
    ensures d == INCREASE ==> r.patch == Inc(v.patch)
    ensures d >= 0 ==> r.patch == d
    ensures d < 0 && d != INCREASE ==> r.patch == v.patch
  {
    if d == KEEP then v
    else if d == INCREASE then v.(patch := Inc(v.patch))
    else if d >= 0 then v.(patch := d)
    else v
  }

  // ---------------------------------------------------------------------
  // Ordering

  /** `strings.Compare(a, b) < 0`: byte order of UTF-8 text, which is the
      order of code points. */
  predicate StrLess(a: string, b: string) {
    if a == [] then b != []
    else if b == [] then false
    else if a[0] != b[0] then a[0] < b[0]
    else StrLess(a[1..], b[1..])
  }

  lemma {:induction false} StrLessIrreflexive(a: string)
    ensures !StrLess(a, a)
  {
    if a != [] {
      StrLessIrreflexive(a[1..]);
    }
  }

  lemma {:induction false} StrLessTotal(a: string, b: string)
    ensures a == b || StrLess(a, b) || StrLess(b, a)
  {
    if a != [] && b != [] && a[0] == b[0] {
      StrLessTotal(a[1..], b[1..]);
      if a[1..] == b[1..] {
        assert a == [a[0]] + a[1..] && b == [b[0]] + b[1..];
      }
    }
  }

  lemma {:induction false} StrLessAsymmetric(a: string, b: string)
    requires StrLess(a, b)
    ensures !StrLess(b, a)
  {
    if a != [] && b != [] && a[0] == b[0] {
      StrLessAsymmetric(a[1..], b[1..]);
    }
  }

  lemma {:induction false} StrLessTransitive(a: string, b: string, c: string)
    requires StrLess(a, b) && StrLess(b, c)
    ensures StrLess(a, c)
  {
    if a != [] && b != [] && c != [] && a[0] == b[0] == c[0] {
      StrLessTransitive(a[1..], b[1..], c[1..]);
    }
  }

  /** `strings.Compare`. */
  function StrCompare(a: string, b: string): (r: int)
    ensures r == 0 <==> a == b
    ensures r < 0 <==> StrLess(a, b)
    ensures r > 0 <==> StrLess(b, a)
  {
    StrLessTotal(a, b);
    StrLessIrreflexive(a);
    if StrLess(a, b) then StrLessAsymmetric(a, b); -1
    else if a == b then 0
    else 1
  }

  /** `GreaterThan`: major, minor and patch numerically, then the pre-release
      and the build as strings, the first difference deciding. */
  function GreaterThan(v: Version, w: Version): (r: bool)
    ensures r ==> v != w
    ensures v.major != w.major ==> (r <==> v.major > w.major)
    ensures v.major == w.major && v.minor != w.minor ==> (r <==> v.minor > w.minor)
    ensures v.major == w.major && v.minor == w.minor && v.patch != w.patch ==> (r <==> v.patch > w.patch)
    ensures v.major == w.major && v.minor == w.minor && v.patch == w.patch && v.prerelease != w.prerelease ==>
              (r <==> StrLess(w.prerelease, v.prerelease))
    ensures v.major == w.major && v.minor == w.minor && v.patch == w.patch && v.prerelease == w.prerelease ==>
              (r <==> StrLess(w.build, v.build))
  {
    if v.major != w.major then v.major > w.major
    else if v.minor != w.minor then v.minor > w.minor
    else if v.patch != w.patch then v.patch > w.patch
    else if StrCompare(v.prerelease, w.prerelease) != 0 then StrCompare(v.prerelease, w.prerelease) > 0
    else StrCompare(v.build, w.build) > 0
  }

  /** `GreaterThan` never holds both ways. */
  lemma GreaterThanAsymmetric(v: Version, w: Version)
    requires GreaterThan(v, w)
    ensures !GreaterThan(w, v)
  {
    if v.major == w.major && v.minor == w.minor && v.patch == w.patch {
      if v.prerelease != w.prerelease {
        StrLessAsymmetric(w.prerelease, v.prerelease);
      } else {
        StrLessAsymmetric(w.build, v.build);
      }
    }
  }

  /** `LessThan`: `w` is greater than `v`. */
  function LessThan(v: Version, w: Version): (r: bool)
    ensures r <==> GreaterThan(w, v)
    ensures r ==> v != w && !GreaterThan(v, w)
  {
    if GreaterThan(w, v) then GreaterThanAsymmetric(w, v); true else false
  }

  /** `Equal`: all five fields agree. */
  function Equal(v: Version, w: Version): (r: bool)
    ensures r <==> v == w
  {
    v.major == w.major && v.minor == w.minor && v.patch == w.patch &&
    v.prerelease == w.prerelease && v.build == w.build
  }

  /** Exactly one of greater, less and equal holds. */
  lemma Trichotomy(v: Version, w: Version)
    ensures GreaterThan(v, w) || LessThan(v, w) || Equal(v, w)
    ensures !(GreaterThan(v, w) && LessThan(v, w))
    ensures Equal(v, w) ==> !GreaterThan(v, w) && !LessThan(v, w)
  {
    StrLessIrreflexive(v.prerelease);
    StrLessIrreflexive(v.build);
  }

  lemma GreaterThanTransitive(u: Version, v: Version, w: Version)
    requires GreaterThan(u, v) && GreaterThan(v, w)
    ensures GreaterThan(u, w)
  {
    if u.major == v.major == w.major && u.minor == v.minor == w.minor && u.patch == v.patch == w.patch {
      if u.prerelease == v.prerelease == w.prerelease {
        StrLessTransitive(w.build, v.build, u.build);
      } else if u.prerelease == v.prerelease || v.prerelease == w.prerelease {
      } else {
        StrLessTransitive(w.prerelease, v.prerelease, u.prerelease);
        if u.prerelease == w.prerelease {
          StrLessAsymmetric(w.prerelease, v.prerelease);
        }
      }
    }
  }

  /** The comparisons of the package's tests; note that a pre-release sorts
      above the bare release, because the strings are compared as they are. */
  lemma CompareExamples()
    ensures GreaterThan(Version(1, 2, 4, "", ""), Version(1, 2, 3, "", ""))
    ensures LessThan(Version(1, 2, 3, "", ""), Version(1, 3, 0, "", ""))
    ensures GreaterThan(Version(2, 0, 0, "", ""), Version(1, 9, 9, "", ""))
    ensures LessThan(Version(1, 2, 3, "alpha", ""), Version(1, 2, 3, "beta", ""))
    ensures GreaterThan(Version(1, 2, 3, "alpha", ""), Version(1, 2, 3, "", ""))
  {
  }

  /** Increasing any one field, without overflow, gives a greater version. */
  lemma IncreaseIsGreater(v: Version)
    ensures v.major < MaxInt ==> GreaterThan(BumpMajor(v, INCREASE), v)
    ensures v.minor < MaxInt ==> GreaterThan(BumpMinor(v, INCREASE), v)
    ensures v.patch < MaxInt ==> GreaterThan(BumpPatch(v, INCREASE), v)
  {
  }

  /** The bump sequence of the command line, major then minor then patch. */
  function BumpAll(v: Version, major: Int64, minor: Int64, patch: Int64): (r: Version)
    ensures r.prerelease == v.prerelease && r.build == v.build
    ensures major == KEEP && minor == KEEP && patch == KEEP ==> r == v
    ensures major >= 0 ==> r.major == major
    ensures minor >= 0 ==> r.minor == minor
    ensures patch >= 0 ==> r.patch == patch
    ensures major != KEEP && minor == KEEP ==> r.minor == 0
    ensures (major != KEEP || minor != KEEP) && patch == KEEP ==> r.patch == 0
  {
    BumpPatch(BumpMinor(BumpMajor(v, major), minor), patch)
  }

  /** Bumping only with KEEP and INCREASE, at least one INCREASE and no
      overflow, gives a greater version. */
  lemma BumpAllIsGreater(v: Version, major: Int64, minor: Int64, patch: Int64)
    requires major in {KEEP, INCREASE} && minor in {KEEP, INCREASE} && patch in {KEEP, INCREASE}
    requires major == INCREASE || minor == INCREASE || patch == INCREASE
    requires v.major < MaxInt && v.minor < MaxInt && v.patch < MaxInt
    ensures GreaterThan(BumpAll(v, major, minor, patch), v)
  {
  }

  /** Bumping 2.5.7: minor, then patch, then major. */
  lemma BumpExamples()
    ensures BumpMinor(Version(2, 5, 7, "", ""), INCREASE) == Version(2, 6, 0, "", "")
    ensures BumpPatch(Version(2, 6, 0, "", ""), INCREASE) == Version(2, 6, 1, "", "")
    ensures BumpMajor(Version(2, 6, 1, "", ""), INCREASE) == Version(3, 0, 0, "", "")
    ensures BumpAll(Version(1, 2, 3, "", ""), INCREASE, KEEP, INCREASE) == Version(2, 0, 1, "", "")
  {
  }
}
