# verit, modelled in Dafny

verit is a command-line tool that reads, bumps and rewrites the version
string of whatever project a directory holds. The project kinds are:

- a Python `pyproject.toml`;
- a Node `package.json`;
- a Go `version.txt` found by a downward search;
- a Flutter `pubspec.yaml`;
- a Rust `Cargo.toml`;
- a composite "Mix"/"Multiple" project that keeps several of these in step.

The tool can also check a changelog for a release heading, and check git
state before tagging a release.

This project models that core as pure functions over immutable values and
proves what the code promises about it.

The modules follow the Go packages:

| module | models |
|---|---|
| `Version` | `pkg/version`: the SemVer grammar, `Parse`, `String` (`Format`), the bump directives and the five-field order |
| `GoInt`, `GoStrings` | the parts of `strconv` and `strings` the core calls, with Go's 64-bit `int` written out (`Inc` wraps) |
| `FileSystem` | a finite tree `map<Path, Node>` with `os.ReadFile`/`os.WriteFile` and `utils.FindFileDown` (the explicit-stack DFS) |
| `Patterns` | the fixed field regexes as matchers; the leftmost match of the Rust and Flutter patterns and the line match of the Python and Node ones |
| `TextEdit` | `utils.Grep` and `utils.Sed` over a regex given as a group count plus a leftmost-match function |
| `ProjectId` | the ID constants, `String`, `ParseProjectID` and `Which` |
| `Adapters` | the Rust, Flutter and Go adapters |
| `LineManifest` | the line-by-line Python/Node reader and rewriter |
| `Projects` | `ProjectID.Project`, `IsMe`, the cached Mix/Multiple scan, the agreement read and the sequential write |
| `Changelog` | `EnsureUpdated` and its token matcher |
| `Git` | `EnsureClean`, the `--porcelain=v2 --branch` header parser and `CreateTag` |
| `Cli` | `main.go`'s flag semantics, bump/build/set branching and tag step |

Mutable Go receivers become values. A read returns the adapter state it
leaves behind: the Go adapter's memoised `version.txt` path, and a
composite's member list. A write returns an `Effect`: an outcome, the new
file system, and the new project state.

Git commands become an `Oracle` parameter, `(dir, args) -> Reply`. The
model records the calls in the order the code makes them.

## Model

| member | source | states |
|---|---|---|
| Version.ParseVersionNumber | pkg/version/version.go:16-32 | Case-insensitive "KEEP" gives -2 and "INC" gives -1. Any other string succeeds iff `Atoi` accepts it with a non-negative value, and then that value is returned. The negative-number error comes exactly when `Atoi` accepts a negative value. Every other failure is the invalid-number error. |
| Version.ParseVersionNumberItoa | pkg/version/version.go:23-30 | Every non-negative 64-bit number, printed in decimal, parses back to itself. |
| Version.ParseVersionNumberCases | pkg/version/version.go:16-32 | Mixed case is accepted ("keep", "Inc"). "x1" is invalid. "-3" is rejected as negative rather than as invalid. |
| Version.Decompose | pkg/version/version.go:35 | The anchored regex's five captures: when it matches, the captures satisfy the SemVer grammar and re-compose to exactly the input. |
| Version.DecomposeCompose | pkg/version/version.go:35 | Any captures that satisfy the grammar are recovered from their composition, so the match is unambiguous. |
| Version.DecomposeExact | pkg/version/version.go:35 | The regex matches exactly the strings of the SemVer 2.0.0 grammar (sections 2, 9 and 10 of Semantic Versioning 2.0.0), anchored at both ends. |
| Version.ParseInt | pkg/version/version.go:45-51 | A canonical digit string within 64 bits gives its value. One that overflows gives 0, the value of the swallowed `Atoi` error. |
| Version.Parse | pkg/version/version.go:53-67 | Succeeds iff the input is SemVer. Failure is the invalid-version error carrying the input. On success the numbers are non-negative and the prerelease and build fields are empty or valid. |
| Version.Format | pkg/version/version.go:69-81 | `String()` is exactly the text the version pattern's groups compose: the three numbers in decimal, then "-" and the prerelease and "+" and the build, each only when non-empty. ParseFormat and FormatParse show it inverts Parse. |
| Version.ParseFormat | pkg/version/version.go:53-81 | For any well-formed version, parsing its `String()` gives the same version back. |
| Version.FormatParse | pkg/version/version.go:45-81 | For every accepted string whose numbers fit in 64 bits, `String(Parse(s)) == s`. |
| Version.FormatChars | pkg/version/version.go:69-81 | `String()` starts with a digit and uses only digits, letters, '.', '-' and '+'. |
| Version.ParsedStartsWithDigit | pkg/version/version.go:35 | Every accepted string starts with a digit. |
| Version.ParsedHasNoBuild | pkg/version/version.go:59-65 | Without a '+' the build field is empty. |
| Version.ParseCompose | pkg/version/version.go:53-67 | Parsing a grammatical composition yields the captured numbers' values and the captured prerelease and build. |
| Version.ParseBasic | pkg/version/version_test.go:13-17 | "1.2.3" parses to 1, 2, 3 with empty tags. |
| Version.ParseWithPrerelease | pkg/version/version_test.go:18-22 | "0.1.0-alpha" has prerelease "alpha". |
| Version.ParseWithBuild | pkg/version/version_test.go:23-27 | "2.10.5+build.11" has build "build.11". |
| Version.ParseWithBoth | pkg/version/version_test.go:28-32 | "3.4.5-rc.1+sha.abcdef" carries both tags. |
| Version.RejectDotted | pkg/version/version.go:35 | A tag-free string that does not split into exactly three canonical numbers is rejected. |
| Version.RejectEmpty | pkg/version/version_test.go:54 | "" is rejected. |
| Version.RejectTwoParts | pkg/version/version_test.go:55 | "1.0" is rejected. |
| Version.RejectFourParts | pkg/version/version_test.go:56 | "1.0.0.0" is rejected. |
| Version.RejectLeadingZero | pkg/version/version_test.go:57 | "01.2.3" is rejected. |
| Version.RejectLetters | pkg/version/version_test.go:58 | "a.b.c" is rejected. |
| Version.BumpMajor | pkg/version/version.go:83-94 | KEEP changes nothing. Every other directive zeroes minor and patch and keeps the tags. INCREASE adds one with 64-bit wrap. n >= 0 sets the major number to n. Any other negative value leaves the major number alone. |
| Version.BumpMinor | pkg/version/version.go:96-106 | KEEP changes nothing. Every other directive keeps major and the tags and zeroes patch. The minor number is incremented, set, or kept by the same rule as for major. |
| Version.BumpPatch | pkg/version/version.go:108-117 | Only the patch number can change: it is incremented by INCREASE, set by n >= 0, and kept otherwise. |
| Version.StrLessTotal | pkg/version/version.go:137-146 | Byte-wise string order (`strings.Compare`) is total. |
| Version.StrLessTransitive | pkg/version/version.go:137-146 | Byte-wise string order is transitive. |
| Version.StrLessAsymmetric | pkg/version/version.go:137-146 | Byte-wise string order is asymmetric. |
| Version.StrLessIrreflexive | pkg/version/version.go:137-146 | Byte-wise string order is irreflexive. |
| Version.StrCompare | pkg/version/version.go:137-146 | `strings.Compare` is 0, negative or positive exactly when the strings are equal, less or greater in byte order. |
| Version.Equal | pkg/version/version.go:154-156 | Equality of all five fields is value equality. |
| Version.GreaterThan | pkg/version/version.go:119-148 | The first field that differs decides, in the order major, minor, patch, prerelease, build: a larger number wins, and a prerelease or build wins when it is later in code-point order. Equal versions are never greater. |
| Version.GreaterThanAsymmetric | pkg/version/version.go:119-148 | GreaterThan never holds in both directions. |
| Version.LessThan | pkg/version/version.go:150-152 | `v.LessThan(w)` is `w.GreaterThan(v)`, and it excludes both equality and `v.GreaterThan(w)`. |
| Version.Trichotomy | pkg/version/version.go:119-156 | Exactly one of greater, less and equal holds for any two versions. |
| Version.GreaterThanTransitive | pkg/version/version.go:119-148 | `GreaterThan` is transitive. With its field-by-field contract and GreaterThanAsymmetric, it is a strict lexicographic order over the five fields. |
| Version.CompareExamples | pkg/version/version_test.go:83-113 | The patch, minor, major and prerelease cases order as expected. "1.2.3-alpha" is greater than "1.2.3", which is not the precedence of section 11 of Semantic Versioning 2.0.0. |
| Version.IncreaseIsGreater | pkg/version/version.go:83-117 | Incrementing any one number below the 64-bit maximum gives a greater version. |
| Version.BumpAll | main.go:160-162 | Bumping major, minor and patch in turn keeps the prerelease and build. All-KEEP leaves the version alone. A non-negative directive sets its field. A field below a bumped one that is itself kept ends at 0. |
| Version.BumpAllIsGreater | main.go:160-162 | Applying keep/increase directives, with at least one increase, in the order major, minor, patch gives a greater version. |
| Version.BumpExamples | main.go:160-162 | Minor, patch and major increments reset as described. -M -p takes 1.2.3 to 2.0.1. |
| GoInt.Inc | pkg/version/version.go:88 | Go's `x++` on a 64-bit int: plus one, and the maximum wraps to the minimum. |
| GoInt.Atoi | pkg/version/version.go:23 | `strconv.Atoi` accepts only an optional sign followed by digits. Every digit string whose value fits in 64 bits is accepted, with that value. |
| GoInt.AtoiItoa | pkg/version/version.go:23 | `Atoi` reads back every 64-bit number in its decimal form. |
| GoInt.DigitsOfValue | pkg/version/version.go:71 | The decimal form of a canonical digit string's value is that string. |
| GoStrings.TrimSpace | pkg/projectid/p_go.go:59 | The result is the input with its leading and trailing whitespace runs removed. It starts and ends with non-space, and is empty iff the input is all whitespace. |
| GoStrings.TrimSpaceOf | internal/changelog/changelog.go:68 | Whitespace around a word that has no space at either end is exactly what is trimmed. |
| GoStrings.Split | internal/changelog/changelog.go:28 | `strings.Split` gives non-empty output whose pieces avoid the separator and join back to the input. |
| GoStrings.SplitJoin | internal/git/git.go:62 | Splitting a separator-free join gives back the pieces. |
| GoStrings.Lines | pkg/projectid/p_python.go:38-42 | The scanner's lines contain no newline. |
| GoStrings.LinesUnlines | pkg/projectid/p_python.go:61-72 | Newline-terminating lines and scanning them back is the identity. |
| GoStrings.UnlinesLines | pkg/projectid/p_python.go:61-72 | Re-terminating scanned lines gives the input, with a final newline added if it was missing. |
| GoStrings.Fields | internal/changelog/changelog.go:82 | `strings.Fields` gives non-empty, space-free words, and none iff the input is all whitespace. |
| GoStrings.FieldsSpaced | internal/changelog/changelog.go:82 | `strings.Fields` inverts spacing: a list of non-empty, space-free words, each followed by a space, splits back into exactly those words in order. |
| GoStrings.ReplaceFirst | pkg/projectid/p_python.go:65 | `bytes.Replace(…, 1)` splices the replacement over the leftmost occurrence, or leaves the input unchanged when there is none. |
| GoStrings.Cut | pkg/projectid/p_flutter.go:47-50 | The split at the first occurrence: the part before it avoids the separator, and both parts re-join to the input. |
| GoStrings.ToLower | pkg/projectid/id.go:37 | Same length, each character mapped by ASCII lower-casing. |
| GoStrings.ToUpper | pkg/version/version.go:17 | Same length, each character mapped by ASCII upper-casing. |
| FileSystem.ReadFile | internal/utils/grep.go:12-23 | Succeeds exactly on files and returns their data. A missing path is a not-exist error, and a directory is an is-a-directory error. |
| FileSystem.FileExists | internal/utils/fs.go:9-13 | `os.Stat` succeeds exactly when reading the path does not report that it is missing, so a directory exists too. |
| FileSystem.WriteFile | pkg/projectid/p_go.go:71-78 | Directories and read-only files are refused. A missing path needs create. A success changes exactly that path. |
| FileSystem.ReadAfterWrite | pkg/projectid/p_go.go:71-78 | After a successful write the path reads back the data, and every other path reads as before. |
| FileSystem.WritesKeepWellFormed | internal/utils/sed.go:45-56 | Writing a file keeps the tree well formed. |
| FileSystem.PopUnreadable | internal/utils/fs.go:36-39 | Dropping an unreadable directory from the stack does not change whether the name is reachable. |
| FileSystem.PopReadable | internal/utils/fs.go:40-51 | Replacing a popped directory by its subdirectories keeps reachability when none of its entries has the name. |
| FileSystem.SearchStack | internal/utils/fs.go:28-52 | The stack loop finds the name iff some directory on the stack reaches it. The path found is a listed entry with that base name, below a stack directory. |
| FileSystem.SearchIn | internal/utils/fs.go:37-50 | Scanning one popped directory's entries preserves the loop's answer. |
| FileSystem.FindFileDown | internal/utils/fs.go:18-54 | A missing start gives ("", false). A file start matches only by its own base name. A directory start succeeds iff a readable directory below it lists the name, and the result is that entry's path below the start. When the start directory itself lists the name, the result is start/name, before any subdirectory is searched. |
| TextEdit.PickCapture | internal/utils/grep.go:29-37 | No group gives the whole match. One group gives its text, or "" if it did not take part. Two or more groups give the multiple-results error. |
| TextEdit.Grep | internal/utils/grep.go:11-38 | Missing path and directory errors come first, then not-found, then the capture choice, so not-found wins over multiple-groups. |
| TextEdit.Splice | internal/utils/sed.go:29-43 | No group splices over the whole match. One group splices over the group span. Two or more groups leave the parts empty. |
| TextEdit.SpliceFrames | internal/utils/sed.go:32-41 | A splice keeps every byte before and after the span and puts the replacement in between. |
| TextEdit.Sed | internal/utils/sed.go:10-58 | Errors (missing, directory, no match) leave the files untouched. A success writes the spliced content in place without create. |
| TextEdit.SedEffect | internal/utils/sed.go:24-56 | After Sed only the target file differs, and it reads back as the splice of the leftmost match. |
| TextEdit.FixedRegexesSound | pkg/projectid/p_rust.go:36 | The Rust and Flutter matchers return spans that fit the text and have one group. |
| Patterns.LineMatch | pkg/projectid/p_python.go:40 | A line matches iff, after leading space, the key follows, then the separator, then a quote, and the line holds a later quote. The capture runs to the last quote on the line. |
| Patterns.QuotedValue | pkg/projectid/p_node.go:40 | The greedy `"(.+)"` capture starts after the opening quote, is non-empty, and ends at the last quote before the line end. |
| Patterns.RustFind | pkg/projectid/p_rust.go:36 | The unanchored Rust pattern's leftmost match: no earlier position matches, and the group is inside the match. |
| Patterns.FlutterAt | pkg/projectid/p_flutter.go:37 | A match starts at a line start. The group is a maximal run of non-space, non-quote characters after `version:` and an optional quote. |
| Patterns.FlutterFind | pkg/projectid/p_flutter.go:37 | The multi-line Flutter pattern's leftmost match. |
| ProjectId.Name | pkg/projectid/id.go:17-34 | A value is "Unknown" exactly when it is not one of the six IDs 10 to 15. |
| ProjectId.ParseProjectID | pkg/projectid/id.go:36-53 | The result is 0 or a known ID. |
| ProjectId.ParseName | pkg/projectid/id.go:17-53 | `ParseProjectID` inverts `String` for the six IDs, also in upper case. |
| ProjectId.ParseExactly | pkg/projectid/id.go:36-53 | A string parses to an ID iff it lower-cases to that ID's lower-cased name. |
| ProjectId.UnknownIsZero | pkg/projectid/id.go:17-53 | "Unknown" parses to 0. Both 0 and MaxProjectID print as "Unknown". |
| ProjectId.FirstChecked | pkg/projectid/projectid.go:32-37 | The first checker in iteration order that holds wins, and 0 means none holds. |
| ProjectId.Which | pkg/projectid/projectid.go:25-38 | 0 means no package.json, pyproject.toml or go.mod exists in the directory. Otherwise the result is Node, Python or Go, and its own file exists. |
| ProjectId.IsNode | pkg/projectid/projectid.go:46-48 | True iff package.json exists in the directory, as a file or a directory. |
| ProjectId.IsPython | pkg/projectid/projectid.go:50-52 | True iff pyproject.toml exists in the directory, as a file or a directory. |
| ProjectId.IsGo | pkg/projectid/projectid.go:54-56 | True iff go.mod exists in the directory, as a file or a directory. |
| ProjectId.IsRust | pkg/projectid/p_rust.go:20-22 | True iff Cargo.toml exists in the directory, as a file or a directory. |
| ProjectId.IsFlutter | pkg/projectid/p_flutter.go:21-23 | True iff pubspec.yaml exists in the directory, as a file or a directory. |
| ProjectId.WhichComplete | pkg/projectid/projectid.go:25-38 | The result is 0 iff none of the three files exists, and it is never Mix, Flutter or Rust. |
| Adapters.RustGet | pkg/projectid/p_rust.go:38-45 | Any Grep failure becomes version-not-found. Otherwise the result is Parse of the capture. |
| Adapters.RustSet | pkg/projectid/p_rust.go:47-49 | A missing Cargo.toml is a not-exist error. A success writes only Cargo.toml. |
| Adapters.RustSetReplacesCapture | pkg/projectid/p_rust.go:36-49 | A successful write replaces exactly the span `RustGet` reads with the full `String()`, and keeps the rest of the file. |
| Adapters.FlutterDecode | pkg/projectid/p_flutter.go:45-59 | The part before the first '+' is parsed, and a failure is wrapped. The rest becomes the build. |
| Adapters.FlutterGet | pkg/projectid/p_flutter.go:37-43 | A Grep failure is version-not-found. Otherwise the capture is decoded. |
| Adapters.FlutterValue | pkg/projectid/p_flutter.go:62-66 | The value written is `String()` of the version with its prerelease dropped. |
| Adapters.FlutterSet | pkg/projectid/p_flutter.go:62-68 | A missing pubspec.yaml is a not-exist error. A success writes only pubspec.yaml. |
| Adapters.FlutterSetReplacesCapture | pkg/projectid/p_flutter.go:62-68 | After a successful write, pubspec.yaml holds the old text with exactly the span GetVersion reads replaced by the new value. Everything before and after it is kept. |
| Adapters.FlutterValueDecodes | pkg/projectid/p_flutter.go:45-66 | The written value decodes to the version with its prerelease dropped. |
| Adapters.FlutterDecodeExample | pkg/projectid/projectid_test.go:140-146 | "1.2.3+4" decodes to 1.2.3 with build "4". |
| Adapters.ResolveVersionFile | pkg/projectid/p_go.go:30-39 | A cached path is returned as is. A finished empty search stays empty. Otherwise FindFileDown runs once and its result is cached as final. |
| Adapters.ResolveStable | pkg/projectid/p_go.go:30-39 | Resolving again from the cached state gives the same answer, whatever the file system is by then. |
| Adapters.ResolveFinds | pkg/projectid/p_go.go:35 | A found path ends in version.txt and is the working directory or lies below it. |
| Adapters.GoGetAt | pkg/projectid/p_go.go:53-64 | No path or no readable file gives version.txt-not-found. Otherwise the result is Parse of the trimmed content, with a parse error wrapped with the path. |
| Adapters.GoSetAt | pkg/projectid/p_go.go:66-78 | No path gives the please-create-one error. Otherwise `String()` is written with create and no newline. |
| Adapters.GoSetThenGet | pkg/projectid/p_go.go:53-78 | Reading back a successful write gives the written version. |
| Adapters.GoReadsTrimmed | pkg/projectid/p_go.go:59 | Trailing whitespace after the version text is ignored. |
| Adapters.GoTrailingNewline | pkg/projectid/p_go.go:59 | "1.2.3\n" reads as 1.2.3. |
| Adapters.PythonIsMeMissesPyproject | pkg/projectid/p_python.go:18-20 | The `IsMe` as written answers false for a directory whose only manifest is a readable pyproject.toml. |
| Adapters.PythonIsMeMatchesManifest | pkg/projectid/p_python.go:18-35 | The corrected `IsMe` holds iff the Python adapter can open its manifest. |
| LineManifest.Capture | pkg/projectid/p_python.go:43 | A line has a capture iff it matches, and the capture is the matched span's text. |
| LineManifest.FirstMatch | pkg/projectid/p_python.go:42-46 | The index of the first matching line. No earlier line matches, and none at all when there is no index. |
| LineManifest.VersionOfLines | pkg/projectid/p_python.go:42-47 | Parse of the first matching line's capture, or version-not-found. |
| LineManifest.ScanFile | pkg/projectid/p_python.go:31-38 | A missing file is the open error. A file yields its scanned lines, and a directory yields no lines. |
| LineManifest.GetVersion | pkg/projectid/p_node.go:30-48 | The Node and Python read: an open error passes through, and otherwise the result is the version of the first matching line. |
| LineManifest.RewriteLine | pkg/projectid/p_python.go:63-71 | A non-matching line is copied unchanged. A matching one has the first occurrence of its capture replaced. |
| LineManifest.RewriteLines | pkg/projectid/p_node.go:61-72 | Every line is rewritten, not only the first matching one, and the count is kept. |
| LineManifest.SetVersion | pkg/projectid/p_python.go:50-76 | A missing file is the open error. Otherwise the rewritten lines, each newline-terminated, are written with create, and only that path changes. |
| LineManifest.RewriteRematches | pkg/projectid/p_python.go:64-65 | A rewritten line still matches, and its capture is now the new text. |
| LineManifest.RewriteFirstMatch | pkg/projectid/p_python.go:61-72 | After the rewrite the same line is the first match, and it captures the new version. |
| LineManifest.SetThenGet | pkg/projectid/p_node.go:30-76 | Reading back after a successful write gives the written version. |
| LineManifest.SetKeepsLineCount | pkg/projectid/p_python.go:61-72 | The written file has as many lines as before and ends in a newline. |
| Projects.ID | pkg/projectid/p_mix.go:43-45 | Each adapter reports its own kind. Multiple reports the configured value. |
| Projects.ProjectFor | pkg/projectid/id.go:55-86 | There is an adapter iff the ID is known. Its ID and workdir are the arguments. A Mix one is built already scanned: its members' kinds are those the detection order keeps. |
| Projects.ScanOrder | pkg/projectid/p_mix.go:19-32 | The members' kinds are the detection order filtered by skip, checker presence, checker truth and kind knownness, in order. |
| Projects.KeptIdsMembers | pkg/projectid/p_mix.go:19-32 | A kind is a member iff it is in the order and passes every filter. |
| Projects.KeptIdsDistinct | pkg/projectid/p_multiple.go:19-32 | A duplicate-free order gives duplicate-free members. |
| Projects.Scan | pkg/projectid/p_mix.go:14-34 | A non-empty member list is kept. An empty one is scanned again. |
| Projects.ScanCached | pkg/projectid/p_multiple.go:14-34 | Once non-empty, the scan is fixed even under a changed file system, and scanning twice equals scanning once. |
| Projects.IsMe | pkg/projectid/p_mix.go:36-41 | Leaves check their marker file, and Python checks it through a readable pyproject.toml. A composite is false for another directory, and otherwise true iff the scan keeps more than one kind. |
| Projects.GetLeaf | pkg/projectid/p_go.go:53-64 | A single adapter's read. Only Go changes state, caching its version.txt search. |
| Projects.GetVersion | pkg/projectid/p_mix.go:51-75 | A read keeps the kind, the workdir and the member count. |
| Projects.Reads | pkg/projectid/p_mix.go:59-60 | Each member is read in the same state. |
| Projects.CompositeGet | pkg/projectid/p_mix.go:51-75 | No members is the no-projects error. Otherwise the read succeeds iff all members read the same version, Build included, and then returns it. A failure blames a member error or a mismatch at some member. |
| Projects.AgreeFrom | pkg/projectid/p_mix.go:59-72 | One member comes back per member from `i` on. A success returns the first member's version, and member `i` read exactly that version. |
| Projects.AgreeFromAgrees | pkg/projectid/p_mix.go:59-72 | From the reference onwards the fold succeeds iff every later member agrees with it. |
| Projects.GetIdempotent | pkg/projectid/p_go.go:30-39 | Reading again from the state a read leaves gives the same result and the same state. |
| Projects.SetLeaf | pkg/projectid/projectid.go:10-16 | A single adapter's write changes only its own file and fails without changes. |
| Projects.SetVersion | pkg/projectid/p_mix.go:77-89 | A write changes only the members' files. A composite with no members is the no-projects error, with nothing written. |
| Projects.SetFrom | pkg/projectid/p_multiple.go:82-88 | The sequential write changes only the files of the members it reached. |
| Projects.SetFromStep | pkg/projectid/p_mix.go:82-86 | A failing member stops the loop with its kind prefixed, keeping the files as they were at that point. A passing member continues. |
| Projects.LeafSetThenGet | pkg/projectid/p_node.go:30-76 | For Python, Node and Go, a successful write reads back as the written version. |
| Projects.SetFromRoundTrip | pkg/projectid/p_mix.go:82-88 | With distinct targets, a complete sequential write reads back as the version at every member. |
| Projects.CompositeSetThenGet | pkg/projectid/p_mix.go:51-88 | A composite of Python, Node and Go members with distinct files that read in agreement reads back the version after a successful write. |
| Changelog.TrimVersionPrefix | internal/changelog/changelog.go:115-123 | Exactly one leading v or V is removed. |
| Changelog.NewTarget | internal/changelog/changelog.go:44-65 | A blank version gives the empty target. Otherwise exact is the trimmed version, withoutPrefix strips one v/V, and withPrefix is "v"+withoutPrefix or "". |
| Changelog.MatchesTarget | internal/changelog/changelog.go:102-113 | An empty token never matches. For a target as newVersionTarget builds it, a token matches iff it is the exact spelling, the bare version, or the bare version once its own v/V is dropped. The "v" spelling adds no match. |
| Changelog.NormalizeToken | internal/changelog/changelog.go:93-100 | Normalising never lengthens a token. |
| Changelog.NormalizeClean | internal/changelog/changelog.go:93-100 | A token that neither ends in trimmed characters nor in a punctuation suffix is left as it is. |
| Changelog.NormalizeWrapped | internal/changelog/changelog.go:95 | A wrapping pair of bracket or emphasis characters is removed. |
| Changelog.IsVersionLine | internal/changelog/changelog.go:67-91 | Only a line whose trimmed form starts with '#' can match. |
| Changelog.EnsureUpdated | internal/changelog/changelog.go:11-36 | A blank version or a missing changelog gives true. A directory in its place gives false. Otherwise the answer is whether some line is a heading for the target. |
| Changelog.SingleWordHeading | internal/changelog/changelog.go:82-88 | A one-word heading matches iff its normalised word matches. |
| Changelog.HeadingCounts | internal/changelog/changelog.go:82-90 | A heading whose first word normalises to a match is a version line, whatever follows it. |
| Changelog.HeadingMakesUpdated | internal/changelog/changelog.go:28-35 | A changelog containing the line "## <version>" is up to date. |
| Changelog.BracketedHeading | internal/changelog/changelog.go:93-113 | "## [v] …" matches whatever v matches. |
| Changelog.PrefixedHeading | internal/changelog/changelog.go:107-112 | "## v1.3.0"-style headings match the bare version. |
| Changelog.SelfMatches | internal/changelog/changelog.go:102-113 | A space-free version matches its own target. |
| Changelog.PrefixOptional | internal/changelog/changelog.go:44-113 | A line is a heading for "vX" iff it is one for "X". |
| Changelog.UpdatedPrefixOptional | internal/changelog/changelog.go:11-36 | `EnsureUpdated` gives the same answer for "vX", "VX" and "X". |
| Changelog.DatedExample | internal/changelog/changelog_test.go:31-44 | "## [0.2.0] - 2025-10-14" is a heading for 0.2.0. |
| Changelog.PrefixedExample | internal/changelog/changelog_test.go:45-54 | "## v1.3.0" is a heading for 1.3.0. |
| Changelog.UnreleasedExample | internal/changelog/changelog_test.go:55-66 | "## [Unreleased]" is not a heading for 0.9.0. |
| Changelog.RunningTextExample | internal/changelog/changelog_test.go:67-78 | A body line mentioning the version does not count. |
| Git.EnsureCommitted | internal/git/git.go:28-44 | A failed status is the status-failed error. Otherwise the tree is clean iff the output is all whitespace. |
| Git.EnsurePushed | internal/git/git.go:46-55 | A failed branch status is the branch-status-failed error. |
| Git.Decide | internal/git/git.go:86-93 | An ahead count above 0 fails, naming a non-empty upstream and the count. Otherwise it passes. |
| Git.Classify | internal/git/git.go:63-85 | A line is an upstream line iff it starts, once trimmed, with "# branch.upstream". Its upstream name is its third field, present iff it has at least three fields. Any other line starting with "# branch.ab" that has at least four fields and whose third field, without one leading '+', is an integer is an ahead line with that count. Ahead lines arise in no other way. |
| Git.ScanFrom | internal/git/git.go:62-96 | The loop fails only with a positive ahead count and a non-empty upstream name. Without an ahead line left to read, it passes. |
| Git.Kinds | internal/git/git.go:62-85 | Each output line is classified on its own. |
| Git.FirstOf | internal/git/git.go:62-94 | The first line of the wanted kind at or after the start. |
| Git.SeekUpstream | internal/git/git.go:73-75 | Nothing before the first upstream line matters. |
| Git.SeekAhead | internal/git/git.go:64-93 | After the upstream line, the first well-formed ab line decides, using the upstream name last set before it. |
| Git.ScanIsVerdict | internal/git/git.go:62-96 | The line loop equals the declarative verdict: find the upstream line, then the first ab line after it. |
| Git.PassesWithoutVerdict | internal/git/git.go:96 | No upstream line, or no well-formed ab line after it, passes. |
| Git.FailsWhenAhead | main.go:254-286 | The check fails iff the deciding ab line is ahead. The error names the upstream, or "@{u}" when none was given, and the count. |
| Git.EnsureClean | internal/git/git.go:14-26 | Passes iff the tree is clean and, when asked, pushed. The branch status runs only after a clean tree and only when asked. |
| Git.Run | internal/git/git.go:125-137 | Passes iff the command succeeds. The error carries the arguments and the detail. |
| Git.TagSteps | internal/git/git.go:106-121 | Clean check, then `git tag v<version>`, then the force-push only if pushing and the tag succeeded. The result is the tag name iff every step passed. |
| Git.CreateTag | internal/git/git.go:100-105 | A version read failure aborts before any git call. Otherwise the tag steps run for the read version. |
| Git.TagNamesVersion | main.go:202 | The tag is "v" followed by text that parses back to the version read. |
| Cli.Effective | main.go:60-62 | --tag-push implies --tag, and nothing else changes. |
| Cli.ReadOrZero | main.go:127-133 | The current version, or 0.0.0 when it cannot be read. |
| Cli.ParseDirectives | main.go:135-151 | All three directives parse, or the first failing one's error is returned. |
| Cli.BumpVersion | main.go:126-167 | Writes iff the directives parse and are not all KEEP. The write is of the bumped current-or-zero version. |
| Cli.SetBuildVersion | main.go:169-179 | Re-reads the version or uses zero, replaces only the build, and writes. |
| Cli.Finish | main.go:108-115 | Without --tag the version is shown and no git call is made. With --tag the tag steps run, and the exit is a tag failure iff they failed. |
| Cli.Main | main.go:65-116 | A bad --version stops before any write. A valid --version on a detected project leaves exactly the files that setting that version on the project leaves. No detected project is a nil-project exit. Git is called only with --tag. |
| Cli.SetVersionWins | main.go:89-96 | With --version set, the bump and build flags have no effect. |
| Cli.SetIsShown | main.go:89-96 | Without --tag, a valid --version that the detected project accepts is the version shown afterwards. |
| Cli.BumpExample | main.go:135-162 | -M -p on 1.2.3 gives 2.0.1. |
| Cli.BumpIsShown | main.go:97-115 | A plain bump of a readable project shows the bumped version. |
| Cli.NoBumpNoWrite | main.go:135-158 | All-KEEP or invalid directives without --build leave every file untouched. |
| Cli.BuildAfterRead | main.go:169-178 | --build after the bump phase sets only the build of the version that was read. |
| Cli.BuildIsShown | main.go:98-115 | --build alone shows the read version with the new build. |

## Left out

- Flag parsing, help text, the embedded app version and all printing are not modelled. Flags are a plain record. `setVersion`'s printed-and-ignored error is an outcome that `Main` discards.
- Spawning git is not modelled. Each call is answered by an `Oracle` parameter, and the model records the argument lists in order.
- `Pwd` is not modelled, because it depends on the process; the working directory is an input.
- The file system is a finite map. It has no permissions beyond a writable flag, and no symlinks or modes.
- `path.Join`'s cleaning is not modelled: paths are component lists, and `[]` stands for Go's "".
- The scanner's CR stripping and token-size limit are not modelled.
- `strings.ToLower` and `ToUpper` are modelled for ASCII only.
- Go's general regexp engine is not modelled. The four fixed field patterns are hand-written matchers. `Grep` and `Sed` take any other regex as a group count plus a leftmost-match function, so the test pattern at internal/utils/sed_test.go:21 is not encoded.
- `projectDetectionOrder`, `projectCheckers` and `Multiple` are used at pkg/projectid/p_mix.go:19-23 and pkg/projectid/p_multiple.go:19-23, but their definitions are not part of this model, so they are `Config` parameters.
- `Which`'s map iteration order is a parameter, any order of Node, Python and Go.
- The code does not compile as written. pkg/projectid/p_python.go:44 and pkg/projectid/p_node.go:44 return a two-valued call plus nil; the model returns Parse's result. `isGo` is declared both at pkg/projectid/projectid.go:54 and at pkg/projectid/p_go.go:26; the two bodies agree and are modelled once.
- The tests disagree with the code in two places, and the model follows the code:
  - pkg/projectid/projectid_test.go:36-57 expects `Which` to report Flutter and Mix, but `WhichComplete` proves it never does.
  - The one-line JSON at pkg/projectid/projectid_test.go:32,81,106 never matches the line-anchored Node pattern, so those Mix tests cannot see a Node version.
- `Version.CompareExamples` follows the code's plain lexicographic order, under which a prerelease sorts after the release. This is not the precedence of section 11 of Semantic Versioning 2.0.0.
- The duplicated branch parser at main.go:238-288 is the same function as internal/git/git.go:46-97 and is modelled once, as `Git.EnsurePushed`.
- Cli.Main: `main` can only build the kinds `Which` returns (Node, Python, Go), so the Flutter, Rust and Mix paths of `main` are reachable in the model only through `Projects`.
- Projects.CompositeSetThenGet: the read-after-write round trip is proved for Python, Node and Go members. For Rust, `RustSetReplacesCapture` states the splice, but re-matching after the write is not proved. Flutter drops the prerelease, so `FlutterValueDecodes` is its weaker round trip.
- FileSystem.FindFileDown: it requires the tree to be well formed, which here means only that no directory listing names an entry twice. Nothing ties a listing to the paths present below the directory.
- FileSystem.FindFileDown: the model keeps each listing in whatever order the tree gives it. `os.ReadDir` sorts entries by name, and the model does not. So the contract fixes the match only when the start directory lists the name itself; deeper, it says only that some reachable match is returned.
- FileSystem.WriteFile: creating a missing file does not check that its parent directory exists, where `os.WriteFile` would fail. The new file is also not added to its parent's listing. In the modelled flows every write goes to a file that was found or read just before, except a Go version path that was cached earlier and has since been removed.
- Projects.GetVersion: the composite read computes every member's read up front and then folds, where the code reads members lazily and stops at the first failure. Reads have no effects other than the returned member state, and the fold only keeps the states of the members it reached, so the results agree.
- Projects.IsMe: the model's Python `IsMe` is the corrected one (see Findings).
- Changelog.NormalizeToken: its own contract states only that a token never grows. What the trimming does is stated by `NormalizeClean` and `NormalizeWrapped`, for clean tokens and for wrapped ones.
- Changelog.IsVersionLine: its own contract states only the '#' requirement. Which headings match is stated by `SingleWordHeading`, `HeadingCounts`, `BracketedHeading` and the examples.
- Git.EnsurePushed: its own contract states only the failed-command case. The parse is stated by `FailsWhenAhead` and `PassesWithoutVerdict`.
- Projects.GetVersion: its own contract states only what a read keeps. The composite result is stated by `CompositeGet`, and a leaf read is `GetLeaf`.

## Findings

| source | as written | input that shows it | evidently intended | confidence | as-written member | corrected member |
|---|---|---|---|---|---|---|
| pkg/projectid/p_python.go:18-20 | Python `IsMe` returns `isNode(workdir)`, testing for package.json | a directory holding only a pyproject.toml with `version = "1.0.0"`: `IsMe` is false although the adapter reads it | test for pyproject.toml, as `isPython` does | not executed | Adapters.PythonIsMeAsWritten (shown by Adapters.PythonIsMeMissesPyproject) | Adapters.PythonIsMe (proved by Adapters.PythonIsMeMatchesManifest) |
