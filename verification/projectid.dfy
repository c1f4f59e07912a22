/** pkg/projectid id.go and projectid.go: the project kinds, their names,
    and which kind a directory holds. */
module ProjectId {
  import opened GoStrings
  import opened FileSystem

  const Mix: int := 10
  const Python: int := 11
  const Go: int := 12
  const Node: int := 13
  const Flutter: int := 14
  const Rust: int := 15
  /** One past the last kind. */
  const MaxProjectID: int := 16

  /** The six kinds `Project` can build. */
  predicate Known(id: int) {
    Mix <= id < MaxProjectID
  }

  /** `ProjectID.String`. */
  function Name(id: int): (r: string)
    ensures !Known(id) <==> r == "Unknown"
  {
    if id == Mix then "Mix"
    else if id == Python then "Python"
    else if id == Go then "Go"
    else if id == Node then "Node"
    else if id == Flutter then "Flutter"
    else if id == Rust then "Rust"
    else "Unknown"
  }

  /** `ParseProjectID`: the lower-cased name of a kind, else 0. */
  function ParseProjectID(s: string): (r: int)
    ensures r == 0 || Known(r)
  {
    FromLower(ToLower(s))
  }

  /** The kind whose lower-cased name is `t`, else 0. */
  function FromLower(t: string): (r: int)
    ensures r == 0 || Known(r)
  {
    if t == "mix" then Mix
    else if t == "python" then Python
    else if t == "go" then Go
    else if t == "node" then Node
    else if t == "flutter" then Flutter
    else if t == "rust" then Rust
    else 0
  }

  lemma LowerIs(s: string, t: string)
    requires |s| == |t| && forall i :: 0 <= i < |s| ==> LowerAscii(s[i]) == t[i]
    ensures ToLower(s) == t
  {
  }

  /** The lower-cased names of the six kinds. */
  function LowerName(id: int): string {
    if id == Mix then "mix"
    else if id == Python then "python"
    else if id == Go then "go"
    else if id == Node then "node"
    else if id == Flutter then "flutter"
    else if id == Rust then "rust"
    else "unknown"
  }

  lemma LowerNames(id: int)
    ensures ToLower(Name(id)) == LowerName(id)
  {
    LowerIs(Name(id), LowerName(id));
  }

  /** Upper-casing first does not change what lower-casing gives. */
  lemma LowerOfUpper(s: string)
    ensures ToLower(ToUpper(s)) == ToLower(s)
  {
    LowerIs(ToUpper(s), ToLower(s));
  }

  /** Parsing a name gives its kind back, whatever the case of the letters. */
  lemma ParseName(id: int)
    requires Known(id)
    ensures ParseProjectID(Name(id)) == id
    ensures ParseProjectID(ToUpper(Name(id))) == id
  {
    LowerNames(id);
    LowerOfUpper(Name(id));
  }

  /** A string parses to a kind exactly when it lower-cases to the
      lower-cased name of that kind; every other string gives 0. */
  lemma ParseExactly(s: string, id: int)
    requires Known(id)
    ensures ParseProjectID(s) == id <==> ToLower(s) == ToLower(Name(id))
  {
    LowerNames(id);
    FromLowerName(id);
    if ParseProjectID(s) == id {
      FromLowerOnly(ToLower(s), id);
    }
  }

  lemma FromLowerName(id: int)
    requires Known(id)
    ensures FromLower(LowerName(id)) == id
  {
  }

  lemma FromLowerOnly(t: string, id: int)
    requires Known(id) && FromLower(t) == id
    ensures t == LowerName(id)
  {
  }

  /** "Unknown", the name of every other value, does not parse back. */
  lemma UnknownIsZero()
    ensures ParseProjectID("Unknown") == 0
    ensures Name(0) == "Unknown" && Name(MaxProjectID) == "Unknown"
  {
    LowerNames(0);
  }

  // ---------------------------------------------------------------------
  // Detection

  /** The manifest whose presence marks each kind. */
  const PackageJson: string := "package.json"
  const PyprojectToml: string := "pyproject.toml"
  const GoMod: string := "go.mod"
  const CargoToml: string := "Cargo.toml"
  const PubspecYaml: string := "pubspec.yaml"

  predicate IsNode(fs: FS, workdir: Path)
    ensures IsNode(fs, workdir) <==> IsFileAt(fs, PathJoin(workdir, PackageJson)) || IsDirAt(fs, PathJoin(workdir, PackageJson))
  {
    FileExists(fs, PathJoin(workdir, PackageJson))
  }
  predicate IsPython(fs: FS, workdir: Path)
    ensures IsPython(fs, workdir) <==> IsFileAt(fs, PathJoin(workdir, PyprojectToml)) || IsDirAt(fs, PathJoin(workdir, PyprojectToml))
  {
    FileExists(fs, PathJoin(workdir, PyprojectToml))
  }
  predicate IsGo(fs: FS, workdir: Path)
    ensures IsGo(fs, workdir) <==> IsFileAt(fs, PathJoin(workdir, GoMod)) || IsDirAt(fs, PathJoin(workdir, GoMod))
  {
    FileExists(fs, PathJoin(workdir, GoMod))
  }
  predicate IsRust(fs: FS, workdir: Path)
    ensures IsRust(fs, workdir) <==> IsFileAt(fs, PathJoin(workdir, CargoToml)) || IsDirAt(fs, PathJoin(workdir, CargoToml))
  {
    FileExists(fs, PathJoin(workdir, CargoToml))
  }
  predicate IsFlutter(fs: FS, workdir: Path)
    ensures IsFlutter(fs, workdir) <==> IsFileAt(fs, PathJoin(workdir, PubspecYaml)) || IsDirAt(fs, PathJoin(workdir, PubspecYaml))
  {
    FileExists(fs, PathJoin(workdir, PubspecYaml))
  }

  /** The checker table of `Which`. */
  predicate Check(id: int, fs: FS, workdir: Path) {
    if id == Node then IsNode(fs, workdir)
    else if id == Python then IsPython(fs, workdir)
    else if id == Go then IsGo(fs, workdir)
    else false
  }

  /** An order in which Go may range over the three-entry checker map. */
  predicate MapOrder(order: seq<int>) {
    |order| == 3 && multiset(order) == multiset{Node, Python, Go}
  }

  /** The first kind in `order` whose checker holds. */
  function FirstChecked(order: seq<int>, fs: FS, workdir: Path): (r: int)
    ensures r != 0 ==> r in order && Check(r, fs, workdir)
    ensures r == 0 <==> forall i :: 0 <= i < |order| ==> !Check(order[i], fs, workdir)
  {
    if order == [] then 0
    else if Check(order[0], fs, workdir) then order[0]
    else FirstChecked(order[1..], fs, workdir)
  }

  /** `Which`: the map's iteration order is unspecified in Go and is a
      parameter here. */
  function Which(fs: FS, workdir: Path, order: seq<int>): (r: int)
    requires MapOrder(order)
    ensures r == 0 ==> !IsNode(fs, workdir) && !IsPython(fs, workdir) && !IsGo(fs, workdir)
    ensures r != 0 ==> (r == Node && IsNode(fs, workdir)) || (r == Python && IsPython(fs, workdir))
                       || (r == Go && IsGo(fs, workdir))
  {
    assert Node in multiset(order) && Python in multiset(order) && Go in multiset(order);
    FirstChecked(order, fs, workdir)
  }

  /** `Which` finds a kind whenever one of the three manifests is present,
      and never answers Mix, Flutter or Rust. */
  lemma WhichComplete(fs: FS, workdir: Path, order: seq<int>)
    requires MapOrder(order)
    ensures Which(fs, workdir, order) == 0 <==> !IsNode(fs, workdir) && !IsPython(fs, workdir) && !IsGo(fs, workdir)
    ensures Which(fs, workdir, order) !in {Mix, Flutter, Rust}
  {
    assert Node in multiset(order) && Python in multiset(order) && Go in multiset(order);
    var i :| 0 <= i < 3 && order[i] == Node;
    var j :| 0 <= j < 3 && order[j] == Python;
    var k :| 0 <= k < 3 && order[k] == Go;
  }
}
