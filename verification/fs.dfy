/** An in-memory filesystem and the two helpers of internal/utils/fs.go:
    `FileExists` and the downward search `FindFileDown`.

    A path is a list of components and `path.Join` appends one; the empty
    path stands for Go's "" sentinel. A directory records the names
    `os.ReadDir` lists, in the order it lists them, or `None` when reading it
    fails. */
module FileSystem {
  import opened Wrappers
  import opened Errors

  type Path = seq<string>

  datatype Node =
    | File(data: string, writable: bool)
    | Dir(listing: Option<seq<string>>)

  type FS = map<Path, Node>

  function PathJoin(dir: Path, name: string): Path {
    dir + [name]
  }

  /** `path.Base`: the last component, "." for the empty path. */
  function Base(p: Path): string {
    if p == [] then "." else p[|p| - 1]
  }

  /** `utils.FileExists` and `fileExists`: `os.Stat` succeeds, which it does
      for directories too. */
  predicate FileExists(fs: FS, p: Path)
    ensures FileExists(fs, p) <==> ReadFile(fs, p) != Err(NotExist(p))
  {
    p in fs
  }

  predicate IsDirAt(fs: FS, p: Path) {
    p in fs && fs[p].Dir?
  }

  predicate IsFileAt(fs: FS, p: Path) {
    p in fs && fs[p].File?
  }

  predicate Distinct<T(==)>(s: seq<T>) {
    forall i, j :: 0 <= i < j < |s| ==> s[i] != s[j]
  }

  /** What every real directory satisfies: a listing never names an entry twice. */
  predicate WellFormed(fs: FS) {
    forall p :: p in fs && fs[p].Dir? && fs[p].listing.Some? ==> Distinct(fs[p].listing.value)
  }

  /** `os.ReadFile`. */
  function ReadFile(fs: FS, p: Path): (r: Result<string, Error>)
    ensures r.Ok? <==> IsFileAt(fs, p)
    ensures r.Ok? ==> r.value == fs[p].data
    ensures p !in fs ==> r == Err(NotExist(p))
    ensures IsDirAt(fs, p) ==> r == Err(IsDirectory(p))
  {
    if p !in fs then Err(NotExist(p))
    else match fs[p]
      case Dir(_) => Err(IsDirectory(p))
      case File(data, _) => Ok(data)
  }

  /** `fs2` is `fs` with at most the file at `p` written: every other entry
      is kept and nothing else appears. */
  predicate Writes(fs: FS, fs2: FS, p: Path) {
    && fs2.Keys == fs.Keys + {p}
    && fs2[p].File?
    && forall q :: q in fs && q != p ==> fs2[q] == fs[q]
  }

  /** Opening `p` for a truncating write and writing `data`. With `create`
      (`os.WriteFile`, `os.Create`) a missing file is made; without it
      (`os.OpenFile` with `O_TRUNC` only) a missing file is an error. A
      directory or a read-only file cannot be opened for writing, and then
      nothing changes. An existing file keeps its mode. */
  function WriteFile(fs: FS, p: Path, data: string, create: bool): (r: Result<FS, Error>)
    ensures p in fs && fs[p].Dir? ==> r == Err(IsDirectory(p))
    ensures p in fs && fs[p].File? && !fs[p].writable ==> r == Err(PermissionDenied(p))
    ensures p !in fs && !create ==> r == Err(NotExist(p))
    ensures r.Ok? ==> Writes(fs, r.value, p) && r.value[p] == File(data, true)
  {
    if p !in fs then
      if create then Ok(fs[p := File(data, true)]) else Err(NotExist(p))
    else match fs[p]
      case Dir(_) => Err(IsDirectory(p))
      case File(_, w) => if w then Ok(fs[p := File(data, true)]) else Err(PermissionDenied(p))
  }

  /** A successful write is read back, and no other path changes. */
  lemma ReadAfterWrite(fs: FS, p: Path, data: string, create: bool, q: Path)
    requires WriteFile(fs, p, data, create).Ok?
    ensures ReadFile(WriteFile(fs, p, data, create).value, p) == Ok(data)
    ensures q != p ==> ReadFile(WriteFile(fs, p, data, create).value, q) == ReadFile(fs, q)
  {
  }

  /** Writing a file keeps every directory listing, so the tree stays well formed. */
  lemma WritesKeepWellFormed(fs: FS, fs2: FS, p: Path)
    requires WellFormed(fs) && Writes(fs, fs2, p)
    ensures WellFormed(fs2)
  {
  }

  // ---------------------------------------------------------------------
  // FindFileDown

  /** `a` equals `b` or is an ancestor of it. */
  predicate PrefixEq(a: Path, b: Path) {
    |a| <= |b| && b[..|a|] == a
  }

  /** `p` names an entry of a readable directory: its parent lists it. */
  predicate Listed(fs: FS, p: Path) {
    && |p| > 0
    && IsDirAt(fs, p[..|p| - 1])
    && fs[p[..|p| - 1]].listing.Some?
    && p[|p| - 1] in fs[p[..|p| - 1]].listing.value
  }

  /** The paths of `fs` strictly below `d`. */
  ghost function Below(fs: FS, d: Path): set<Path> {
    set q | q in fs && |d| < |q| && q[..|d|] == d
  }

  lemma BelowChild(fs: FS, d: Path, n: string)
    requires d + [n] in fs
    ensures Below(fs, d + [n]) < Below(fs, d)
  {
    var c := d + [n];
    forall q | q in Below(fs, c) ensures q in Below(fs, d) {
      assert q[..|d|] == q[..|c|][..|d|];
    }
    assert c[..|d|] == d;
    assert c in Below(fs, d) && c !in Below(fs, c);
  }

  /** Some readable directory at or below `d`, reachable from `d` through
      readable directories, lists an entry called `name`. */
  ghost predicate Reaches(fs: FS, d: Path, name: string)
    decreases Below(fs, d)
  {
    && IsDirAt(fs, d)
    && fs[d].listing.Some?
    && (|| name in fs[d].listing.value
        || exists n :: n in fs[d].listing.value && IsDirAt(fs, d + [n]) &&
             (BelowChild(fs, d, n); Reaches(fs, d + [n], name)))
  }

  /** The subdirectories among `names`, as `d + [n]`, in listing order: the
      paths the search loop pushes for one directory. */
  function ChildDirs(fs: FS, d: Path, names: seq<string>): (r: seq<Path>)
    ensures forall q :: q in r ==>
              IsDirAt(fs, q) && |q| == |d| + 1 && q[..|d|] == d && q[|d|] in names
    ensures forall n :: n in names && IsDirAt(fs, d + [n]) ==> d + [n] in r
    ensures Distinct(names) ==> Distinct(r)
  {
    if names == [] then []
    else
      var last := names[|names| - 1];
      var init := ChildDirs(fs, d, names[..|names| - 1]);
      assert forall n :: n in names ==> n in names[..|names| - 1] || n == last;
      assert (d + [last])[..|d|] == d;
      if IsDirAt(fs, d + [last]) then
        assert Distinct(names) ==> last !in names[..|names| - 1];
        init + [d + [last]]
      else init
  }

  /** No path on the stack is another's ancestor, nor appears twice. */
  predicate Incomparable(stack: seq<Path>) {
    forall i, j :: 0 <= i < |stack| && 0 <= j < |stack| && i != j ==> !PrefixEq(stack[i], stack[j])
  }

  /** The paths of `fs` at or below some stack entry: what is left to visit. */
  ghost function Covered(fs: FS, stack: seq<Path>): set<Path> {
    set q | q in fs && exists e :: e in stack && PrefixEq(e, q)
  }

  /** How a path relates to a child `k` of `dir` through `dir`. */
  lemma ChildPrefix(e: Path, dir: Path, k: Path)
    requires |k| == |dir| + 1 && k[..|dir|] == dir
    ensures PrefixEq(e, k) ==> PrefixEq(e, dir) || e == k
    ensures PrefixEq(k, e) ==> PrefixEq(dir, e)
  {
    if PrefixEq(e, k) && |e| <= |dir| {
      assert e == k[..|e|] && dir[..|e|] == k[..|e|];
    }
    if PrefixEq(k, e) {
      assert e[..|dir|] == e[..|k|][..|dir|];
    }
  }

  /** Replacing a popped directory by its subdirectories leaves the stack
      incomparable and strictly shrinks what is left to visit. */
  lemma PopPush(fs: FS, rest: seq<Path>, dir: Path, kids: seq<Path>)
    requires IsDirAt(fs, dir)
    requires Incomparable(rest + [dir])
    requires Distinct(kids)
    requires forall k :: k in kids ==> |k| == |dir| + 1 && k[..|dir|] == dir
    ensures Incomparable(rest + kids)
    ensures Covered(fs, rest + kids) < Covered(fs, rest + [dir])
  {
    var stack := rest + [dir];
    assert forall i :: 0 <= i < |rest| ==> stack[i] == rest[i];
    assert stack[|rest|] == dir;
    forall e | e in rest ensures !PrefixEq(e, dir) && !PrefixEq(dir, e) {
      var i :| 0 <= i < |rest| && rest[i] == e;
      assert stack[i] == e;
    }
    forall e, k | e in rest && k in kids ensures !PrefixEq(e, k) && !PrefixEq(k, e) {
      ChildPrefix(e, dir, k);
    }
    var s2 := rest + kids;
    forall i, j | 0 <= i < |s2| && 0 <= j < |s2| && i != j ensures !PrefixEq(s2[i], s2[j]) {
      if i < |rest| && j < |rest| {
        assert s2[i] == stack[i] && s2[j] == stack[j];
      } else if i >= |rest| && j >= |rest| {
        assert s2[i] == kids[i - |rest|] && s2[j] == kids[j - |rest|];
        assert s2[i] in kids && s2[j] in kids;
        assert s2[i] != s2[j];
      } else {
        assert s2[i] in rest || s2[i] in kids;
        assert s2[j] in rest || s2[j] in kids;
      }
    }
    forall q | q in Covered(fs, s2) ensures q in Covered(fs, stack) {
      var e :| e in s2 && PrefixEq(e, q);
      if e in kids {
        assert q[..|dir|] == q[..|e|][..|dir|];
        assert PrefixEq(dir, q) && dir in stack;
      } else {
        assert e in stack;
      }
    }
    assert PrefixEq(dir, dir) && dir in stack;
    assert dir in Covered(fs, stack);
    forall e | e in s2 ensures !PrefixEq(e, dir) {
      assert e in rest || e in kids;
    }
    assert dir !in Covered(fs, s2);
  }

  /** Some stack entry reaches an entry called `name`. */
  ghost predicate AnyReaches(fs: FS, stack: seq<Path>, name: string) {
    exists q :: q in stack && Reaches(fs, q, name)
  }

  /** `p` lies strictly below some stack entry. */
  predicate UnderSome(stack: seq<Path>, p: Path) {
    exists q :: q in stack && |q| < |p| && p[..|q|] == q
  }

  /** Popping an unreadable directory loses no reachable entry. */
  lemma PopUnreadable(fs: FS, rest: seq<Path>, dir: Path, name: string)
    requires IsDirAt(fs, dir) && fs[dir].listing.None?
    ensures AnyReaches(fs, rest + [dir], name) <==> AnyReaches(fs, rest, name)
  {
    assert forall q :: q in rest + [dir] <==> q in rest || q == dir;
  }

  /** Replacing a readable directory that does not list `name` by its
      subdirectories loses no reachable entry and finds none new. */
  lemma PopReadable(fs: FS, rest: seq<Path>, dir: Path, names: seq<string>, name: string)
    requires IsDirAt(fs, dir) && fs[dir].listing == Some(names) && name !in names
    ensures AnyReaches(fs, rest + [dir], name) <==> AnyReaches(fs, rest + ChildDirs(fs, dir, names), name)
  {
    var kids := ChildDirs(fs, dir, names);
    assert forall q :: q in rest + [dir] <==> q in rest || q == dir;
    assert forall q :: q in rest + kids <==> q in rest || q in kids;
    forall k | k in kids && Reaches(fs, k, name) ensures Reaches(fs, dir, name) {
      assert k == dir + [k[|dir|]];
    }
  }

  /** Below a child of `dir` is below `dir`. */
  lemma UnderKids(rest: seq<Path>, dir: Path, kids: seq<Path>, p: Path)
    requires forall k :: k in kids ==> |k| == |dir| + 1 && k[..|dir|] == dir
    requires UnderSome(rest + kids, p)
    ensures UnderSome(rest + [dir], p)
  {
    var q :| q in rest + kids && |q| < |p| && p[..|q|] == q;
    if q in kids {
      assert p[..|dir|] == p[..|q|][..|dir|];
      assert dir in rest + [dir];
    } else {
      assert q in rest + [dir];
    }
  }

  /** The loop of FindFileDown from a given stack: pop the last directory;
      an unreadable one is skipped; otherwise its entries are compared with
      `name` in listing order, a match ends the search with `dir/name`, and
      the subdirectories are pushed in listing order. Pushing the
      subdirectories met before a match is unobservable, since the search
      returns at the match. */
  function SearchStack(fs: FS, stack: seq<Path>, name: string): (r: (Path, bool))
    requires WellFormed(fs)
    requires forall q :: q in stack ==> IsDirAt(fs, q)
    requires Incomparable(stack)
    ensures r.1 <==> AnyReaches(fs, stack, name)
    ensures r.1 ==> Listed(fs, r.0) && Base(r.0) == name && UnderSome(stack, r.0)
    ensures !r.1 ==> r.0 == []
    ensures stack != [] ==>
              var top := stack[|stack| - 1];
              IsDirAt(fs, top) && fs[top].listing.Some? && name in fs[top].listing.value ==>
                r == (top + [name], true)
    decreases Covered(fs, stack), 1
  {
    if stack == [] then ([], false)
    else
      var dir := stack[|stack| - 1];
      var rest := stack[..|stack| - 1];
      assert stack == rest + [dir];
      assert IsDirAt(fs, dir);
      match fs[dir].listing
      case None =>
        PopPush(fs, rest, dir, []);
        PopUnreadable(fs, rest, dir, name);
        assert rest + [] == rest;
        SearchStack(fs, rest, name)
      case Some(names) =>
        SearchIn(fs, rest, dir, names, name)
  }

  /** One readable directory popped from the stack. */
  function SearchIn(fs: FS, rest: seq<Path>, dir: Path, names: seq<string>, name: string): (r: (Path, bool))
    requires WellFormed(fs)
    requires forall q :: q in rest + [dir] ==> IsDirAt(fs, q)
    requires Incomparable(rest + [dir])
    requires IsDirAt(fs, dir) && fs[dir].listing == Some(names)
    ensures r.1 <==> AnyReaches(fs, rest + [dir], name)
    ensures r.1 ==> Listed(fs, r.0) && Base(r.0) == name && UnderSome(rest + [dir], r.0)
    ensures !r.1 ==> r.0 == []
    decreases Covered(fs, rest + [dir]), 0
  {
    var found := dir + [name];
    assert dir in rest + [dir];
    if name in names then
      assert found[..|found| - 1] == dir && found[..|dir|] == dir;
      (found, true)
    else
      var kids := ChildDirs(fs, dir, names);
      PopPush(fs, rest, dir, kids);
      PopReadable(fs, rest, dir, names, name);
      assert forall q :: q in rest + kids ==> q in rest + [dir] || q in kids;
      var r := SearchStack(fs, rest + kids, name);
      if r.1 then UnderKids(rest, dir, kids, r.0); r else r
  }

  /** `utils.FindFileDown`: a start that cannot be stat'ed gives ("", false);
      a start that is not a directory matches on its own base name; from a
      directory the explicit-stack search runs, never comparing the start's
      own name. */
  function FindFileDown(fs: FS, startDir: Path, fileName: string): (r: (Path, bool))
    requires WellFormed(fs)
    ensures startDir !in fs ==> r == ([], false)
    ensures IsFileAt(fs, startDir) ==>
              r == (if Base(startDir) == fileName then (startDir, true) else ([], false))
    ensures IsDirAt(fs, startDir) ==> (r.1 <==> Reaches(fs, startDir, fileName))
    ensures IsDirAt(fs, startDir) && r.1 ==>
              Listed(fs, r.0) && Base(r.0) == fileName &&
              |startDir| < |r.0| && r.0[..|startDir|] == startDir
    ensures IsDirAt(fs, startDir) && fs[startDir].listing.Some? && fileName in fs[startDir].listing.value ==>
              r == (startDir + [fileName], true)
    ensures !r.1 ==> r.0 == []
  {
    if startDir !in fs then ([], false)
    else if fs[startDir].File? then
      if Base(startDir) == fileName then (startDir, true) else ([], false)
    else
      SearchStack(fs, [startDir], fileName)
  }
}
