/**
 * The filesystem the scaffolder writes to, as a map from absolute paths to
 * directories and files, with pathlib's `mkdir(parents=True, exist_ok=True)`
 * and `write_text`.  The root (the empty path) always exists and is not an
 * entry of the map.
 */
module FileSystems {
  import opened Results
  import opened Paths

  datatype Node = Directory | File(content: string)

  type Fs = map<Path, Node>

  /** The OS errors the two operations can raise. */
  datatype FsError =
    | FileExists(path: Path)        // mkdir on an existing file
    | NotADirectory(path: Path)     // a component on the way is a file
    | IsADirectory(path: Path)      // write_text on a directory
    | NoSuchDirectory(path: Path)   // a component on the way does not exist

  predicate IsDir(fs: Fs, p: Path) {
    p == [] || (p in fs && fs[p].Directory?)
  }

  predicate IsFile(fs: Fs, p: Path) {
    p in fs && fs[p].File?
  }

  /** Every entry hangs below an existing directory. */
  predicate WellFormed(fs: Fs) {
    forall p :: p in fs ==> p != [] && IsDir(fs, Parent(p))
  }

  /** `b` keeps every entry of `a` with the same kind; file contents may differ. */
  predicate KindLe(a: Fs, b: Fs) {
    forall p :: p in a ==> p in b && (a[p].Directory? <==> b[p].Directory?)
  }

  /** Every nonempty prefix of `d` is a directory: a lookup of `d` reaches it. */
  predicate DirsTo(fs: Fs, d: Path) {
    forall k :: 0 < k <= |d| ==> IsDir(fs, d[..k])
  }

  /** How the operating system's lookup of a path, one component at a time from the root, ends. */
  datatype Lookup = Reached | BlockedByFile | Missing

  /**
   * The first prefix of `d` that is not a directory decides the lookup: a
   * file stops it with ENOTDIR, a missing entry with ENOENT.
   */
  function Reach(fs: Fs, d: Path): (r: Lookup)
    decreases |d|
    ensures r == Reached <==> DirsTo(fs, d)
    ensures r == BlockedByFile ==> exists k :: 0 < k <= |d| && IsFile(fs, d[..k])
    ensures r == Missing ==> exists k :: 0 < k <= |d| && d[..k] !in fs
  {
    if d == [] then Reached
    else
      var up := Parent(d);
      assert forall k :: 0 < k <= |up| ==> up[..k] == d[..k];
      assert d[..|d|] == d;
      match Reach(fs, up)
      case Reached =>
        if d !in fs then Missing
        else if fs[d].Directory? then Reached
        else BlockedByFile
      case other => other
  }

  /**
   * `os.mkdir(p)` once its parent is reachable, with `exist_ok`: an existing
   * directory is accepted and an existing file raises FileExistsError.
   */
  function MakeLastDir(fs: Fs, p: Path): (r: Result<Fs, FsError>)
    requires p != []
    ensures r.Success? <==> !IsFile(fs, p)
    ensures r.Failure? ==> r.error == FileExists(p)
    ensures r.Success? ==> r.value == fs[p := Directory]
  {
    if p !in fs then Success(fs[p := Directory])
    else if fs[p].Directory? then Success(fs)
    else Failure(FileExists(p))
  }

  /**
   * `Path(p).mkdir(parents=True, exist_ok=True)`: `os.mkdir(p)` is tried
   * first; a file on the way to `p` fails it at once with
   * NotADirectoryError for `p`, a missing ancestor makes the parent first
   * and then retries.  It only adds directories, and on failure it has
   * added nothing.
   */
  function AfterMakeDirs(fs: Fs, p: Path): (r: Result<Fs, FsError>)
    decreases |p|
    ensures r.Success? ==> IsDir(r.value, p) && DirsTo(r.value, p)
    ensures r.Success? ==> forall q :: q in fs ==> q in r.value && r.value[q] == fs[q]
    ensures r.Success? ==> forall q :: q in r.value && q !in fs ==> q != [] && q <= p && r.value[q] == Directory
    ensures r.Failure? ==> exists k :: 0 < k <= |p| && IsFile(fs, p[..k])
  {
    if p == [] then Success(fs)
    else
      var up := Parent(p);
      assert forall k :: 0 < k <= |up| ==> up[..k] == p[..k];
      assert p[..|p|] == p;
      match Reach(fs, up)
      case BlockedByFile => Failure(NotADirectory(p))
      case Missing =>
        (match AfterMakeDirs(fs, up)
         case Failure(e) => Failure(e)
         case Success(made) => MakeLastDir(made, p))
      case Reached => MakeLastDir(fs, p)
  }

  /**
   * `Path(p).write_text(text)`: every ancestor must be a directory and `p`
   * must not be one; an existing file is overwritten.  Only `p` changes.
   */
  function AfterWriteText(fs: Fs, p: Path, text: string): (r: Result<Fs, FsError>)
    ensures r.Success? <==> p != [] && DirsTo(fs, Parent(p)) && !IsDir(fs, p)
    ensures r.Success? ==> p in r.value && r.value[p] == File(text)
    ensures r.Success? ==> forall q :: q != p ==> (q in r.value <==> q in fs) && (q in fs ==> r.value[q] == fs[q])
  {
    if p == [] then Failure(IsADirectory(p))
    else
      match Reach(fs, Parent(p))
      case BlockedByFile => Failure(NotADirectory(p))
      case Missing => Failure(NoSuchDirectory(p))
      case Reached =>
        if p in fs && fs[p].Directory? then Failure(IsADirectory(p))
        else Success(fs[p := File(text)])
  }

  /** In a well-formed filesystem every proper ancestor of an entry is a directory entry. */
  lemma {:induction false} AncestorsAreDirs(fs: Fs, p: Path)
    requires WellFormed(fs) && p in fs
    ensures forall k :: 0 < k < |p| ==> p[..k] in fs && fs[p[..k]].Directory?
    decreases |p|
  {
    var up := Parent(p);
    if up != [] {
      AncestorsAreDirs(fs, up);
      forall k | 0 < k < |p| ensures p[..k] in fs && fs[p[..k]].Directory? {
        if k == |up| {
          assert p[..k] == up;
        } else {
          assert up[..k] == p[..k];
        }
      }
    }
  }

  /** A lookup that ends at a missing entry meets no file on a well-formed filesystem. */
  lemma {:induction false} MissingMeansNoFile(fs: Fs, d: Path)
    requires WellFormed(fs) && Reach(fs, d) == Missing
    ensures forall k :: 0 < k <= |d| ==> !IsFile(fs, d[..k])
    decreases |d|
  {
    var up := Parent(d);
    EntryReachable(fs, d);
    if Reach(fs, up) == Missing {
      MissingMeansNoFile(fs, up);
    }
    assert d !in fs;
    forall k | 0 < k <= |d|
      ensures !IsFile(fs, d[..k])
    {
      if k == |d| {
        assert d[..k] == d;
      } else {
        assert up[..k] == d[..k];
        assert Reach(fs, up) == Reached ==> IsDir(fs, up[..k]);
      }
    }
  }

  /** On a well-formed filesystem an entry can be reached: its parent's lookup ends there. */
  lemma EntryReachable(fs: Fs, p: Path)
    requires WellFormed(fs) && p != []
    ensures p in fs ==> Reach(fs, Parent(p)) == Reached
  {
    if p in fs {
      DirReachable(fs, Parent(p));
    }
  }

  /** On a well-formed filesystem a directory can be reached, and its ancestors are directories. */
  lemma DirReachable(fs: Fs, d: Path)
    requires WellFormed(fs) && IsDir(fs, d)
    ensures DirsTo(fs, d)
  {
    if d != [] {
      AncestorsAreDirs(fs, d);
      assert d[..|d|] == d;
    }
  }

  /** mkdir keeps the filesystem well formed. */
  lemma MakeDirsKeepsWellFormed(fs: Fs, p: Path)
    requires WellFormed(fs) && AfterMakeDirs(fs, p).Success?
    ensures WellFormed(AfterMakeDirs(fs, p).value)
  {
    var made := AfterMakeDirs(fs, p).value;
    forall q | q in made
      ensures q != [] && IsDir(made, Parent(q))
    {
      if q !in fs {
        assert q == p[..|q|];
        assert Parent(q) == p[..|q| - 1];
      }
    }
  }

  /**
   * On a well-formed filesystem mkdir succeeds exactly when no ancestor of
   * `p`, and not `p` itself, is a file.
   */
  lemma {:induction false} MakeDirsSucceedsIff(fs: Fs, p: Path)
    requires WellFormed(fs)
    ensures AfterMakeDirs(fs, p).Success? <==> forall k :: 0 < k <= |p| ==> !IsFile(fs, p[..k])
    decreases |p|
  {
    if p != [] && forall k :: 0 < k <= |p| ==> !IsFile(fs, p[..k]) {
      var up := Parent(p);
      assert forall k :: 0 < k <= |up| ==> up[..k] == p[..k];
      assert p[..|p|] == p;
      if Reach(fs, up) == Missing {
        MakeDirsSucceedsIff(fs, up);
      }
    }
  }

  /**
   * On a well-formed filesystem a failing mkdir reports the requested path:
   * FileExistsError when it is a file, NotADirectoryError when a file is on
   * the way to it.
   */
  lemma MakeDirsErrorNamesPath(fs: Fs, p: Path)
    requires WellFormed(fs) && AfterMakeDirs(fs, p).Failure?
    ensures AfterMakeDirs(fs, p).error == if IsFile(fs, p) then FileExists(p) else NotADirectory(p)
  {
    var up := Parent(p);
    assert forall k :: 0 < k <= |up| ==> up[..k] == p[..k];
    match Reach(fs, up)
    case BlockedByFile =>
      EntryReachable(fs, p);
    case Missing =>
      MissingMeansNoFile(fs, up);
      MakeDirsSucceedsIff(fs, up);
    case Reached =>
  }

  /** The nonempty prefixes of a path. */
  function Prefixes(p: Path): set<Path> {
    set k | 0 < k <= |p| :: p[..k]
  }

  /** A directory entry for every nonempty prefix of a path. */
  function PrefixDirs(p: Path): map<Path, Node> {
    map q | q in Prefixes(p) :: Directory
  }

  /** Where every prefix of `p` is a directory, the directories of `p` are already in place. */
  lemma PrefixDirsPresent(fs: Fs, p: Path)
    requires DirsTo(fs, p)
    ensures forall q :: q in Prefixes(p) ==> q in fs && fs[q] == Directory
  {
    forall q | q in Prefixes(p)
      ensures q in fs && fs[q] == Directory
    {
      var k :| 0 < k <= |p| && q == p[..k];
      assert IsDir(fs, p[..k]);
    }
  }

  /** A successful mkdir is the old filesystem overlaid with a directory for every nonempty prefix of `p`. */
  lemma MakeDirsOverlay(fs: Fs, p: Path)
    requires AfterMakeDirs(fs, p).Success?
    ensures AfterMakeDirs(fs, p).value == fs + PrefixDirs(p)
  {
    var made := AfterMakeDirs(fs, p).value;
    var over := fs + PrefixDirs(p);
    PrefixDirsPresent(made, p);
    forall q | q in made
      ensures q in over && made[q] == over[q]
    {
      if q !in fs {
        assert q == p[..|q|];
        assert q in Prefixes(p);
      }
    }
    assert made.Keys == over.Keys;
  }

  /** mkdir changes nothing where every prefix of the path is already a directory. */
  lemma MakeDirsNoop(fs: Fs, p: Path)
    requires DirsTo(fs, p)
    ensures AfterMakeDirs(fs, p) == Success(fs)
  {
    if p != [] {
      var up := Parent(p);
      assert forall k :: 0 < k <= |up| ==> up[..k] == p[..k];
      assert p[..|p|] == p;
      assert Reach(fs, up) == Reached;
    }
  }

  /** exist_ok: making directories that were just made changes nothing and does not fail. */
  lemma MakeDirsIdempotent(fs: Fs, p: Path)
    requires AfterMakeDirs(fs, p).Success?
    ensures AfterMakeDirs(AfterMakeDirs(fs, p).value, p) == AfterMakeDirs(fs, p)
  {
    MakeDirsNoop(AfterMakeDirs(fs, p).value, p);
  }

  /** On a well-formed filesystem a write succeeds exactly when the parent is a directory and the target is not. */
  lemma WriteSucceedsIff(fs: Fs, p: Path, text: string)
    requires WellFormed(fs)
    ensures AfterWriteText(fs, p, text).Success? <==> p != [] && IsDir(fs, Parent(p)) && !IsDir(fs, p)
  {
    if p != [] {
      if IsDir(fs, Parent(p)) {
        DirReachable(fs, Parent(p));
      } else {
        assert Parent(p) == [] || Parent(p)[..|Parent(p)|] == Parent(p);
      }
    }
  }

  /**
   * On a well-formed filesystem a failing write reports the requested path:
   * NotADirectoryError when a file is on the way to it, FileNotFoundError
   * when a directory on the way is missing, IsADirectoryError when it is a
   * directory.
   */
  lemma WriteErrorNamesPath(fs: Fs, p: Path, text: string)
    requires WellFormed(fs) && AfterWriteText(fs, p, text).Failure?
    ensures AfterWriteText(fs, p, text).error ==
      if exists k :: 0 < k < |p| && IsFile(fs, p[..k]) then NotADirectory(p)
      else if !IsDir(fs, Parent(p)) then NoSuchDirectory(p)
      else IsADirectory(p)
  {
    if p != [] {
      var up := Parent(p);
      assert forall k :: 0 < k <= |up| ==> up[..k] == p[..k];
      match Reach(fs, up)
      case BlockedByFile =>
      case Missing =>
        MissingMeansNoFile(fs, up);
        assert !DirsTo(fs, up);
        if IsDir(fs, up) {
          DirReachable(fs, up);
        }
      case Reached =>
        assert up == [] || up[..|up|] == up;
    }
  }

  /** A lookup that reaches `d` still reaches it once entries are added and files rewritten. */
  lemma DirsToGrows(a: Fs, b: Fs, d: Path)
    requires KindLe(a, b) && DirsTo(a, d)
    ensures DirsTo(b, d)
  {
    forall k | 0 < k <= |d|
      ensures IsDir(b, d[..k])
    {
      assert IsDir(a, d[..k]);
    }
  }

  /** A write leaves the way to its own parent as it was. */
  lemma WriteKeepsWay(fs: Fs, p: Path, text: string)
    requires AfterWriteText(fs, p, text).Success?
    ensures DirsTo(AfterWriteText(fs, p, text).value, Parent(p))
  {
    var up := Parent(p);
    forall k | 0 < k <= |up|
      ensures IsDir(AfterWriteText(fs, p, text).value, up[..k])
    {
      assert IsDir(fs, up[..k]);
      assert |up[..k]| < |p|;
    }
  }

  /** Writing a file keeps the filesystem well formed. */
  lemma WriteKeepsWellFormed(fs: Fs, p: Path, text: string)
    requires WellFormed(fs) && AfterWriteText(fs, p, text).Success?
    ensures WellFormed(AfterWriteText(fs, p, text).value)
  {
    var up := Parent(p);
    assert up == [] || up[..|up|] == up;
  }

  /** A file blocking the way is reported for the requested path, by mkdir and by a write alike. */
  lemma FileOnTheWay()
    ensures AfterMakeDirs(map[["a"] := File("x")], ["a", "b", "c"]) == Failure(NotADirectory(["a", "b", "c"]))
    ensures AfterWriteText(map[["a"] := File("x")], ["a", "b", "c"], "t") == Failure(NotADirectory(["a", "b", "c"]))
  {
    var fs := map[["a"] := File("x")];
    var p := ["a", "b", "c"];
    assert Parent(p) == ["a", "b"] && Parent(["a", "b"]) == ["a"] && Parent(["a"]) == [];
    assert Reach(fs, ["a"]) == BlockedByFile;
  }

  /** The filesystem as one mutable object. */
  class FileSystem {
    var nodes: Fs

    constructor(nodes: Fs)
      ensures this.nodes == nodes
    {
      this.nodes := nodes;
    }

    /**
     * pathlib's recursive `mkdir(parents=True, exist_ok=True)`: `os.mkdir`
     * is tried first and, when a directory on the way is missing, the
     * parent is made and `os.mkdir` retried.
     */
    method MakeDirs(p: Path) returns (r: Outcome<FsError>)
      requires WellFormed(nodes)
      modifies this
      decreases |p|
      ensures AfterMakeDirs(old(nodes), p).Success? ==>
        r == Pass && nodes == AfterMakeDirs(old(nodes), p).value
      ensures AfterMakeDirs(old(nodes), p).Failure? ==>
        r == Fail(AfterMakeDirs(old(nodes), p).error) && nodes == old(nodes)
      ensures WellFormed(nodes)
    {
      if p == [] {
        return Pass;
      }
      EntryReachable(nodes, p);
      var lookup := Reach(nodes, Parent(p));
      if lookup == BlockedByFile {
        return Fail(NotADirectory(p));
      }
      r := Pass;
      if lookup == Missing {
        r := MakeDirs(Parent(p));
      }
      if r.Pass? {
        if p !in nodes {
          nodes := nodes[p := Directory];
        } else if nodes[p].File? {
          r := Fail(FileExists(p));
        }
      }
      if r.Pass? {
        MakeDirsKeepsWellFormed(old(nodes), p);
      }
    }

    method WriteText(p: Path, text: string) returns (r: Outcome<FsError>)
      modifies this
      ensures AfterWriteText(old(nodes), p, text).Success? ==>
        r == Pass && nodes == AfterWriteText(old(nodes), p, text).value
      ensures AfterWriteText(old(nodes), p, text).Failure? ==>
        r == Fail(AfterWriteText(old(nodes), p, text).error) && nodes == old(nodes)
    {
      if p == [] {
        return Fail(IsADirectory(p));
      }
      var lookup := Reach(nodes, Parent(p));
      if lookup == BlockedByFile {
        return Fail(NotADirectory(p));
      }
      if lookup == Missing {
        return Fail(NoSuchDirectory(p));
      }
      if p in nodes && nodes[p].Directory? {
        return Fail(IsADirectory(p));
      }
      nodes := nodes[p := File(text)];
      r := Pass;
    }
  }
}
