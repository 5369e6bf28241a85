/**
 * The part of the local file system that the job-record routines touch,
 * with the semantics of the `pathlib` calls they make: `Path.exists()`,
 * `Path.is_file()`, `Path.iterdir()`, `Path.mkdir(parents=True, exist_ok=True)`,
 * `Path.open("w")` and the read-then-write byte copy.
 *
 * The file system is a value `FsState` (a set of directories and a map from
 * file paths to contents). Each operation is a function from the old state
 * to a `Result`, and the class `FileSystem` holds the live state and applies
 * those steps in place.
 */
module FileSys {
  import opened Wrappers

  /** A path as its components; `[]` is the top of the tree, `p + [n]` is `p / n`. */
  type Path = seq<string>

  /** A JSON object as its ordered key/value pairs. */
  type JsonObject = seq<(string, string)>

  /** What a file holds: a serialised JSON object or raw bytes. */
  datatype Contents = Json(object: JsonObject) | Bytes(data: seq<bv8>)

  /** The errors the modelled calls raise. */
  datatype OsError =
    | NotCreated(path: Path)            // mkdir: the path or one of its ancestors is a file
    | IsADirectory(path: Path)          // open: the path names a directory
    | NotFound(path: Path)              // open for writing: the parent directory is missing
    | Refused(path: Path, reason: string) // the operating system refused (permissions, full disk, ...)

  datatype FsState = FsState(dirs: set<Path>, files: map<Path, Contents>)

  /** `path.name`: the last component, "" for the top. */
  function BaseName(p: Path): string
  {
    if |p| == 0 then "" else p[|p| - 1]
  }

  /** `str(path)` on Windows: the components joined by backslashes. */
  function Render(p: Path): string
  {
    if |p| == 0 then ""
    else if |p| == 1 then p[0]
    else Render(p[..|p| - 1]) + "\\" + p[|p| - 1]
  }

  /** Every ancestor of a directory is a directory, and every file sits in a
      directory and is not itself a directory. */
  ghost predicate WellFormed(s: FsState)
  {
    && (forall d, k :: d in s.dirs && 0 <= k <= |d| ==> d[..k] in s.dirs)
    && (forall f :: f in s.files ==> |f| > 0 && f[..|f| - 1] in s.dirs && f !in s.dirs)
  }

  /** `path.exists()`: true for directories and files alike. */
  predicate Exists(s: FsState, p: Path)
  {
    p in s.dirs || p in s.files
  }

  /** The names of the regular files directly inside `folder`, that is
      `[f.name for f in folder.iterdir() if f.is_file()]` as a set. */
  function FilesIn(s: FsState, folder: Path): set<string>
  {
    set p | p in s.files.Keys && |p| == |folder| + 1 && p[..|folder|] == folder :: p[|folder|]
  }

  lemma FilesInMember(s: FsState, folder: Path, name: string)
    ensures name in FilesIn(s, folder) <==> folder + [name] in s.files
  {
    var p := folder + [name];
    assert p[..|folder|] == folder && p[|folder|] == name;
    if name in FilesIn(s, folder) {
      var q :| q in s.files.Keys && |q| == |folder| + 1 && q[..|folder|] == folder && q[|folder|] == name;
      assert q == p;
    }
  }

  // ---------------------------------------------------------------------------
  // mkdir(parents=True, exist_ok=True)
  // ---------------------------------------------------------------------------

  /** The target and all its ancestors. */
  function Prefixes(p: Path): set<Path>
  {
    set k | 0 <= k <= |p| :: p[..k]
  }

  /** The strict ancestors of `p`. */
  function Ancestors(p: Path): set<Path>
  {
    set k | 0 <= k < |p| :: p[..k]
  }

  /** Some ancestor of `target`, or `target` itself, is a file: mkdir raises. */
  predicate Blocked(s: FsState, target: Path)
  {
    exists k :: 0 <= k <= |target| && target[..k] in s.files
  }

  /** The operating system's refusal to create the directory `depth`
      components deep on the way to a target (the target itself when `depth`
      is its length): permissions, a missing drive, a name the platform
      rejects. `reason` is the error's text. */
  datatype MkDirRefusal = RefuseAt(depth: nat, reason: string)

  /** The refusal applies: it names a prefix of the target that is missing,
      so pathlib's `os.mkdir` of that prefix runs and raises. */
  predicate Refuses(s: FsState, target: Path, refusal: Option<MkDirRefusal>)
  {
    refusal.Some? && refusal.value.depth <= |target| && target[..refusal.value.depth] !in s.dirs
  }

  /** `target.mkdir(parents=True, exist_ok=True)`: create every missing
      directory on the way to `target`; an existing directory is fine, a file
      in the way raises before anything is created. A refused missing prefix
      raises with that prefix's path. The state a failure leaves behind is
      `MkDirsState`. */
  function AfterMkDirs(s: FsState, target: Path, refusal: Option<MkDirRefusal>): Result<FsState, OsError>
  {
    if Blocked(s, target) then Err(NotCreated(target))
    else if Refuses(s, target, refusal) then Err(Refused(target[..refusal.value.depth], refusal.value.reason))
    else Ok(s.(dirs := s.dirs + Prefixes(target)))
  }

  /** The state mkdir leaves: the new tree on success; the old one when a
      file is in the way; and, when a prefix is refused, the old tree with
      the missing directories above that prefix, which pathlib created
      (walking up on `FileNotFoundError` and back down) before it reached the
      refused one. */
  function MkDirsState(s: FsState, target: Path, refusal: Option<MkDirRefusal>): FsState
  {
    match AfterMkDirs(s, target, refusal)
    case Ok(t) => t
    case Err(_) =>
      if Blocked(s, target) then s else s.(dirs := s.dirs + Ancestors(target[..refusal.value.depth]))
  }

  /** Whatever mkdir ends in, the tree stays well formed and no file changes;
      a file in the way changes nothing; a refused prefix leaves exactly the
      directories above it added, and neither it nor the target exists. */
  lemma MkDirsLeavesBehind(s: FsState, target: Path, refusal: Option<MkDirRefusal>)
    requires WellFormed(s)
    ensures var t := MkDirsState(s, target, refusal);
      && WellFormed(t) && t.files == s.files && s.dirs <= t.dirs
      && (AfterMkDirs(s, target, refusal).Ok? ==> t == AfterMkDirs(s, target, refusal).value)
      && (Blocked(s, target) ==> t == s)
      && (!Blocked(s, target) && Refuses(s, target, refusal) ==>
            var d := refusal.value.depth;
            && t.dirs == s.dirs + Ancestors(target[..d])
            && (forall k :: 0 <= k < d ==> target[..k] in t.dirs)
            && target[..d] !in t.dirs && target !in t.dirs)
  {
    MkDirsEffect(s, target, refusal);
    if !Blocked(s, target) && Refuses(s, target, refusal) {
      var t := MkDirsState(s, target, refusal);
      var d := refusal.value.depth;
      var top := target[..d];
      forall e, j | e in t.dirs && 0 <= j <= |e| ensures e[..j] in t.dirs {
        if e !in s.dirs {
          var k :| 0 <= k < d && e == top[..k];
          assert e[..j] == top[..j];
        }
      }
      forall k | 0 <= k < d ensures target[..k] in t.dirs && top[..k] !in s.files {
        assert target[..k] == top[..k];
      }
      assert top !in Ancestors(top);
      assert target !in s.dirs;
      assert target !in Ancestors(top);
    }
  }

  /** A successful mkdir leaves a well-formed tree in which the target is a
      directory, adds only the target and its ancestors and touches no file;
      a target that already exists is never refused. */
  lemma MkDirsEffect(s: FsState, target: Path, refusal: Option<MkDirRefusal>)
    requires WellFormed(s)
    ensures AfterMkDirs(s, target, refusal).Ok? <==> !Blocked(s, target) && !Refuses(s, target, refusal)
    ensures target in s.dirs ==> !Refuses(s, target, refusal)
    ensures Blocked(s, target) ==> AfterMkDirs(s, target, refusal) == Err(NotCreated(target))
    ensures !Blocked(s, target) && Refuses(s, target, refusal) ==>
      AfterMkDirs(s, target, refusal) == Err(Refused(target[..refusal.value.depth], refusal.value.reason))
    ensures AfterMkDirs(s, target, refusal).Ok? ==>
      var t := AfterMkDirs(s, target, refusal).value;
      && WellFormed(t) && target in t.dirs && t.files == s.files
      && s.dirs <= t.dirs && t.dirs - s.dirs <= Prefixes(target)
  {
    if AfterMkDirs(s, target, refusal).Ok? {
      var t := AfterMkDirs(s, target, refusal).value;
      assert target[..|target|] == target;
      forall d, j | d in t.dirs && 0 <= j <= |d| ensures d[..j] in t.dirs {
        if d !in s.dirs {
          var k :| 0 <= k <= |target| && d == target[..k];
          assert d[..j] == target[..j];
        }
      }
    }
  }

  /** exist_ok=True makes mkdir idempotent: once it has succeeded, running it
      again succeeds and changes nothing, whatever the system would refuse. */
  lemma MkDirsIdempotent(s: FsState, target: Path, refusal: Option<MkDirRefusal>, again: Option<MkDirRefusal>)
    requires AfterMkDirs(s, target, refusal).Ok?
    ensures AfterMkDirs(AfterMkDirs(s, target, refusal).value, target, again) == AfterMkDirs(s, target, refusal)
  {
    var t := AfterMkDirs(s, target, refusal).value;
    assert t.files == s.files;
    assert !Blocked(t, target);
    if again.Some? && again.value.depth <= |target| {
      assert target[..again.value.depth] in Prefixes(target);
    }
    assert t.dirs + Prefixes(target) == t.dirs;
  }

  // ---------------------------------------------------------------------------
  // open(path, "w") / open(path, "wb")
  // ---------------------------------------------------------------------------

  /** Whether opening `p` for writing raises, and with what; `refusal` is the
      operating system's own refusal (permissions, full disk), an input. */
  function OpenForWrite(s: FsState, p: Path, refusal: Option<string>): Option<OsError>
  {
    if p in s.dirs then Some(IsADirectory(p))
    else if |p| == 0 || p[..|p| - 1] !in s.dirs then Some(NotFound(p))
    else if refusal.Some? then Some(Refused(p, refusal.value))
    else None
  }

  /** Open `p` for writing and write `c`: the file is created or replaced. */
  function AfterWrite(s: FsState, p: Path, c: Contents, refusal: Option<string>): Result<FsState, OsError>
  {
    match OpenForWrite(s, p, refusal)
    case Some(e) => Err(e)
    case None => Ok(s.(files := s.files[p := c]))
  }

  /** A write either raises and changes nothing, or leaves a well-formed tree
      in which `p` holds exactly `c` and no other path changed. */
  lemma WriteEffect(s: FsState, p: Path, c: Contents, refusal: Option<string>)
    requires WellFormed(s)
    ensures AfterWrite(s, p, c, refusal).Ok? <==> OpenForWrite(s, p, refusal).None?
    ensures AfterWrite(s, p, c, refusal).Ok? ==>
      var t := AfterWrite(s, p, c, refusal).value;
      && WellFormed(t) && t.dirs == s.dirs && t.files == s.files[p := c]
  {
  }

  // ---------------------------------------------------------------------------
  // copy_file_to_path
  // ---------------------------------------------------------------------------

  /** `copy_file_to_path(src, dest)` as written: a missing source is skipped;
      otherwise the source is opened for reading, then the destination is
      opened with "wb" (which truncates it), then the source's bytes are read
      and written. When `dest` is `src` the truncation empties the very file
      about to be read, so the file ends up empty. */
  function AfterCopyAsWritten(s: FsState, src: Path, dest: Path, refusal: Option<string>): Result<FsState, OsError>
  {
    if !Exists(s, src) then Ok(s)
    else if src in s.dirs then Err(IsADirectory(src))
    else match OpenForWrite(s, dest, refusal)
      case Some(e) => Err(e)
      case None => Ok(s.(files := s.files[dest := if dest == src then Bytes([]) else s.files[src]]))
  }

  /** The copy as intended: the destination receives the source's contents,
      and copying a file onto itself leaves it as it was. */
  function AfterCopy(s: FsState, src: Path, dest: Path, refusal: Option<string>): Result<FsState, OsError>
  {
    if !Exists(s, src) then Ok(s)
    else if src in s.dirs then Err(IsADirectory(src))
    else match OpenForWrite(s, dest, refusal)
      case Some(e) => Err(e)
      case None => Ok(s.(files := s.files[dest := s.files[src]]))
  }

  /** Copying a file onto its own path, as written, either is refused by
      the system or succeeds and leaves the file empty, whatever it held. */
  lemma SelfCopyEmptiesFile(s: FsState, src: Path, refusal: Option<string>)
    requires WellFormed(s)
    requires src in s.files
    ensures refusal.Some? ==> AfterCopyAsWritten(s, src, src, refusal) == Err(Refused(src, refusal.value))
    ensures refusal.None? ==> AfterCopyAsWritten(s, src, src, refusal) == Ok(s.(files := s.files[src := Bytes([])]))
  {
  }

  /** On two different paths the copy as written is the intended copy. */
  lemma CopyAsWrittenAgrees(s: FsState, src: Path, dest: Path, refusal: Option<string>)
    requires dest != src
    ensures AfterCopyAsWritten(s, src, dest, refusal) == AfterCopy(s, src, dest, refusal)
  {
  }

  /** The intended copy: a missing source changes nothing; a directory source
      raises; otherwise either opening the destination raises, or the
      destination holds exactly the source's contents, the source keeps its
      own, and nothing else changed. */
  lemma CopyEffect(s: FsState, src: Path, dest: Path, refusal: Option<string>)
    requires WellFormed(s)
    ensures !Exists(s, src) ==> AfterCopy(s, src, dest, refusal) == Ok(s)
    ensures src in s.dirs ==> AfterCopy(s, src, dest, refusal) == Err(IsADirectory(src))
    ensures src in s.files ==>
      match AfterCopy(s, src, dest, refusal)
      case Err(e) => OpenForWrite(s, dest, refusal) == Some(e)
      case Ok(t) =>
        && OpenForWrite(s, dest, refusal).None?
        && WellFormed(t) && t.dirs == s.dirs
        && dest in t.files && t.files[dest] == s.files[src] && t.files[src] == s.files[src]
        && t.files.Keys == s.files.Keys + {dest}
        && (forall p :: p in s.files && p != dest ==> t.files[p] == s.files[p])
  {
  }

  /** The copy as written behaves like the intended one except on a copy onto
      itself, where the destination (which is the source) is left empty. */
  lemma CopyAsWrittenEffect(s: FsState, src: Path, dest: Path, refusal: Option<string>)
    requires WellFormed(s)
    ensures !Exists(s, src) ==> AfterCopyAsWritten(s, src, dest, refusal) == Ok(s)
    ensures src in s.dirs ==> AfterCopyAsWritten(s, src, dest, refusal) == Err(IsADirectory(src))
    ensures src in s.files ==>
      match AfterCopyAsWritten(s, src, dest, refusal)
      case Err(e) => OpenForWrite(s, dest, refusal) == Some(e)
      case Ok(t) =>
        && OpenForWrite(s, dest, refusal).None?
        && WellFormed(t) && t.dirs == s.dirs && dest in t.files
        && (dest != src ==> t.files[dest] == s.files[src])
        && (dest == src ==> t.files[dest] == Bytes([]))
        && t.files.Keys == s.files.Keys + {dest}
        && (forall p :: p in s.files && p != dest ==> t.files[p] == s.files[p])
  {
    if dest != src {
      CopyAsWrittenAgrees(s, src, dest, refusal);
      CopyEffect(s, src, dest, refusal);
    }
  }

  // ---------------------------------------------------------------------------
  // The live file system
  // ---------------------------------------------------------------------------

  /** The state after a step: the new state when it succeeded, the old one when it raised. */
  function StateAfter(s: FsState, r: Result<FsState, OsError>): FsState
  {
    if r.Ok? then r.value else s
  }

  /** The error a step raised, if any. */
  function RaisedBy(r: Result<FsState, OsError>): Option<OsError>
  {
    if r.Err? then Some(r.error) else None
  }

  class FileSystem {
    var dirs: set<Path>
    var files: map<Path, Contents>

    function State(): FsState
      reads this
    {
      FsState(dirs, files)
    }

    constructor (s: FsState)
      ensures State() == s
    {
      dirs := s.dirs;
      files := s.files;
    }

    /** `path.exists()`. */
    function PathExists(p: Path): bool
      reads this
    {
      Exists(State(), p)
    }

    /** The names of the regular files directly in `folder`. */
    function ListFiles(folder: Path): set<string>
      reads this
    {
      FilesIn(State(), folder)
    }

    /** `target.mkdir(parents=True, exist_ok=True)`. */
    method MkDirs(target: Path, refusal: Option<MkDirRefusal>) returns (err: Option<OsError>)
      modifies this
      ensures State() == MkDirsState(old(State()), target, refusal)
      ensures err == RaisedBy(AfterMkDirs(old(State()), target, refusal))
    {
      if Blocked(State(), target) {
        err := Some(NotCreated(target));
      } else if Refuses(State(), target, refusal) {
        var refused := target[..refusal.value.depth];
        dirs := dirs + Ancestors(refused);
        err := Some(Refused(refused, refusal.value.reason));
      } else {
        dirs := dirs + Prefixes(target);
        err := None;
      }
    }

    /** Open `p` for writing and write `c`. */
    method WriteFile(p: Path, c: Contents, refusal: Option<string>) returns (err: Option<OsError>)
      modifies this
      ensures State() == StateAfter(old(State()), AfterWrite(old(State()), p, c, refusal))
      ensures err == RaisedBy(AfterWrite(old(State()), p, c, refusal))
    {
      err := OpenForWrite(State(), p, refusal);
      if err.None? {
        files := files[p := c];
      }
    }

    /** `copy_file_to_path(src, dest)` as written: a missing source is
        skipped, and the destination is truncated before the source is read. */
    method CopyFile(src: Path, dest: Path, refusal: Option<string>) returns (err: Option<OsError>)
      modifies this
      ensures State() == StateAfter(old(State()), AfterCopyAsWritten(old(State()), src, dest, refusal))
      ensures err == RaisedBy(AfterCopyAsWritten(old(State()), src, dest, refusal))
    {
      if !PathExists(src) {
        err := None;
      } else if src in dirs {
        err := Some(IsADirectory(src));
      } else {
        err := OpenForWrite(State(), dest, refusal);
        if err.None? {
          var data := if dest == src then Bytes([]) else files[src];
          files := files[dest := data];
        }
      }
    }
  }
}
