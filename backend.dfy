/**
 * The local record keeping of `log_job_applied_for` in the desktop tool's
 * backend: the company folder, the indexed file name, the five-field JSON
 * record, the caught write error and the non-fatal resume copy.
 */
module Backend {
  import opened Wrappers
  import opened Strings
  import opened FileSys

  // ---------------------------------------------------------------------------
  // Name normalisation: name.replace(" ", "_").lower()
  // ---------------------------------------------------------------------------

  /** What normalisation does to one character. */
  function NormChar(c: char): char
  {
    if c == ' ' then '_' else LowerChar(c)
  }

  /** `name.replace(" ", "_").lower()`. */
  function Normalise(name: string): string
  {
    Lower(Replace(name, " ", "_"))
  }

  /** Normalisation works character by character: same length, every space
      becomes an underscore, every ASCII capital its small letter; so the
      result holds no space. */
  lemma NormaliseChars(name: string)
    ensures |Normalise(name)| == |name|
    ensures forall i :: 0 <= i < |name| ==> Normalise(name)[i] == NormChar(name[i])
    ensures ' ' !in Normalise(name)
  {
    ReplaceOneChar(name, ' ', '_');
  }

  /** A normalised name is its own normal form. */
  lemma NormaliseIdempotent(name: string)
    ensures Normalise(Normalise(name)) == Normalise(name)
  {
    NormaliseChars(name);
    NormaliseChars(Normalise(name));
  }

  /** Normalisation distributes over concatenation. */
  lemma NormaliseConcat(a: string, b: string)
    ensures Normalise(a + b) == Normalise(a) + Normalise(b)
  {
    NormaliseChars(a);
    NormaliseChars(b);
    NormaliseChars(a + b);
  }

  // ---------------------------------------------------------------------------
  // create_folder_structure
  // ---------------------------------------------------------------------------

  /** `Path(job_root_path) / company_name.replace(" ", "_").lower()`: joining
      the empty name onto a path gives that path back. */
  function CompanyFolder(root: Path, company: string): Path
  {
    var name := Normalise(company);
    if name == "" then root else root + [name]
  }

  /** `create_folder_structure(company_name, job_root_path)`: normalise the
      company name, make the folder (and its ancestors) and return its path.
      `refusal` is the operating system's refusal to create one of the
      missing directories on the way. */
  method CreateFolderStructure(fs: FileSystem, company: string, root: Path, refusal: Option<MkDirRefusal>)
    returns (folder: Path, err: Option<OsError>)
    modifies fs
    ensures folder == CompanyFolder(root, company)
    ensures fs.State() == MkDirsState(old(fs.State()), folder, refusal)
    ensures err == RaisedBy(AfterMkDirs(old(fs.State()), folder, refusal))
  {
    var name := Normalise(company);
    folder := root;
    if name != "" {
      folder := root + [name];
    }
    err := fs.MkDirs(folder, refusal);
  }

  /** A non-empty company name gives a folder directly under the root whose
      name carries no space; the empty name gives the root itself. */
  lemma FolderPlacement(root: Path, company: string)
    ensures company == "" ==> CompanyFolder(root, company) == root
    ensures company != "" ==>
      && |CompanyFolder(root, company)| == |root| + 1
      && CompanyFolder(root, company)[..|root|] == root
      && |BaseName(CompanyFolder(root, company))| == |company|
      && ' ' !in BaseName(CompanyFolder(root, company))
  {
    NormaliseChars(company);
    if company != "" {
      assert |Normalise(company)| > 0;
    }
  }

  /** Unless a file stands in the way, folder creation ends in one of two
      ways: the system refuses a missing directory on the way, and the step
      raises `Refused` with that directory's path, leaving what `MkDirsState`
      says; or the folder exists afterwards, nothing else changed but the
      folder's missing ancestors, and creating it again (refused or not)
      changes nothing. An existing folder is never refused. */
  lemma FolderCreated(s: FsState, root: Path, company: string, refusal: Option<MkDirRefusal>)
    requires WellFormed(s)
    requires !Blocked(s, CompanyFolder(root, company))
    ensures var folder := CompanyFolder(root, company);
      Refuses(s, folder, refusal) ==>
        && AfterMkDirs(s, folder, refusal) == Err(Refused(folder[..refusal.value.depth], refusal.value.reason))
        && MkDirsState(s, folder, refusal).dirs == s.dirs + Ancestors(folder[..refusal.value.depth])
    ensures var folder := CompanyFolder(root, company);
      folder in s.dirs ==> !Refuses(s, folder, refusal)
    ensures var folder := CompanyFolder(root, company);
      var t := AfterMkDirs(s, folder, refusal);
      !Refuses(s, folder, refusal) ==>
        && t.Ok? && WellFormed(t.value)
        && folder in t.value.dirs
        && t.value.files == s.files
        && t.value.dirs - s.dirs <= Prefixes(folder)
        && (forall again :: AfterMkDirs(t.value, folder, again) == t)
  {
    var folder := CompanyFolder(root, company);
    MkDirsEffect(s, folder, refusal);
    MkDirsLeavesBehind(s, folder, refusal);
    if !Refuses(s, folder, refusal) {
      forall again ensures AfterMkDirs(AfterMkDirs(s, folder, refusal).value, folder, again) == AfterMkDirs(s, folder, refusal) {
        MkDirsIdempotent(s, folder, refusal, again);
      }
    }
  }

  // ---------------------------------------------------------------------------
  // The file name: {stem}_{index:03d}_job_description.json
  // ---------------------------------------------------------------------------

  const JsonSuffix := "_job_description.json"

  /** `f"{company_name}_{position}".replace(" ", "_").lower()`. */
  function FileStem(company: string, position: string): string
  {
    Normalise(company + "_" + position)
  }

  /** `f"{index:03d}"`. */
  function Index03(index: nat): string
  {
    ZeroPad(NatStr(index), 3)
  }

  function IndexedName(stem: string, index: nat): string
  {
    stem + "_" + Index03(index) + JsonSuffix
  }

  /** The files the collision scan counts: those whose name starts with `prefix`. */
  function PrefixMatches(names: set<string>, prefix: string): set<string>
  {
    set n | n in names && StartsWith(n, prefix)
  }

  /** The name picked for a new record: the 001 name if nothing of that name
      exists in the folder, otherwise the index one past the number of files
      that start with `stem + "_"`. */
  function ChooseName(stem: string, firstExists: bool, files: set<string>): string
  {
    if firstExists then IndexedName(stem, 1 + |PrefixMatches(files, stem + "_")|)
    else IndexedName(stem, 1)
  }

  /** The file stem is the folder name, an underscore and the normalised position. */
  lemma StemStartsWithFolder(company: string, position: string)
    ensures FileStem(company, position) == Normalise(company) + "_" + Normalise(position)
    ensures ' ' !in FileStem(company, position)
  {
    NormaliseConcat(company + "_", position);
    NormaliseConcat(company, "_");
    NormaliseChars("_");
    NormaliseChars(company + "_" + position);
  }

  /** Indices below 1000 render as exactly three digits, zero padded, and
      every index renders as digits that read back as the index. */
  lemma Index03Digits(index: nat)
    ensures IsDigits(Index03(index)) && DigitsValue(Index03(index)) == index
    ensures |Index03(index)| >= 3
    ensures index < 1000 ==> |Index03(index)| == 3
  {
    ZeroPadValue(index, 3);
    NatStrLength(index);
  }

  /** Different indices give different file names. */
  lemma IndexedNameInjective(stem: string, i: nat, j: nat)
    requires IndexedName(stem, i) == IndexedName(stem, j)
    ensures i == j
  {
    var a, b := IndexedName(stem, i), IndexedName(stem, j);
    var n := |stem| + 1;
    Index03Digits(i);
    Index03Digits(j);
    assert |Index03(i)| == |Index03(j)|;
    assert a[n..n + |Index03(i)|] == Index03(i);
    assert b[n..n + |Index03(j)|] == Index03(j);
    ZeroPadInjective(i, j, 3);
  }

  /** Every indexed name is counted by the scan for its own stem. */
  lemma IndexedNameHasStem(stem: string, index: nat)
    ensures StartsWith(IndexedName(stem, index), stem + "_")
  {
    var name := IndexedName(stem, index);
    assert name == (stem + "_") + (Index03(index) + JsonSuffix);
    assert name[..|stem + "_"|] == stem + "_";
  }

  /** When the 001 name is already a file, the scan counts that file too, so
      the new index is at least 2 and the new name differs from the 001 name. */
  lemma CollisionSkipsFirst(stem: string, files: set<string>)
    requires IndexedName(stem, 1) in files
    ensures exists k :: k >= 2 && ChooseName(stem, true, files) == IndexedName(stem, k)
    ensures ChooseName(stem, true, files) != IndexedName(stem, 1)
  {
    IndexedNameHasStem(stem, 1);
    var matches := PrefixMatches(files, stem + "_");
    assert IndexedName(stem, 1) in matches;
    var k := 1 + |matches|;
    assert k >= 2;
    if IndexedName(stem, k) == IndexedName(stem, 1) {
      IndexedNameInjective(stem, k, 1);
    }
  }

  /** The loop of `log_job_applied_for` that counts prefix matches, starting
      from 1. The files are visited in whatever order the directory listing
      yields; the index does not depend on it. */
  method NewFileIndex(files: set<string>, prefix: string) returns (index: nat)
    ensures index == 1 + |PrefixMatches(files, prefix)|
  {
    index := 1;
    var rest := files;
    while rest != {}
      invariant rest <= files
      invariant index == 1 + |PrefixMatches(files - rest, prefix)|
      decreases |rest|
    {
      var f :| f in rest;
      var seen := files - rest;
      assert f !in seen;
      if StartsWith(f, prefix) {
        assert PrefixMatches(seen + {f}, prefix) == PrefixMatches(seen, prefix) + {f};
        index := index + 1;
      } else {
        assert PrefixMatches(seen + {f}, prefix) == PrefixMatches(seen, prefix);
      }
      assert files - (rest - {f}) == seen + {f};
      rest := rest - {f};
    }
    assert files - rest == files;
  }

  // ---------------------------------------------------------------------------
  // Successive saves
  // ---------------------------------------------------------------------------

  /** The names the scheme hands out for the indices 1..k. */
  function Block(stem: string, k: nat): set<string>
  {
    set i | 1 <= i <= k :: IndexedName(stem, i)
  }

  lemma {:induction false} BlockSize(stem: string, k: nat)
    ensures |Block(stem, k)| == k
  {
    if k > 0 {
      BlockSize(stem, k - 1);
      BlockStep(stem, k - 1);
    } else {
      assert Block(stem, 0) == {};
    }
  }

  /** The block for k + 1 is the block for k and one name it does not hold. */
  lemma BlockStep(stem: string, k: nat)
    ensures Block(stem, k + 1) == Block(stem, k) + {IndexedName(stem, k + 1)}
    ensures IndexedName(stem, k + 1) !in Block(stem, k)
  {
    if IndexedName(stem, k + 1) in Block(stem, k) {
      var i :| 1 <= i <= k && IndexedName(stem, i) == IndexedName(stem, k + 1);
      IndexedNameInjective(stem, i, k + 1);
    }
  }

  /** In a folder whose files counted for `stem` are exactly those of indices
      1..k, the next save picks index k + 1, a name not yet present, and the
      counted files become those of indices 1..k + 1. */
  lemma NextAfterBlock(stem: string, files: set<string>, k: nat)
    requires PrefixMatches(files, stem + "_") == Block(stem, k)
    ensures ChooseName(stem, IndexedName(stem, 1) in files, files) == IndexedName(stem, k + 1)
    ensures IndexedName(stem, k + 1) !in files
    ensures PrefixMatches(files + {IndexedName(stem, k + 1)}, stem + "_") == Block(stem, k + 1)
  {
    var p := stem + "_";
    IndexedNameHasStem(stem, 1);
    IndexedNameHasStem(stem, k + 1);
    if k == 0 {
      assert IndexedName(stem, 1) !in PrefixMatches(files, p);
    } else {
      assert IndexedName(stem, 1) in Block(stem, k);
      BlockSize(stem, k);
    }
    BlockStep(stem, k);
    assert PrefixMatches(files + {IndexedName(stem, k + 1)}, p) == PrefixMatches(files, p) + {IndexedName(stem, k + 1)};
  }

  /** The names chosen by `n` successive saves for one stem into a folder
      holding `files` (and no sub-directory), nothing being deleted between them. */
  function Saves(stem: string, files: set<string>, n: nat): seq<string>
    decreases n
  {
    if n == 0 then []
    else
      var name := ChooseName(stem, IndexedName(stem, 1) in files, files);
      [name] + Saves(stem, files + {name}, n - 1)
  }

  /** Starting from a folder whose files for this stem are exactly indices
      1..k (k = 0: a fresh folder), successive saves name the indices k+1,
      k+2, ... in order: every name is new and all of them are distinct. */
  lemma {:induction false} SequentialSaves(stem: string, files: set<string>, k: nat, n: nat)
    requires PrefixMatches(files, stem + "_") == Block(stem, k)
    ensures |Saves(stem, files, n)| == n
    ensures forall i :: 0 <= i < n ==> Saves(stem, files, n)[i] == IndexedName(stem, k + i + 1)
    ensures forall i :: 0 <= i < n ==> Saves(stem, files, n)[i] !in files
    ensures forall i, j :: 0 <= i < j < n ==> Saves(stem, files, n)[i] != Saves(stem, files, n)[j]
    decreases n
  {
    if n > 0 {
      var name := IndexedName(stem, k + 1);
      NextAfterBlock(stem, files, k);
      SequentialSaves(stem, files + {name}, k + 1, n - 1);
      assert Saves(stem, files, n) == [name] + Saves(stem, files + {name}, n - 1);
    }
  }

  /** While the index stays below 1000 every saved name has the same length:
      the stem, the underscore, three digits and the suffix. */
  lemma SavesWidth(stem: string, files: set<string>, k: nat, n: nat)
    requires PrefixMatches(files, stem + "_") == Block(stem, k)
    requires k + n < 1000
    ensures |Saves(stem, files, n)| == n
    ensures forall i :: 0 <= i < n ==> |Saves(stem, files, n)[i]| == |stem| + 4 + |JsonSuffix|
  {
    SequentialSaves(stem, files, k, n);
    forall i | 0 <= i < n ensures |Saves(stem, files, n)[i]| == |stem| + 4 + |JsonSuffix| {
      Index03Digits(k + i + 1);
    }
  }

  /** The scheme infers the next index from a count, so after a deletion it
      can pick a name that is still present: with 001 and 003 left (002
      deleted), it picks 003 again and the save overwrites that record. */
  lemma CollisionAfterDeletion(stem: string)
    ensures var files := {IndexedName(stem, 1), IndexedName(stem, 3)};
      ChooseName(stem, true, files) == IndexedName(stem, 3) && IndexedName(stem, 3) in files
  {
    var a, c := IndexedName(stem, 1), IndexedName(stem, 3);
    var files := {a, c};
    IndexedNameHasStem(stem, 1);
    IndexedNameHasStem(stem, 3);
    if a == c {
      IndexedNameInjective(stem, 1, 3);
    }
    assert PrefixMatches(files, stem + "_") == files;
    assert |files| == 2;
    assert ChooseName(stem, true, files) == IndexedName(stem, 1 + 2);
  }

  // ---------------------------------------------------------------------------
  // The record written by write_json_file
  // ---------------------------------------------------------------------------

  const RecordKeys := ["job_description", "position_name", "company_name", "date_applied", "resume_used_path"]

  /** The `job_data` dictionary, in insertion order. */
  function BuildRecord(position: string, company: string, description: string, dateApplied: string, resumeUsed: string): JsonObject
  {
    [ ("job_description", description),
      ("position_name", position),
      ("company_name", company),
      ("date_applied", dateApplied),
      ("resume_used_path", resumeUsed) ]
  }

  /** The keys of a JSON object, in order. */
  function Keys(o: JsonObject): seq<string>
  {
    seq(|o|, i requires 0 <= i < |o| => o[i].0)
  }

  /** `o.get(key)`. */
  function Lookup(o: JsonObject, key: string): Option<string>
  {
    if o == [] then None
    else if o[0].0 == key then Some(o[0].1)
    else Lookup(o[1..], key)
  }

  /** The fields of a job record as read back from its file. */
  datatype JobEntry = JobEntry(description: string, position: string, company: string, dateApplied: string, resumeUsed: string)

  /** Read a saved record back: all five keys must be present. */
  function ReadRecord(o: JsonObject): Option<JobEntry>
  {
    match (Lookup(o, "job_description"), Lookup(o, "position_name"), Lookup(o, "company_name"),
           Lookup(o, "date_applied"), Lookup(o, "resume_used_path"))
    case (Some(d), Some(p), Some(c), Some(t), Some(r)) => Some(JobEntry(d, p, c, t, r))
    case _ => None
  }

  /** The record has exactly the five keys, in order, and reading it back
      gives the raw (not normalised) company and position, the description,
      the timestamp and the resume path as given. */
  lemma RecordShape(position: string, company: string, description: string, dateApplied: string, resumeUsed: string)
    ensures Keys(BuildRecord(position, company, description, dateApplied, resumeUsed)) == RecordKeys
    ensures ReadRecord(BuildRecord(position, company, description, dateApplied, resumeUsed))
      == Some(JobEntry(description, position, company, dateApplied, resumeUsed))
  {
    var o := BuildRecord(position, company, description, dateApplied, resumeUsed);
    assert Keys(o) == RecordKeys;
    // the tails the lookups walk through
    var o1 := o[1..];
    var o2 := o1[1..];
    var o3 := o2[1..];
    var o4 := o3[1..];
    assert o4 == [("resume_used_path", resumeUsed)];
    assert "company_name" != "date_applied" by { assert "company_name"[0] != "date_applied"[0]; }
    assert Lookup(o, "job_description") == Some(description);
    assert Lookup(o, "position_name") == Lookup(o1, "position_name") == Some(position);
    assert Lookup(o, "company_name") == Lookup(o1, "company_name") == Lookup(o2, "company_name") == Some(company);
    assert Lookup(o, "date_applied") == Lookup(o1, "date_applied") == Lookup(o2, "date_applied")
        == Lookup(o3, "date_applied") == Some(dateApplied);
    assert Lookup(o, "resume_used_path") == Lookup(o1, "resume_used_path") == Lookup(o2, "resume_used_path")
        == Lookup(o3, "resume_used_path") == Lookup(o4, "resume_used_path") == Some(resumeUsed);
  }

  // ---------------------------------------------------------------------------
  // log_job_applied_for
  // ---------------------------------------------------------------------------

  /** What the routine cannot see: the clock's reading, and whether the
      operating system refuses to create the company folder, to open the
      JSON file or to open the resume's destination. */
  datatype Env = Env(timestamp: string, mkdirRefusal: Option<MkDirRefusal>, writeRefusal: Option<string>,
                     copyRefusal: Option<string>)

  /** The routine returns a status message or lets an exception escape. */
  datatype Outcome = Returned(message: string) | Raised(error: OsError)

  /** The text of an exception, approximating CPython's wording for each
      error: the errno prefix and the platform's own phrasing (the tool's
      default root is a Windows path) are not modelled. */
  function Describe(e: OsError): string
  {
    match e
    case NotCreated(p) => "File exists: '" + Render(p) + "'"
    case IsADirectory(p) => "Is a directory: '" + Render(p) + "'"
    case NotFound(p) => "No such file or directory: '" + Render(p) + "'"
    case Refused(_, reason) => reason
  }

  function SavedMessage(name: string, folder: Path): string
  {
    "Job description saved!\nFile: " + name + "\nPath: " + Render(folder)
  }

  function FailedMessage(e: OsError): string
  {
    "Failed to save job description file.\nError: " + Describe(e)
  }

  /** The name chosen in `folder`: probe for the 001 name, and count on a hit. */
  function NameInFolder(s: FsState, folder: Path, stem: string): string
  {
    ChooseName(stem, Exists(s, folder + [IndexedName(stem, 1)]), FilesIn(s, folder))
  }

  /** Where the work stands once the record is saved or its save has
      failed, before the resume copy: the state, the chosen name and the
      status message. */
  datatype Saved = Saved(state: FsState, name: string, message: string)

  /** Folder creation, naming, and write_json_file inside its try/except. */
  function SavePhase(s: FsState, root: Path, company: string, position: string, description: string,
                     resumeUsed: string, env: Env): Result<Saved, OsError>
  {
    var folder := CompanyFolder(root, company);
    match AfterMkDirs(s, folder, env.mkdirRefusal)
    case Err(e) => Err(e)
    case Ok(s1) =>
      var name := NameInFolder(s1, folder, FileStem(company, position));
      var record := BuildRecord(position, company, description, env.timestamp, resumeUsed);
      match AfterWrite(s1, folder + [name], Json(record), env.writeRefusal)
      case Ok(s2) => Ok(Saved(s2, name, SavedMessage(name, folder)))
      case Err(e) => Ok(Saved(s1, name, FailedMessage(e)))
  }

  /** `Path(path_structure) / Path(resume_used_path).name`; a path with no
      name (the empty one) leaves the folder itself. */
  function ResumeDestination(folder: Path, resumeSource: Path): Path
  {
    if BaseName(resumeSource) == "" then folder else folder + [BaseName(resumeSource)]
  }

  /** The whole routine on a file-system value: the new state and the outcome. */
  function LogJob(s: FsState, root: Path, company: string, position: string, description: string,
                  resumeUsed: string, resumeSource: Path, env: Env): (FsState, Outcome)
  {
    match SavePhase(s, root, company, position, description, resumeUsed, env)
    case Err(e) => (MkDirsState(s, CompanyFolder(root, company), env.mkdirRefusal), Raised(e))
    case Ok(saved) => CopyPhase(saved, resumeSource, ResumeDestination(CompanyFolder(root, company), resumeSource), env.copyRefusal)
  }

  /** The resume copy after the save, with `copy_file_to_path` as written:
      its error is not caught. */
  function CopyPhase(saved: Saved, resumeSource: Path, dest: Path, refusal: Option<string>): (FsState, Outcome)
  {
    match AfterCopyAsWritten(saved.state, resumeSource, dest, refusal)
    case Err(e) => (saved.state, Raised(e))
    case Ok(s3) => (s3, Returned(saved.message))
  }

  /** `log_job_applied_for(company_name, position, job_description, resume_used_path)`
      on the live file system. `resumeSource` is `Path(resume_used_path)`. */
  method LogJobAppliedFor(fs: FileSystem, root: Path, company: string, position: string, description: string,
                          resumeUsed: string, resumeSource: Path, env: Env) returns (outcome: Outcome)
    modifies fs
    ensures (fs.State(), outcome) == LogJob(old(fs.State()), root, company, position, description, resumeUsed, resumeSource, env)
  {
    var folder, mkdirErr := CreateFolderStructure(fs, company, root, env.mkdirRefusal);
    if mkdirErr.Some? {
      outcome := Raised(mkdirErr.value);
      return;
    }
    ghost var s1 := fs.State();

    var stem := FileStem(company, position);
    var name := IndexedName(stem, 1);
    if fs.PathExists(folder + [name]) {
      var index := NewFileIndex(fs.ListFiles(folder), stem + "_");
      name := IndexedName(stem, index);
    }
    assert name == NameInFolder(s1, folder, stem);

    var record := BuildRecord(position, company, description, env.timestamp, resumeUsed);
    var writeErr := fs.WriteFile(folder + [name], Json(record), env.writeRefusal);
    var message := if writeErr.None? then SavedMessage(name, folder) else FailedMessage(writeErr.value);
    ghost var saved := Saved(fs.State(), name, message);
    assert SavePhase(old(fs.State()), root, company, position, description, resumeUsed, env) == Ok(saved);

    var copyErr := fs.CopyFile(resumeSource, ResumeDestination(folder, resumeSource), env.copyRefusal);
    if copyErr.Some? {
      outcome := Raised(copyErr.value);
    } else {
      outcome := Returned(message);
    }
    assert (fs.State(), outcome) == CopyPhase(saved, resumeSource, ResumeDestination(folder, resumeSource), env.copyRefusal);
  }

  // ---------------------------------------------------------------------------
  // What log_job_applied_for guarantees
  // ---------------------------------------------------------------------------

  /** Creating the company folder does not change what the naming step sees. */
  lemma NamingIgnoresMkDirs(s: FsState, folder: Path, stem: string, refusal: Option<MkDirRefusal>)
    requires AfterMkDirs(s, folder, refusal).Ok?
    ensures NameInFolder(AfterMkDirs(s, folder, refusal).value, folder, stem) == NameInFolder(s, folder, stem)
  {
    var t := AfterMkDirs(s, folder, refusal).value;
    var p := folder + [IndexedName(stem, 1)];
    forall k | 0 <= k <= |folder| ensures folder[..k] != p {
      assert |folder[..k]| == k < |p|;
    }
    assert p !in Prefixes(folder);
  }

  /** With no directory of that name in the way, the 001 name is chosen
      exactly when no file of that name is in the folder. */
  lemma FirstNameIffFree(s: FsState, folder: Path, stem: string)
    requires folder + [IndexedName(stem, 1)] !in s.dirs
    ensures NameInFolder(s, folder, stem) == IndexedName(stem, 1) <==> folder + [IndexedName(stem, 1)] !in s.files
  {
    var first := IndexedName(stem, 1);
    FilesInMember(s, folder, first);
    if folder + [first] in s.files {
      CollisionSkipsFirst(stem, FilesIn(s, folder));
    }
  }

  /** A directory carrying the 001 name counts as existing for the probe but
      not as a file for the scan: with no counted file the scan picks 001
      again, and opening that name for writing raises. */
  lemma DirectoryHidesCollision(s: FsState, folder: Path, stem: string)
    requires folder + [IndexedName(stem, 1)] in s.dirs
    requires PrefixMatches(FilesIn(s, folder), stem + "_") == {}
    ensures NameInFolder(s, folder, stem) == IndexedName(stem, 1)
    ensures forall refusal ::
      OpenForWrite(s, folder + [NameInFolder(s, folder, stem)], refusal) == Some(IsADirectory(folder + [IndexedName(stem, 1)]))
  {
  }

  /** The save phase raises exactly when the company folder cannot be
      created: a file stands in its way, or the operating system refuses one
      of the missing directories on the way, whose path the error carries. */
  lemma SavePhaseRaises(s: FsState, root: Path, company: string, position: string, description: string,
                        resumeUsed: string, env: Env)
    ensures var r := SavePhase(s, root, company, position, description, resumeUsed, env);
      var folder := CompanyFolder(root, company);
      && (r.Err? <==> Blocked(s, folder) || Refuses(s, folder, env.mkdirRefusal))
      && (Blocked(s, folder) ==> r == Err(NotCreated(folder)))
      && (!Blocked(s, folder) && Refuses(s, folder, env.mkdirRefusal) ==>
            r == Err(Refused(folder[..env.mkdirRefusal.value.depth], env.mkdirRefusal.value.reason)))
  {
  }

  /** When the system refuses a missing directory on the way to the company
      folder, the routine raises with that directory's path; no file
      changes, neither that directory nor the folder is there, and exactly
      the missing directories above it were created. The root exists
      afterwards exactly when the refused directory lies below it. */
  lemma RefusedFolderKeepsAncestors(s: FsState, root: Path, company: string, position: string, description: string,
                                    resumeUsed: string, resumeSource: Path, env: Env)
    requires WellFormed(s)
    requires !Blocked(s, CompanyFolder(root, company)) && Refuses(s, CompanyFolder(root, company), env.mkdirRefusal)
    ensures var r := LogJob(s, root, company, position, description, resumeUsed, resumeSource, env);
      var folder := CompanyFolder(root, company);
      var d := env.mkdirRefusal.value.depth;
      && r.1 == Raised(Refused(folder[..d], env.mkdirRefusal.value.reason))
      && WellFormed(r.0) && r.0.files == s.files
      && r.0.dirs == s.dirs + Ancestors(folder[..d])
      && folder[..d] !in r.0.dirs && folder !in r.0.dirs
      && (root in r.0.dirs <==> |root| < d)
  {
    var folder := CompanyFolder(root, company);
    var d := env.mkdirRefusal.value.depth;
    var top := folder[..d];
    MkDirsLeavesBehind(s, folder, env.mkdirRefusal);
    FolderPlacement(root, company);
    assert folder[..|root|] == root;
    if |root| < d {
      assert root == top[..|root|];
    } else {
      assert root[..d] == top;
    }
  }

  /** Otherwise the folder exists, the name is the one the naming rule picks
      from the folder as it was, and the try/except decides the rest: when
      opening the file succeeds the record is written under that name,
      holding the raw inputs, and the message names file and folder; when it
      raises, no file changes and the message is the failure message
      carrying the error instead of a raise. */
  lemma SavePhaseEffect(s: FsState, root: Path, company: string, position: string, description: string,
                        resumeUsed: string, env: Env)
    requires WellFormed(s)
    requires AfterMkDirs(s, CompanyFolder(root, company), env.mkdirRefusal).Ok?
    ensures var folder := CompanyFolder(root, company);
      var name := NameInFolder(s, folder, FileStem(company, position));
      var path := folder + [name];
      var record := BuildRecord(position, company, description, env.timestamp, resumeUsed);
      var withFolder := FsState(s.dirs + Prefixes(folder), s.files);
      var r := SavePhase(s, root, company, position, description, resumeUsed, env);
      && r.Ok? && r.value.name == name
      && WellFormed(r.value.state) && folder in r.value.state.dirs
      && r.value.state.dirs == withFolder.dirs
      && match OpenForWrite(withFolder, path, env.writeRefusal)
         case None => r.value.state.files == s.files[path := Json(record)] && r.value.message == SavedMessage(name, folder)
         case Some(e) => r.value.state.files == s.files && r.value.message == FailedMessage(e)
  {
    var folder := CompanyFolder(root, company);
    MkDirsEffect(s, folder, env.mkdirRefusal);
    var s1 := AfterMkDirs(s, folder, env.mkdirRefusal).value;
    var name := NameInFolder(s, folder, FileStem(company, position));
    NamingIgnoresMkDirs(s, folder, FileStem(company, position), env.mkdirRefusal);
    var record := BuildRecord(position, company, description, env.timestamp, resumeUsed);
    WriteEffect(s1, folder + [name], Json(record), env.writeRefusal);
  }

  /** The two status messages can be told apart. */
  lemma MessagesDiffer(name: string, folder: Path, e: OsError)
    ensures SavedMessage(name, folder) != FailedMessage(e)
  {
    var saved, failed := "Job description saved!\nFile: ", "Failed to save job description file.\nError: ";
    assert SavedMessage(name, folder)[0] == saved[0] == 'J';
    assert FailedMessage(e)[0] == failed[0] == 'F';
  }

  /** For a company whose folder does not exist yet, the save phase raises
      when the system refuses a directory on the way; otherwise the first
      record is named with index 001 and, unless the system refuses the
      write, holds the raw inputs. */
  lemma FreshFolderGets001(s: FsState, root: Path, company: string, position: string, description: string,
                           resumeUsed: string, env: Env)
    requires WellFormed(s)
    requires !Blocked(s, CompanyFolder(root, company)) && CompanyFolder(root, company) !in s.dirs
    ensures Refuses(s, CompanyFolder(root, company), env.mkdirRefusal) ==>
      var d := env.mkdirRefusal.value.depth;
      SavePhase(s, root, company, position, description, resumeUsed, env)
      == Err(Refused(CompanyFolder(root, company)[..d], env.mkdirRefusal.value.reason))
    ensures var r := SavePhase(s, root, company, position, description, resumeUsed, env);
      var folder := CompanyFolder(root, company);
      var first := IndexedName(FileStem(company, position), 1);
      !Refuses(s, folder, env.mkdirRefusal) ==>
      && r.Ok? && r.value.name == first
      && (env.writeRefusal.None? ==>
            && r.value.message == SavedMessage(first, folder)
            && folder + [first] in r.value.state.files
            && r.value.state.files[folder + [first]]
               == Json(BuildRecord(position, company, description, env.timestamp, resumeUsed)))
  {
    var folder := CompanyFolder(root, company);
    var stem := FileStem(company, position);
    var first := IndexedName(stem, 1);
    var p := folder + [first];
    assert p[..|p| - 1] == folder;
    assert !Exists(s, p);
    assert NameInFolder(s, folder, stem) == first;
    if !Refuses(s, folder, env.mkdirRefusal) {
      SavePhaseEffect(s, root, company, position, description, resumeUsed, env);
      var withFolder := FsState(s.dirs + Prefixes(folder), s.files);
      assert p !in withFolder.dirs;
      assert folder in withFolder.dirs by { assert folder == folder[..|folder|]; }
    }
  }

  /** When the files of the folder that the scan counts are exactly those of
      indices 1..k, and no directory carries the 001 name, the save picks
      index k + 1, a name no file in the folder has: nothing is overwritten. */
  lemma SaveTakesNextIndex(s: FsState, root: Path, company: string, position: string, description: string,
                           resumeUsed: string, env: Env, k: nat)
    requires WellFormed(s)
    requires AfterMkDirs(s, CompanyFolder(root, company), env.mkdirRefusal).Ok?
    requires var stem := FileStem(company, position);
      PrefixMatches(FilesIn(s, CompanyFolder(root, company)), stem + "_") == Block(stem, k)
    requires CompanyFolder(root, company) + [IndexedName(FileStem(company, position), 1)] !in s.dirs
    ensures var r := SavePhase(s, root, company, position, description, resumeUsed, env);
      var next := IndexedName(FileStem(company, position), k + 1);
      && r.Ok? && r.value.name == next
      && CompanyFolder(root, company) + [next] !in s.files
  {
    var folder := CompanyFolder(root, company);
    var stem := FileStem(company, position);
    var files := FilesIn(s, folder);
    NextAfterBlock(stem, files, k);
    FilesInMember(s, folder, IndexedName(stem, 1));
    FilesInMember(s, folder, IndexedName(stem, k + 1));
    assert Exists(s, folder + [IndexedName(stem, 1)]) == (IndexedName(stem, 1) in files);
    SavePhaseRaises(s, root, company, position, description, resumeUsed, env);
    SavePhaseEffect(s, root, company, position, description, resumeUsed, env);
  }

  /** The resume copy after the save: a missing resume changes nothing and
      raises nothing, so the status message of the save is returned; a
      directory raises; a resume file whose destination can be opened lands
      in the company folder under its own name with exactly its contents,
      except when the destination is the resume itself, which is left empty;
      a destination that cannot be opened raises that error; and a raise
      leaves the state of the save phase. */
  lemma ResumeCopyEffect(s: FsState, root: Path, company: string, position: string, description: string,
                         resumeUsed: string, resumeSource: Path, env: Env)
    requires WellFormed(s)
    requires SavePhase(s, root, company, position, description, resumeUsed, env).Ok?
    ensures var saved := SavePhase(s, root, company, position, description, resumeUsed, env).value;
      var r := LogJob(s, root, company, position, description, resumeUsed, resumeSource, env);
      var dest := ResumeDestination(CompanyFolder(root, company), resumeSource);
      CopyOutcome(saved, resumeSource, dest, env.copyRefusal, r)
  {
    SavePhaseWellFormed(s, root, company, position, description, resumeUsed, env);
    var saved := SavePhase(s, root, company, position, description, resumeUsed, env).value;
    var dest := ResumeDestination(CompanyFolder(root, company), resumeSource);
    assert LogJob(s, root, company, position, description, resumeUsed, resumeSource, env)
      == CopyPhase(saved, resumeSource, dest, env.copyRefusal);
    CopyPhaseEffect(saved, resumeSource, dest, env.copyRefusal);
  }

  /** What a resume copy from `src` to `dest` after the save `saved` may end
      in, `r` being the final state and outcome. */
  predicate CopyOutcome(saved: Saved, src: Path, dest: Path, refusal: Option<string>, r: (FsState, Outcome))
  {
    var st := saved.state;
    && (!Exists(st, src) ==> r == (st, Returned(saved.message)))
    && (src in st.dirs ==> r == (st, Raised(IsADirectory(src))))
    && (src in st.files && dest != src && OpenForWrite(st, dest, refusal).None? ==>
          && r.1 == Returned(saved.message)
          && r.0.dirs == st.dirs
          && r.0.files == st.files[dest := st.files[src]])
    && (src in st.files && dest == src && refusal.None? ==>
          r == (st.(files := st.files[src := Bytes([])]), Returned(saved.message)))
    && (src in st.files && OpenForWrite(st, dest, refusal).Some? ==>
          r == (st, Raised(OpenForWrite(st, dest, refusal).value)))
    && (r.1.Raised? ==> Exists(st, src) && r.0 == st)
  }

  /** The copy phase on its own, with the copy as written. */
  lemma CopyPhaseEffect(saved: Saved, resumeSource: Path, dest: Path, refusal: Option<string>)
    requires WellFormed(saved.state)
    ensures CopyOutcome(saved, resumeSource, dest, refusal, CopyPhase(saved, resumeSource, dest, refusal))
  {
    CopyAsWrittenEffect(saved.state, resumeSource, dest, refusal);
  }

  /** The save phase, when it returns, leaves a well-formed file system. */
  lemma SavePhaseWellFormed(s: FsState, root: Path, company: string, position: string, description: string,
                            resumeUsed: string, env: Env)
    requires WellFormed(s)
    ensures var r := SavePhase(s, root, company, position, description, resumeUsed, env);
      r.Ok? ==> WellFormed(r.value.state)
  {
    SavePhaseRaises(s, root, company, position, description, resumeUsed, env);
    if AfterMkDirs(s, CompanyFolder(root, company), env.mkdirRefusal).Ok? {
      SavePhaseEffect(s, root, company, position, description, resumeUsed, env);
    }
  }

  /** Every run leaves a well-formed file system. */
  lemma LogJobStaysWellFormed(s: FsState, root: Path, company: string, position: string, description: string,
                              resumeUsed: string, resumeSource: Path, env: Env)
    requires WellFormed(s)
    ensures WellFormed(LogJob(s, root, company, position, description, resumeUsed, resumeSource, env).0)
  {
    SavePhaseWellFormed(s, root, company, position, description, resumeUsed, env);
    match SavePhase(s, root, company, position, description, resumeUsed, env)
    case Err(_) =>
      MkDirsLeavesBehind(s, CompanyFolder(root, company), env.mkdirRefusal);
    case Ok(saved) =>
      CopyAsWrittenEffect(saved.state, resumeSource, ResumeDestination(CompanyFolder(root, company), resumeSource), env.copyRefusal);
  }
}
