/**
 * The earlier script version of the routine: one JSON file per company and
 * position with no index, a four-field record whose description comes from
 * the clipboard, and the m/d/yyyy date string put into the spreadsheet row.
 * Its folder creation is the same as the backend's and is shared with it.
 */
module MainScript {
  import opened Wrappers
  import opened Strings
  import opened FileSys
  import Backend

  // ---------------------------------------------------------------------------
  // The un-indexed file name
  // ---------------------------------------------------------------------------

  /** `f"{company_name}_{position}".replace(" ", "_").lower() + "_job_description.json"`. */
  function UnindexedName(company: string, position: string): string
  {
    Backend.FileStem(company, position) + Backend.JsonSuffix
  }

  /** The file name is the folder name, an underscore, the normalised
      position and the fixed suffix, with no index and no space. */
  lemma UnindexedNameShape(company: string, position: string)
    ensures UnindexedName(company, position)
      == Backend.Normalise(company) + "_" + Backend.Normalise(position) + "_job_description.json"
    ensures ' ' !in UnindexedName(company, position)
  {
    Backend.StemStartsWithFolder(company, position);
    var n := UnindexedName(company, position);
    var stem := Backend.FileStem(company, position);
    forall i | 0 <= i < |n| ensures n[i] != ' ' {
      if i < |stem| { assert n[i] == stem[i]; } else { assert n[i] == Backend.JsonSuffix[i - |stem|]; }
    }
  }

  // The script's own example, word by word: each word is normalised on its
  // own and the words are joined with NormaliseConcat.

  lemma NormaliseWordCD(w: string) requires w == "CD" ensures Backend.Normalise(w) == "cd"
  { Backend.NormaliseChars(w); }
  lemma NormaliseWordProject(w: string) requires w == " Project" ensures Backend.Normalise(w) == "_project"
  { Backend.NormaliseChars(w); }
  lemma NormaliseWordRed(w: string) requires w == " Red" ensures Backend.Normalise(w) == "_red"
  { Backend.NormaliseChars(w); }
  lemma NormaliseWordSenior(w: string) requires w == "Senior" ensures Backend.Normalise(w) == "senior"
  { Backend.NormaliseChars(w); }
  lemma NormaliseWordGameplay(w: string) requires w == " Gameplay" ensures Backend.Normalise(w) == "_gameplay"
  { Backend.NormaliseChars(w); }
  lemma NormaliseWordAnimator(w: string) requires w == " Animator" ensures Backend.Normalise(w) == "_animator"
  { Backend.NormaliseChars(w); }
  lemma NormaliseWordNpc(w: string) requires w == " (NPC)" ensures Backend.Normalise(w) == "_(npc)"
  { Backend.NormaliseChars(w); }

  lemma CompanyLiterals()
    ensures "CD" + " Project" + " Red" == "CD Project Red"
    ensures "cd" + "_project" + "_red" == "cd_project_red"
  {
  }

  lemma PositionLiterals()
    ensures "Senior" + " Gameplay" + " Animator" + " (NPC)" == "Senior Gameplay Animator (NPC)"
    ensures "senior" + "_gameplay" + "_animator" + "_(npc)" == "senior_gameplay_animator_(npc)"
  {
    RawPositionLiteral();
    NormalisedPositionLiteral();
  }

  lemma RawPositionLiteral()
    ensures "Senior" + " Gameplay" + " Animator" + " (NPC)" == "Senior Gameplay Animator (NPC)"
  {
  }

  lemma NormalisedPositionLiteral()
    ensures "senior" + "_gameplay" + "_animator" + "_(npc)" == "senior_gameplay_animator_(npc)"
  {
  }

  lemma FileNameLiterals()
    ensures "cd_project_red" + "_" + "senior_gameplay_animator_(npc)" + "_job_description.json"
      == "cd_project_red_senior_gameplay_animator_(npc)_job_description.json"
  {
    JoinLiteral1();
    JoinLiteral2();
    JoinLiteral3();
    JoinLiteral4();
  }

  lemma JoinLiteral1()
    ensures "cd_project_red" + "_" + "senior_gameplay" == "cd_project_red_senior_gameplay"
  {
  }

  lemma JoinLiteral2()
    ensures "senior_gameplay" + "_animator_(npc)" == "senior_gameplay_animator_(npc)"
  {
  }

  lemma JoinLiteral3()
    ensures "cd_project_red_senior_gameplay" + "_animator_(npc)" == "cd_project_red_senior_gameplay_animator_(npc)"
  {
  }

  lemma JoinLiteral4()
    ensures "cd_project_red_senior_gameplay_animator_(npc)" + "_job_description.json"
      == "cd_project_red_senior_gameplay_animator_(npc)_job_description.json"
  {
  }

  /** The script's company "CD Project Red" gets the folder `cd_project_red`. */
  lemma FolderExample()
    ensures Backend.Normalise("CD Project Red") == "cd_project_red"
  {
    var a, b, c := "CD", " Project", " Red";
    NormaliseWordCD(a);
    NormaliseWordProject(b);
    NormaliseWordRed(c);
    Backend.NormaliseConcat(a, b);
    Backend.NormaliseConcat(a + b, c);
    CompanyLiterals();
  }

  /** The script's position is normalised to `senior_gameplay_animator_(npc)`. */
  lemma PositionExample()
    ensures Backend.Normalise("Senior Gameplay Animator (NPC)") == "senior_gameplay_animator_(npc)"
  {
    var a, b, c, d := "Senior", " Gameplay", " Animator", " (NPC)";
    NormaliseWordSenior(a);
    NormaliseWordGameplay(b);
    NormaliseWordAnimator(c);
    NormaliseWordNpc(d);
    Backend.NormaliseConcat(a, b);
    Backend.NormaliseConcat(a + b, c);
    Backend.NormaliseConcat(a + b + c, d);
    PositionLiterals();
  }

  /** The script's own call names its file
      `cd_project_red_senior_gameplay_animator_(npc)_job_description.json`. */
  lemma FileNameExample()
    ensures UnindexedName("CD Project Red", "Senior Gameplay Animator (NPC)")
      == "cd_project_red_senior_gameplay_animator_(npc)_job_description.json"
  {
    FolderExample();
    PositionExample();
    UnindexedNameShape("CD Project Red", "Senior Gameplay Animator (NPC)");
    FileNameLiterals();
  }

  // ---------------------------------------------------------------------------
  // The record written by the script's write_json_file
  // ---------------------------------------------------------------------------

  const ScriptRecordKeys := ["job_description", "position_name", "company_name", "date_applied"]

  /** The script's `job_data`: no resume path; the description is the clipboard text. */
  function BuildScriptRecord(position: string, company: string, clipboard: string, dateApplied: string): JsonObject
  {
    [ ("job_description", clipboard),
      ("position_name", position),
      ("company_name", company),
      ("date_applied", dateApplied) ]
  }

  /** Exactly four keys, in order, holding the raw inputs; there is no resume path. */
  lemma ScriptRecordShape(position: string, company: string, clipboard: string, dateApplied: string)
    ensures Backend.Keys(BuildScriptRecord(position, company, clipboard, dateApplied)) == ScriptRecordKeys
    ensures var o := BuildScriptRecord(position, company, clipboard, dateApplied);
      && Backend.Lookup(o, "job_description") == Some(clipboard)
      && Backend.Lookup(o, "position_name") == Some(position)
      && Backend.Lookup(o, "company_name") == Some(company)
      && Backend.Lookup(o, "date_applied") == Some(dateApplied)
      && Backend.Lookup(o, "resume_used_path") == None
  {
    var o := BuildScriptRecord(position, company, clipboard, dateApplied);
    assert Backend.Keys(o) == ScriptRecordKeys;
    var o1 := o[1..];
    var o2 := o1[1..];
    var o3 := o2[1..];
    assert o3 == [("date_applied", dateApplied)] && o3[1..] == [];
    assert "company_name" != "date_applied" by { assert "company_name"[0] != "date_applied"[0]; }
    assert Backend.Lookup(o, "position_name") == Backend.Lookup(o1, "position_name") == Some(position);
    assert Backend.Lookup(o, "company_name") == Backend.Lookup(o1, "company_name")
        == Backend.Lookup(o2, "company_name") == Some(company);
    assert Backend.Lookup(o, "date_applied") == Backend.Lookup(o1, "date_applied")
        == Backend.Lookup(o2, "date_applied") == Backend.Lookup(o3, "date_applied") == Some(dateApplied);
    assert Backend.Lookup(o, "resume_used_path") == Backend.Lookup(o1, "resume_used_path")
        == Backend.Lookup(o2, "resume_used_path") == Backend.Lookup(o3, "resume_used_path")
        == Backend.Lookup(o3[1..], "resume_used_path") == None;
  }

  // ---------------------------------------------------------------------------
  // The script's log_job_applied_for
  // ---------------------------------------------------------------------------

  /** Folder creation, then the write with no try/except: any error escapes.
      `mkdirRefusal` and `writeRefusal` are the operating system's refusals
      to create the folder and to open the file. */
  function ScriptLog(s: FsState, root: Path, company: string, position: string, clipboard: string,
                     timestamp: string, mkdirRefusal: Option<MkDirRefusal>, writeRefusal: Option<string>)
    : (FsState, Option<OsError>)
  {
    var folder := Backend.CompanyFolder(root, company);
    match AfterMkDirs(s, folder, mkdirRefusal)
    case Err(e) => (MkDirsState(s, folder, mkdirRefusal), Some(e))
    case Ok(s1) =>
      var path := folder + [UnindexedName(company, position)];
      match AfterWrite(s1, path, Json(BuildScriptRecord(position, company, clipboard, timestamp)), writeRefusal)
      case Err(e) => (s1, Some(e))
      case Ok(s2) => (s2, None)
  }

  /** `log_job_applied_for(company_name, position)` of the script, on the
      live file system; `clipboard` is what `pyperclip.paste()` returns. */
  method LogJobAppliedFor(fs: FileSystem, root: Path, company: string, position: string, clipboard: string,
                          timestamp: string, mkdirRefusal: Option<MkDirRefusal>, writeRefusal: Option<string>)
    returns (err: Option<OsError>)
    modifies fs
    ensures (fs.State(), err)
      == ScriptLog(old(fs.State()), root, company, position, clipboard, timestamp, mkdirRefusal, writeRefusal)
  {
    var folder, mkdirErr := Backend.CreateFolderStructure(fs, company, root, mkdirRefusal);
    if mkdirErr.Some? {
      err := mkdirErr;
      return;
    }
    var path := folder + [UnindexedName(company, position)];
    err := fs.WriteFile(path, Json(BuildScriptRecord(position, company, clipboard, timestamp)), writeRefusal);
  }

  /** Nothing the script does is caught: it reports an error exactly when
      creating the folder or opening the file raises, and then with that
      error, leaving what mkdir left and touching no file. */
  lemma ScriptErrorsEscape(s: FsState, root: Path, company: string, position: string, clipboard: string,
                           timestamp: string, mkdirRefusal: Option<MkDirRefusal>, writeRefusal: Option<string>)
    requires WellFormed(s)
    ensures var folder := Backend.CompanyFolder(root, company);
      var path := folder + [UnindexedName(company, position)];
      var made := AfterMkDirs(s, folder, mkdirRefusal);
      var r := ScriptLog(s, root, company, position, clipboard, timestamp, mkdirRefusal, writeRefusal);
      && (made.Err? ==> r == (MkDirsState(s, folder, mkdirRefusal), Some(made.error)))
      && (made.Ok? ==> r.1 == OpenForWrite(made.value, path, writeRefusal))
      && (r.1.Some? ==> r.0.files == s.files)
  {
    var folder := Backend.CompanyFolder(root, company);
    MkDirsEffect(s, folder, mkdirRefusal);
    MkDirsLeavesBehind(s, folder, mkdirRefusal);
  }

  /** In a well-formed tree where the folder is made, no directory takes
      the file's name and the system does not refuse the write, the save
      succeeds and the one file it touches holds the four-field record. */
  lemma ScriptSaveEffect(s: FsState, root: Path, company: string, position: string, clipboard: string,
                         timestamp: string, mkdirRefusal: Option<MkDirRefusal>)
    requires WellFormed(s)
    requires AfterMkDirs(s, Backend.CompanyFolder(root, company), mkdirRefusal).Ok?
    requires Backend.CompanyFolder(root, company) + [UnindexedName(company, position)] !in s.dirs
    ensures var r := ScriptLog(s, root, company, position, clipboard, timestamp, mkdirRefusal, None);
      var path := Backend.CompanyFolder(root, company) + [UnindexedName(company, position)];
      && r.1 == None && WellFormed(r.0)
      && r.0.files == s.files[path := Json(BuildScriptRecord(position, company, clipboard, timestamp))]
  {
    var folder := Backend.CompanyFolder(root, company);
    var path := folder + [UnindexedName(company, position)];
    MkDirsEffect(s, folder, mkdirRefusal);
    var s1 := AfterMkDirs(s, folder, mkdirRefusal).value;
    assert path !in Prefixes(folder) by {
      forall k | 0 <= k <= |folder| ensures folder[..k] != path {
        assert |folder[..k]| == k < |path|;
      }
    }
    assert path[..|path| - 1] == folder;
    WriteEffect(s1, path, Json(BuildScriptRecord(position, company, clipboard, timestamp)), None);
  }

  /** The same company and position always give the same path, so saving
      again replaces the earlier record: the folder now exists, so no mkdir
      refusal matters, the set of files stays the same and the file holds
      the latest record. */
  lemma RepeatSaveOverwrites(s: FsState, root: Path, company: string, position: string,
                             clipboard1: string, timestamp1: string, mkdirRefusal1: Option<MkDirRefusal>,
                             clipboard2: string, timestamp2: string, mkdirRefusal2: Option<MkDirRefusal>)
    requires WellFormed(s)
    requires ScriptLog(s, root, company, position, clipboard1, timestamp1, mkdirRefusal1, None).1 == None
    ensures var t1 := ScriptLog(s, root, company, position, clipboard1, timestamp1, mkdirRefusal1, None).0;
      var r2 := ScriptLog(t1, root, company, position, clipboard2, timestamp2, mkdirRefusal2, None);
      var path := Backend.CompanyFolder(root, company) + [UnindexedName(company, position)];
      && r2.1 == None
      && r2.0.dirs == t1.dirs
      && r2.0.files.Keys == t1.files.Keys
      && path in r2.0.files && r2.0.files[path] == Json(BuildScriptRecord(position, company, clipboard2, timestamp2))
  {
    var folder := Backend.CompanyFolder(root, company);
    var path := folder + [UnindexedName(company, position)];
    MkDirsEffect(s, folder, mkdirRefusal1);
    var s1 := AfterMkDirs(s, folder, mkdirRefusal1).value;
    WriteEffect(s1, path, Json(BuildScriptRecord(position, company, clipboard1, timestamp1)), None);
    var t1 := ScriptLog(s, root, company, position, clipboard1, timestamp1, mkdirRefusal1, None).0;
    assert path in t1.files;
    assert AfterMkDirs(t1, folder, mkdirRefusal2) == Ok(t1) by {
      assert folder in t1.dirs;
      assert t1.dirs == s1.dirs;
      assert !Blocked(t1, folder) by {
        forall k | 0 <= k <= |folder| ensures folder[..k] !in t1.files {
          assert |folder[..k]| == k < |path|;
          assert folder[..k] != path;
        }
      }
      assert t1.dirs + Prefixes(folder) == t1.dirs;
    }
    WriteEffect(t1, path, Json(BuildScriptRecord(position, company, clipboard2, timestamp2)), None);
  }

  // ---------------------------------------------------------------------------
  // The date string: strftime("%m/%d/%Y").lstrip("0").replace("/0", "/")
  // ---------------------------------------------------------------------------

  /** `date.strftime("%m/%d/%Y")`: two-digit month and day, four-digit year. */
  function StrfTimeMDY(month: nat, day: nat, year: nat): string
  {
    ZeroPad(NatStr(month), 2) + "/" + ZeroPad(NatStr(day), 2) + "/" + ZeroPad(NatStr(year), 4)
  }

  /** The expression that turns today's date into the spreadsheet's date text. */
  function TodayString(month: nat, day: nat, year: nat): string
  {
    Replace(LStrip(StrfTimeMDY(month, day, year), '0'), "/0", "/")
  }

  lemma DigitsHaveNoSlash(u: string)
    requires IsDigits(u)
    ensures forall i :: 0 <= i < |u| ==> u[i] != '/'
  {
  }

  /** "/" followed by a digit string that does not start with zero: no "/0"
      match at the slash, and none inside the digits. */
  lemma ReplaceAfterSlash(u: string, t: string)
    requires IsDigits(u) && |u| > 0 && u[0] != '0'
    ensures Replace("/" + u + t, "/0", "/") == "/" + u + Replace(t, "/0", "/")
  {
    var s := "/" + u + t;
    assert s[..2] != "/0" by { assert s[..2][1] == u[0]; }
    assert s[1..] == u + t;
    DigitsHaveNoSlash(u);
    ReplaceSkipsPrefix(u, t, "/0", "/");
  }

  /** A date field as `str()` prints it: one or two digits, no leading zero. */
  predicate PlainField(u: string)
  {
    IsDigits(u) && 1 <= |u| && u[0] != '0'
  }

  /** `lstrip("0")` removes the month's padding zero and nothing more. */
  lemma StripMonth(m: string, rest: string)
    requires PlainField(m) && |m| <= 2
    ensures LStrip(ZeroPad(m, 2) + rest, '0') == m + rest
  {
    if |m| < 2 {
      assert Zeros(1) == "0";
      assert ZeroPad(m, 2) + rest == "0" + (m + rest);
      assert ("0" + (m + rest))[1..] == m + rest;
    }
    assert (m + rest)[0] == m[0];
  }

  /** `replace("/0", "/")` finds nothing in "/" followed by the year. */
  lemma ReplaceYear(y: string)
    requires PlainField(y)
    ensures Replace("/" + y, "/0", "/") == "/" + y
  {
    DigitsHaveNoSlash(y);
    ReplaceSkipsPrefix(y, "", "/0", "/");
    assert y + "" == y;
    ReplaceAfterSlash(y, "");
    assert "/" + y + "" == "/" + y;
  }

  /** `replace("/0", "/")` removes the day's padding zero. */
  lemma ReplaceDay(d: string, tail: string)
    requires PlainField(d) && |d| <= 2
    ensures Replace("/" + ZeroPad(d, 2) + tail, "/0", "/") == "/" + d + Replace(tail, "/0", "/")
  {
    DigitsHaveNoSlash(d);
    var rest := "/" + ZeroPad(d, 2) + tail;
    if |d| < 2 {
      assert Zeros(1) == "0";
      assert rest == "/0" + (d + tail);
      assert rest[..2] == "/0" && rest[2..] == d + tail;
      ReplaceSkipsPrefix(d, tail, "/0", "/");
    } else {
      assert rest == "/" + d + tail;
      ReplaceAfterSlash(d, tail);
    }
  }

  /** The whole expression on padded fields gives the plain fields. */
  lemma CleanDate(m: string, d: string, y: string)
    requires PlainField(m) && |m| <= 2 && PlainField(d) && |d| <= 2 && PlainField(y)
    ensures Replace(LStrip(ZeroPad(m, 2) + "/" + ZeroPad(d, 2) + "/" + y, '0'), "/0", "/")
      == m + "/" + d + "/" + y
  {
    var rest := "/" + ZeroPad(d, 2) + "/" + y;
    JoinPadded(ZeroPad(m, 2), ZeroPad(d, 2), y);
    calc {
      Replace(LStrip(ZeroPad(m, 2) + rest, '0'), "/0", "/");
    == { StripMonth(m, rest); }
      Replace(m + rest, "/0", "/");
    == { DigitsHaveNoSlash(m); ReplaceSkipsPrefix(m, rest, "/0", "/"); }
      m + Replace(rest, "/0", "/");
    == { ReplaceDay(d, "/" + y); }
      m + ("/" + d + Replace("/" + y, "/0", "/"));
    == { ReplaceYear(y); }
      m + ("/" + d + ("/" + y));
    == { JoinFields(m, d, y); }
      m + "/" + d + "/" + y;
    }
  }

  lemma JoinPadded(pm: string, pd: string, y: string)
    ensures pm + "/" + pd + "/" + y == pm + ("/" + pd + "/" + y)
    ensures "/" + pd + "/" + y == "/" + pd + ("/" + y)
  {
  }

  lemma JoinFields(m: string, d: string, y: string)
    ensures m + ("/" + d + ("/" + y)) == m + "/" + d + "/" + y
  {
  }

  /** `str(n)` of a number from 1 to 9999 is a plain field of the expected width. */
  lemma NatStrPlain(n: nat)
    requires 1 <= n <= 9999
    ensures PlainField(NatStr(n))
    ensures n < 100 ==> |NatStr(n)| <= 2
    ensures n >= 1000 ==> |NatStr(n)| == 4
  {
    NatStrDigits(n);
    NatStrLength(n);
  }

  /** For a real date (month 1..12, day 1..31, a four-digit year) the text is
      `str(month) + "/" + str(day) + "/" + str(year)`: `lstrip("0")` removes
      only the month's leading zero, `replace("/0", "/")` only the day's, and
      the year is untouched. */
  lemma TodayStringUnpadded(month: nat, day: nat, year: nat)
    requires 1 <= month <= 12 && 1 <= day <= 31 && 1000 <= year <= 9999
    ensures TodayString(month, day, year) == NatStr(month) + "/" + NatStr(day) + "/" + NatStr(year)
  {
    NatStrPlain(month);
    NatStrPlain(day);
    NatStrPlain(year);
    assert ZeroPad(NatStr(year), 4) == NatStr(year);
    CleanDate(NatStr(month), NatStr(day), NatStr(year));
  }
}
