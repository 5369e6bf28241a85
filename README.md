# Job-record naming and persistence, in Dafny

This project models the local record keeping of the job-hunting tools. For a
job application it:

- creates a folder per company, named after the company with spaces replaced by
  `_` and lower-cased;
- picks a file name for the job description;
- writes the description as a JSON record;
- copies the resume used into the company folder.

Two versions of the routine are modelled:

- **The backend version** (`src/job_hunting_tools_backend.py`). It numbers the
  files `{stem}_001_job_description.json`, `{stem}_002_…`, and so on. It
  catches a failed write and turns it into a status message. It skips a
  missing resume.
- **The older script** (`src/main.py`). It writes a single un-indexed file per
  company and position. The record has four fields, and the description comes
  from the clipboard. It also formats today's date as `m/d/yyyy` for the
  spreadsheet row.

Supporting modules:

- `Strings` models the string operations the code uses, with Python's
  semantics:
  - `str.replace`: left to right, non-overlapping matches;
  - `str.lower` on ASCII;
  - `str.startswith` and `str.lstrip`;
  - `str(n)` and the `03d` / `%m` / `%d` / `%Y` zero padding.
- `FileSys` models the file system, following `pathlib`:
  - the whole file system is a value: a set of directories and a map from
    file paths to contents;
  - each call used by the code is a step from one state to either a new state
    or an error;
  - the class `FileSystem` holds the live state, and the imperative `method`s
    apply those steps in place.
- `Backend` models the backend routine in two forms:
  - a pure function over file-system states (`LogJob`);
  - the imperative routine (`Backend.LogJobAppliedFor`). It scans the
    directory with a counting loop (`NewFileIndex`) and is proved to compute
    exactly what `LogJob` says.
- `MainScript` models the older script the same way (`ScriptLog`, and
  `MainScript.LogJobAppliedFor`).

Facts about the code that the model makes explicit:

- **The routine can raise.** Only the JSON write is inside `try`
  (`src/job_hunting_tools_backend.py:182-187`). A failed `mkdir` (`:128`) or a
  failed resume copy (`:194`) escapes as an exception. The model returns
  `Outcome.Raised` for these.
- **A chosen name can already exist.** The index comes from a count of the
  files that start with the stem, so after a deletion the chosen name can be a
  file that is still there, and the write replaces it
  (`Backend.CollisionAfterDeletion`).
- **A directory can take the 001 name.** The probe `exists()` is true for a
  directory, but the scan counts only regular files. When no file for the
  stem is counted, a directory carrying the 001 name therefore yields 001
  again, and the write then fails (`Backend.DirectoryHidesCollision`). When
  files for the stem are counted, the count ignores the directory, so the
  chosen index can be that of an existing file.
- **A refused folder keeps what was made above it.** `mkdir(parents=True)`
  walks up to the first existing directory and creates the missing ones on
  the way down. When the system refuses one of them, it raises with that
  directory's path, and the directories created before it stay. So the root
  survives a refusal of the company folder, but not a refusal of the root
  itself (`Backend.RefusedFolderKeepsAncestors`).
- **The empty company name.** `Path(root) / ""` is `root` itself, so a company
  whose name is empty uses the root as its folder (`Backend.FolderPlacement`).
- **A copy onto itself empties the resume.** When the resume already lies in
  the company folder, the destination is the source; it is truncated before it
  is read (see Findings). The routine's model keeps this behaviour.

## Model

| member | source | states |
|---|---|---|
| Backend.Normalise | src/job_hunting_tools_backend.py:119 | `name.replace(" ", "_").lower()`; its properties are the next three rows. |
| Backend.NormaliseChars | src/job_hunting_tools_backend.py:119 | Normalising keeps the length. It maps every character on its own: a space becomes `_` and an ASCII capital becomes its small letter. So a normalised name never contains a space. |
| Backend.NormaliseIdempotent | src/job_hunting_tools_backend.py:119 | Normalising an already normalised name changes nothing. |
| Backend.NormaliseConcat | src/job_hunting_tools_backend.py:168-169 | Normalising a concatenation equals concatenating the normalised parts. |
| Backend.CompanyFolder | src/job_hunting_tools_backend.py:119-125 | `Path(root) / normalise(company)`, the same at src/main.py:100-106; its placement is `Backend.FolderPlacement`. |
| Backend.CreateFolderStructure | src/job_hunting_tools_backend.py:110-130 | Returns `root / normalise(company)`, which is `root` itself for an empty name. The new state is what `MkDirsState` says the mkdir step leaves: when a directory on the way is refused, the missing directories above it stay. The raised error is the step's. |
| Backend.FolderPlacement | src/job_hunting_tools_backend.py:119-125 | An empty company name gives the root itself. Any other name gives a folder directly under the root, whose name has the company's length and contains no space. |
| Backend.FolderCreated | src/job_hunting_tools_backend.py:125-130 | Unless a file sits on the way, there are two outcomes. When the system refuses a missing directory on the way, the step raises `Refused` with that directory's path, and exactly the missing directories above it are added. Otherwise the folder exists afterwards and no file changes. The only directories added are the folder and its missing ancestors, and creating it again (refused or not) changes nothing. An existing folder is never refused. |
| FileSys.AfterMkDirs | src/job_hunting_tools_backend.py:128 | The `mkdir(parents=True, exist_ok=True)` step. It fails with `NotCreated` when a file is in the way. It fails with `Refused` and the refused path when the system refuses a missing prefix of the target (an ancestor or the target itself). Otherwise it adds the target and its ancestors. The state a failure leaves is `MkDirsState`. |
| FileSys.MkDirsState | src/job_hunting_tools_backend.py:128 | The state mkdir leaves: the new tree on success and the old tree when a file is in the way. When a missing prefix is refused, it is the old tree plus the missing directories above that prefix, which pathlib created before reaching it. |
| FileSys.MkDirsLeavesBehind | src/job_hunting_tools_backend.py:128 | Whatever mkdir ends in, the tree stays well formed and no file changes. A file in the way changes nothing. A refused prefix leaves exactly the directories above it added, and neither the refused prefix nor the target exists. |
| FileSys.MkDirsEffect | src/job_hunting_tools_backend.py:128 | `mkdir` succeeds exactly when no ancestor of the target (nor the target itself) is a file and the system refuses no missing prefix. Each failure has its own error value, and an existing target is never refused. On success the tree stays well formed, the target is a directory, no file changes, and the only directories added are the target and its ancestors. |
| FileSys.MkDirsIdempotent | src/job_hunting_tools_backend.py:128 | Running `mkdir` again after a successful run returns the same state, whatever the system would refuse. |
| FileSys.FileSystem.MkDirs | src/job_hunting_tools_backend.py:128 | The live state becomes what `MkDirsState` gives, and the method reports the error of `AfterMkDirs`. |
| FileSys.OpenForWrite | src/job_hunting_tools_backend.py:107 | The error of `open("w")` (and of `open("wb")` at :145): a directory at the path, a missing parent, or the system's refusal; none otherwise. Its consequences are in `FileSys.WriteEffect`. |
| FileSys.AfterWrite | src/job_hunting_tools_backend.py:107-108 | `open("w")` followed by the write of the record. Its properties are in `FileSys.WriteEffect`. |
| FileSys.WriteEffect | src/job_hunting_tools_backend.py:107-108 | Opening for writing fails in three cases: the path is a directory, the parent directory is missing, or the system refuses. Otherwise the write succeeds: the path then holds exactly the record, no other path changes, and the tree stays well formed. |
| FileSys.FileSystem.WriteFile | src/job_hunting_tools_backend.py:107-108 | Updates the live files as `AfterWrite` says, or leaves them unchanged and reports the error. |
| FileSys.AfterCopyAsWritten | src/job_hunting_tools_backend.py:140-146 | `copy_file_to_path` as written, the copy the routine uses. The destination is truncated before the source is read, so a copy onto itself leaves an empty file. |
| FileSys.CopyAsWrittenEffect | src/job_hunting_tools_backend.py:140-146 | A missing source changes nothing and raises nothing. A directory source raises `IsADirectory`. Otherwise, either opening the destination raises, or the destination receives the source's contents (nothing, when it is the source itself) and every other path keeps its own. |
| FileSys.SelfCopyEmptiesFile | src/job_hunting_tools_backend.py:144-146 | As written, copying a file onto its own path is either refused by the system or succeeds and leaves the file empty, whatever it held. |
| FileSys.AfterCopy | src/job_hunting_tools_backend.py:140-146 | The intended copy, used only to state the finding: the destination receives the source's contents, even when it is the source. |
| FileSys.CopyEffect | src/job_hunting_tools_backend.py:140-146 | For the intended copy: a missing source changes nothing and raises nothing. A directory source raises. Otherwise, either opening the destination raises, or the destination receives exactly the source's contents while the source and every other path keep theirs. |
| FileSys.CopyAsWrittenAgrees | src/job_hunting_tools_backend.py:140-146 | On two different paths the copy as written and the intended copy give the same result. |
| FileSys.FileSystem.CopyFile | src/job_hunting_tools_backend.py:140-146 | Updates the live files as `AfterCopyAsWritten` says and reports its error: a copy onto itself empties the file. |
| FileSys.FilesInMember | src/job_hunting_tools_backend.py:173 | A name is in the folder's file listing exactly when that path is a regular file in the folder. |
| Backend.StemStartsWithFolder | src/job_hunting_tools_backend.py:168-169 | The file stem is the folder name, then `_`, then the normalised position. It contains no space. |
| Backend.Index03Digits | src/job_hunting_tools_backend.py:169 | `{index:03d}` is a string of digits that reads back as the index. It has at least three characters, and exactly three below 1000. |
| Backend.FileStem | src/job_hunting_tools_backend.py:168-169 | `f"{company_name}_{position}".replace(" ", "_").lower()`; its shape is `Backend.StemStartsWithFolder`. |
| Backend.Index03 | src/job_hunting_tools_backend.py:169 | `f"{index:03d}"`; its properties are `Backend.Index03Digits`. |
| Backend.IndexedName | src/job_hunting_tools_backend.py:178 | `f"{stem}_{index:03d}_job_description.json"`; its properties are the next two rows. |
| Backend.IndexedNameInjective | src/job_hunting_tools_backend.py:178 | Different indices give different file names. |
| Backend.IndexedNameHasStem | src/job_hunting_tools_backend.py:176 | Every indexed name starts with `stem + "_"`, so the scan counts it. |
| Backend.ChooseName | src/job_hunting_tools_backend.py:168-180 | The naming rule: 001 when the probe misses, else one past the number of folder files starting with `stem + "_"`. Its properties are the surrounding rows. |
| Backend.NameInFolder | src/job_hunting_tools_backend.py:171-178 | The naming rule applied to a folder of a file-system state: the probe is `exists()`, the listing counts regular files only. |
| Backend.CollisionSkipsFirst | src/job_hunting_tools_backend.py:173-178 | When the 001 file exists, the chosen index is at least 2, and the name differs from the 001 name. |
| Backend.NewFileIndex | src/job_hunting_tools_backend.py:173-177 | The counting loop returns 1 plus the number of listed files whose name starts with the prefix. |
| Backend.FirstNameIffFree | src/job_hunting_tools_backend.py:171-180 | Assuming no directory has the name, the 001 name is chosen exactly when no file of that name is in the folder. |
| Backend.DirectoryHidesCollision | src/job_hunting_tools_backend.py:171-173 | When no file for the stem is counted, a directory carrying the 001 name is not counted either, so 001 is chosen again and opening it for writing raises `IsADirectory`. |
| Backend.BlockSize | src/job_hunting_tools_backend.py:178 | Indices 1..k give k distinct names. |
| Backend.NextAfterBlock | src/job_hunting_tools_backend.py:171-178 | Suppose the counted files are exactly indices 1..k. Then the next name has index k+1, and no file has that name yet. After it is added, the counted files are exactly indices 1..k+1. |
| Backend.SequentialSaves | src/job_hunting_tools_backend.py:169-178 | Starting from indices 1..k, n successive saves give the indices k+1, k+2, … in order. Each name is new and all are distinct. |
| Backend.SavesWidth | src/job_hunting_tools_backend.py:178 | While the indices stay below 1000, each saved name is the stem, `_`, three digits and the suffix. |
| Backend.CollisionAfterDeletion | src/job_hunting_tools_backend.py:173-178 | With 001 and 003 present (002 deleted), the scheme picks 003 again, which is an existing file. |
| Backend.BuildRecord | src/job_hunting_tools_backend.py:98-104 | The five-field `job_data` dictionary; its shape is `Backend.RecordShape`. |
| Backend.RecordShape | src/job_hunting_tools_backend.py:98-104 | The record has exactly the keys `job_description`, `position_name`, `company_name`, `date_applied`, `resume_used_path`, in that order. Reading it back gives the inputs unchanged, including the un-normalised company and position. |
| Backend.SavePhase | src/job_hunting_tools_backend.py:165-187 | Folder creation, naming and the write inside its `try`/`except`, on a file-system value. Its properties are the `SavePhase…` rows. |
| Backend.ResumeDestination | src/job_hunting_tools_backend.py:192-193 | `Path(path_structure) / Path(resume_used_path).name`: the folder itself for a path without a name. |
| Backend.CopyPhase | src/job_hunting_tools_backend.py:191-194 | The resume copy after the save, with the copy as written, its error not caught. Its properties are in `Backend.CopyPhaseEffect`. |
| Backend.LogJob | src/job_hunting_tools_backend.py:150-196 | The whole routine on a file-system value: the save phase, then the copy phase. |
| Backend.LogJobAppliedFor | src/job_hunting_tools_backend.py:150-196 | The imperative routine computes exactly the new state and the outcome that `LogJob` gives for the old state. |
| Backend.NamingIgnoresMkDirs | src/job_hunting_tools_backend.py:165-171 | Creating the company folder does not change the name chosen inside it. |
| Backend.SavePhaseRaises | src/job_hunting_tools_backend.py:165 | The part before the copy raises exactly when the company folder cannot be created. Either a file is in the way (`NotCreated` with the folder's path), or the system refuses a missing directory on the way (`Refused` with that directory's path). |
| Backend.RefusedFolderKeepsAncestors | src/job_hunting_tools_backend.py:128 | When the system refuses a missing directory on the way to the company folder, the routine raises `Refused` with that directory's path. No file changes, neither that directory nor the folder exists, and exactly the missing directories above it are added. The root exists afterwards exactly when the refused directory lies below it. |
| Backend.SavePhaseEffect | src/job_hunting_tools_backend.py:180-187 | Once the folder is created, there are two cases. If the write can be opened, the record lands under the chosen name and the message names the file and the folder. If not, no file changes and the message is the failure message carrying the error. Nothing is raised. |
| Backend.SavedMessage | src/job_hunting_tools_backend.py:184 | The success message naming the file and the folder. |
| Backend.FailedMessage | src/job_hunting_tools_backend.py:186 | The failure message carrying the error's text. |
| Backend.MessagesDiffer | src/job_hunting_tools_backend.py:184-186 | The success message and the failure message are never equal. |
| Backend.FreshFolderGets001 | src/job_hunting_tools_backend.py:165-187 | For a company whose folder does not exist yet, a refused directory on the way makes the save raise with that directory's path. Otherwise the name uses index 001, and unless the write is refused, the file holds the record and the success message is returned. |
| Backend.SaveTakesNextIndex | src/job_hunting_tools_backend.py:171-180 | Suppose the folder is created and the counted files are exactly indices 1..k. Then the save uses index k+1, and no existing file has that name. |
| Backend.ResumeCopyEffect | src/job_hunting_tools_backend.py:191-194 | After the save, a missing resume leaves everything as it was and the save's message is returned. A directory raises. A resume file lands at `folder / name` with its contents, except that one already at that place is left empty. A destination that cannot be opened raises its error, and every raise leaves the saved state. |
| Backend.CopyPhaseEffect | src/job_hunting_tools_backend.py:140-146 | The same facts for the copy step applied to any saved state. |
| Backend.SavePhaseWellFormed | src/job_hunting_tools_backend.py:165-187 | The part before the copy, when it returns, leaves a well-formed tree. |
| Backend.LogJobStaysWellFormed | src/job_hunting_tools_backend.py:150-196 | Every run leaves a well-formed tree: ancestors of directories are directories, and every file sits in a directory. |
| MainScript.UnindexedName | src/main.py:126-127 | The script's file name; its shape is `MainScript.UnindexedNameShape`. |
| MainScript.UnindexedNameShape | src/main.py:126-127 | The script's file name is the folder name, then `_`, then the normalised position, then `_job_description.json`. There is no index and no space. |
| MainScript.FolderExample | src/main.py:100 | "CD Project Red" gives the folder `cd_project_red`. |
| MainScript.PositionExample | src/main.py:127 | "Senior Gameplay Animator (NPC)" normalises to `senior_gameplay_animator_(npc)`. |
| MainScript.FileNameExample | src/main.py:126-135 | The script's own call writes `cd_project_red_senior_gameplay_animator_(npc)_job_description.json`. |
| MainScript.BuildScriptRecord | src/main.py:80-85 | The script's four-field `job_data`; its shape is `MainScript.ScriptRecordShape`. |
| MainScript.ScriptRecordShape | src/main.py:80-85 | The record has exactly the four keys `job_description`, `position_name`, `company_name`, `date_applied`, in that order, and holds the inputs unchanged. There is no resume path. |
| MainScript.ScriptLog | src/main.py:113-128 | The script's routine on a file-system value: folder creation, then the un-caught write. |
| MainScript.LogJobAppliedFor | src/main.py:113-128 | The imperative routine reuses the backend's folder creation and computes exactly the state and the error of `ScriptLog`. A failed write is not caught. |
| MainScript.ScriptErrorsEscape | src/main.py:122-128 | The script reports an error exactly when creating the folder or opening the file raises, and then with that error. A failed mkdir leaves what `MkDirsState` says, and no file changes. |
| MainScript.ScriptSaveEffect | src/main.py:123-128 | Suppose the folder is created, no directory has the file's name, and the write is not refused. Then the save succeeds, the tree stays well formed, and the one file it touches holds the four-field record. |
| MainScript.RepeatSaveOverwrites | src/main.py:126-128 | Saving the same company and position again succeeds on the same path, whatever the system would say to `mkdir`. The set of files and the directories stay the same, and the file holds the latest record. |
| MainScript.StrfTimeMDY | src/main.py:138 | `strftime("%m/%d/%Y")`: month and day zero-padded to two digits, the year to four, joined by `/`. |
| MainScript.TodayString | src/main.py:138 | `strftime("%m/%d/%Y").lstrip("0").replace("/0", "/")`; its properties are the next five rows. |
| MainScript.StripMonth | src/main.py:138 | `lstrip("0")` removes the month's padding zero and nothing else. |
| MainScript.ReplaceDay | src/main.py:138 | `replace("/0", "/")` removes the day's padding zero. |
| MainScript.ReplaceYear | src/main.py:138 | `replace("/0", "/")` never changes the year. |
| MainScript.CleanDate | src/main.py:138 | On padded fields without leading zeros, the whole expression gives `m/d/y`. |
| MainScript.TodayStringUnpadded | src/main.py:138 | For month 1–12, day 1–31 and a four-digit year, the date text is `str(month) + "/" + str(day) + "/" + str(year)`. |

## Left out

- Google Sheets (authentication, appending the row, the tab rule): these are network calls into a foreign client library.
- The desktop UI (`src/job_hunting_tools_main_ui.py`): widgets, dialogs and presets are toolkit behaviour. Its date expressions copy the script's expression, which is modelled. Its call of `log_job_applied_for` with three arguments is a UI-side mismatch. The model takes `resume_used_path` as a required input.
- The clock, the clipboard and the logging are inputs or are dropped. `datetime.now().isoformat()` and `pyperclip.paste()` are string parameters. `LOG` calls have no effect in the model.
- Exact JSON bytes (`json.dump` with `indent=4`, `ensure_ascii=False`): library behaviour. A record is an ordered sequence of key/value pairs.
- Path parsing: a path is a sequence of components. Separator splitting, drive letters and `.`/`..` are not modelled. `Path(resume_used_path)` is a parameter given already parsed, and `Render` joins components with a backslash.
- Unicode: `str.lower` is modelled on ASCII letters only.
- Operating-system failures other than a file in the way of `mkdir`, a directory or missing parent at `open`, or a directory as the copy source: these are refusal parameters with their own text. For `mkdir` the refusal names the missing directory on the way that it hits; for each `open` for writing it is a plain refusal. A refused read of the copy source is not modelled.
- Backend.Describe: the error text approximates CPython's wording. The `[Errno n]` / `[WinError n]` prefix and the platform's own phrasing are not modelled, and paths are rendered with Windows separators because the tool's default root is a Windows path.
- FileSys.WriteEffect: a failure of `json.dump` after the file was opened is not modelled. In the code the file is then already created or truncated; the model says a failed write changes no file.
- Concurrency: races between the directory scan and the write are not modelled. Each run is one sequential call.
- MainScript.TodayStringUnpadded: stated only for years 1000–9999. The padding of `%Y` below year 1000 depends on the platform.
- Freshness of a chosen name in general: after a deletion, or when another position's stem extends this one, the count can collide or skip. The model proves freshness only for a folder whose counted files are exactly 1..k (`Backend.SaveTakesNextIndex`), and exhibits the deletion case.

## Findings

| source | as written | input that shows it | evidently intended | confidence | as-written member | corrected member |
|---|---|---|---|---|---|---|
| src/job_hunting_tools_backend.py:144-146 | The source is opened for reading, then the destination is opened with `"wb"`, and only then is the source read. | The resume already inside the company folder, so `folder / source.name` is the source path itself; the truncation empties the file before it is read. | Copying a file onto itself leaves it unchanged. | not executed | FileSys.SelfCopyEmptiesFile | FileSys.CopyEffect |

The routine's model (`Backend.CopyPhase`, `Backend.LogJob`, `FileSys.FileSystem.CopyFile`) uses the copy as written, `FileSys.AfterCopyAsWritten`. The intended copy `FileSys.AfterCopy` states the corrected behaviour, and `FileSys.CopyAsWrittenAgrees` shows that the two differ only on a copy onto itself.
